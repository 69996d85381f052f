/**
 The add/edit form. Its state holds every field as text, plus the favorite
 flag. Opening the form on a recipe fills it from that recipe; submitting
 checks the three required fields, turns the text back into a recipe and
 yields the store command to dispatch: `updateRecipe` when a recipe was
 being edited, `addRecipe` otherwise.
 */
module RecipeForm {
  import opened Types
  import opened Seqs
  import opened Text
  import opened Numbers

  /** The form's state: every field as the user typed it. */
  datatype FormData = FormData(
    name: string,
    ingredients: string,
    instructions: string,
    imageUrl: string,
    category: string,
    isFavorite: bool,
    prepTime: string,
    servings: string)

  /** The blank form, with "Main Course" preselected. */
  const EmptyForm: FormData := FormData("", "", "", "", "Main Course", false, "", "")

  /** `x?.toString() || ''`. */
  function NumberText(x: Option<Num>): (r: string)
    ensures r == [] <==> x.None?
  {
    match x
    case None => ""
    case Some(n) => ToString(n)
  }

  /** The form filled from `r`; the ingredients are joined with ", ". */
  function Prefill(r: Recipe): (f: FormData)
    ensures f.prepTime == [] <==> r.prepTime.None?
    ensures f.servings == [] <==> r.servings.None?
    ensures r.ingredients != [] ==> r.ingredients[0] <= f.ingredients
    ensures f.category == r.category && f.isFavorite == r.isFavorite
  {
    FormData(r.name, Join(r.ingredients, ", "), r.instructions, r.imageUrl,
             r.category, r.isFavorite, NumberText(r.prepTime), NumberText(r.servings))
  }

  /**
   The effect run when the edited recipe or the open flag changes: fill the
   form from the recipe, or clear it when opening for a new one.
   */
  function FormOnChange(recipe: Option<Recipe>, isOpen: bool, current: FormData): (f: FormData)
    ensures recipe.Some? ==> f == Prefill(recipe.value)
    ensures recipe.None? && isOpen ==>
      f.name == [] && f.ingredients == [] && f.instructions == [] && f.imageUrl == [] &&
      f.category == "Main Course" && "Main Course" in Categories && !f.isFavorite && f.prepTime == [] && f.servings == []
    ensures recipe.None? && !isOpen ==> f == current
  {
    if recipe.Some? then Prefill(recipe.value)
    else if isOpen then EmptyForm
    else current
  }

  /** `!s.trim()`. */
  predicate IsBlank(s: string) {
    Trim(s) == []
  }

  /** `Boolean(s)` on a string. */
  predicate NonEmpty(s: string) {
    s != []
  }

  /** A single ingredient as it leaves the form: non-empty, trimmed, comma-free. */
  predicate CleanItem(s: string) {
    s != [] && IsTrimmed(s) && ',' !in s
  }

  /** `pieces.map(i => i.trim()).filter(Boolean)`. */
  function CleanPieces(pieces: seq<string>): seq<string> {
    Filter(NonEmpty, Map(Trim, pieces))
  }

  lemma CleanPiecesAppend(a: seq<string>, b: seq<string>)
    ensures CleanPieces(a + b) == CleanPieces(a) + CleanPieces(b)
  {
    MapAppend(Trim, a, b);
    FilterAppend(NonEmpty, Map(Trim, a), Map(Trim, b));
  }

  lemma CleanPiecesOne(p: string)
    ensures CleanPieces([p]) == if Trim(p) == [] then [] else [Trim(p)]
  {
    assert Map(Trim, [p]) == [Trim(p)];
    assert [Trim(p)][1..] == [];
  }

  lemma CleanPiecesClean(pieces: seq<string>)
    requires forall i :: 0 <= i < |pieces| ==> ',' !in pieces[i]
    ensures forall i :: 0 <= i < |CleanPieces(pieces)| ==> CleanItem(CleanPieces(pieces)[i])
  {
    var trimmed := Map(Trim, pieces);
    forall x | x in trimmed ensures IsTrimmed(x) && ',' !in x {
      var k :| 0 <= k < |trimmed| && trimmed[k] == x;
      TrimAddsNoChar(pieces[k], ',');
    }
    var r := CleanPieces(pieces);
    assert forall i :: 0 <= i < |r| ==> r[i] in r;
  }

  /** `text.split(',').map(i => i.trim()).filter(Boolean)`. */
  function ParseIngredients(text: string): (r: seq<string>)
    ensures forall i :: 0 <= i < |r| ==> CleanItem(r[i])
  {
    CleanPiecesClean(Split(text));
    CleanPieces(Split(text))
  }

  /** `text ? parseInt(text) : undefined`: only the empty text is absent. */
  function OptionalNumber(text: string): (r: Option<Num>)
    ensures r.None? <==> text == []
  {
    if text == [] then None else Some(ParseInt(text))
  }

  /** The command `handleSubmit` dispatches. */
  datatype Command = Add(draft: Draft) | Update(recipe: Recipe)

  /** The recipe fields a command carries, its id aside. */
  function CommandDraft(c: Command): Draft {
    match c
    case Add(d) => d
    case Update(r) => DraftOf(r)
  }

  /**
   What a submitted recipe looks like: name and instructions trimmed and
   non-empty, image URL trimmed, every ingredient clean.
   */
  predicate CleanDraft(d: Draft) {
    d.name != [] && IsTrimmed(d.name) &&
    d.instructions != [] && IsTrimmed(d.instructions) &&
    IsTrimmed(d.imageUrl) &&
    forall i :: 0 <= i < |d.ingredients| ==> CleanItem(d.ingredients[i])
  }

  /** `recipeData`: the form's text turned into recipe fields. */
  function FormDraft(form: FormData): (d: Draft)
    ensures d.name == [] <==> AllWhitespace(form.name)
    ensures d.instructions == [] <==> AllWhitespace(form.instructions)
    ensures IsTrimmed(d.name) && IsTrimmed(d.instructions) && IsTrimmed(d.imageUrl)
    ensures forall i :: 0 <= i < |d.ingredients| ==> CleanItem(d.ingredients[i])
    ensures d.prepTime.None? <==> form.prepTime == []
    ensures d.servings.None? <==> form.servings == []
    ensures d.category == form.category && d.isFavorite == form.isFavorite
  {
    BlankIffAllWhitespace(form.name);
    BlankIffAllWhitespace(form.instructions);
    Draft(Trim(form.name), ParseIngredients(form.ingredients), Trim(form.instructions),
          Trim(form.imageUrl), form.category, form.isFavorite,
          OptionalNumber(form.prepTime), OptionalNumber(form.servings))
  }

  /**
   `handleSubmit`: `None` when a required field is blank (the alert path),
   otherwise the command to dispatch.
   */
  function Submit(form: FormData, editing: Option<Recipe>): (r: Option<Command>)
    ensures r.None? <==>
      AllWhitespace(form.name) || AllWhitespace(form.ingredients) || AllWhitespace(form.instructions)
    ensures r.Some? ==> (r.value.Update? <==> editing.Some?)
    ensures r.Some? && editing.Some? ==> r.value.recipe.id == editing.value.id
    ensures r.Some? ==> CleanDraft(CommandDraft(r.value))
    ensures r.Some? ==>
      CommandDraft(r.value).name == Trim(form.name) &&
      CommandDraft(r.value).instructions == Trim(form.instructions) &&
      CommandDraft(r.value).imageUrl == Trim(form.imageUrl)
    ensures r.Some? ==> CommandDraft(r.value).ingredients == ParseIngredients(form.ingredients)
    ensures r.Some? ==>
      CommandDraft(r.value).prepTime == OptionalNumber(form.prepTime) &&
      CommandDraft(r.value).servings == OptionalNumber(form.servings)
    ensures r.Some? ==>
      CommandDraft(r.value).category == form.category &&
      CommandDraft(r.value).isFavorite == form.isFavorite
    ensures r.Some? ==>
      (CommandDraft(r.value).prepTime.None? <==> form.prepTime == []) &&
      (CommandDraft(r.value).servings.None? <==> form.servings == [])
  {
    BlankIffAllWhitespace(form.name);
    BlankIffAllWhitespace(form.ingredients);
    BlankIffAllWhitespace(form.instructions);
    if IsBlank(form.name) || IsBlank(form.ingredients) || IsBlank(form.instructions) then None
    else
      var draft := FormDraft(form);
      if editing.Some? then Some(Update(WithId(draft, editing.value.id)))
      else Some(Add(draft))
  }

  /** With no blank required field, the command carries the form's fields. */
  lemma SubmitAccepted(form: FormData, editing: Option<Recipe>)
    requires !IsBlank(form.name) && !IsBlank(form.ingredients) && !IsBlank(form.instructions)
    ensures Submit(form, editing) ==
      if editing.Some? then Some(Update(WithId(FormDraft(form), editing.value.id)))
      else Some(Add(FormDraft(form)))
  {
  }

  /** Opening the form for a new recipe and submitting it at once is refused. */
  lemma SubmitEmptyFormRejected(current: FormData)
    ensures Submit(FormOnChange(None, true, current), None) == None
  {
  }

  /** Parsing text around a comma parses each side on its own. */
  lemma ParseIngredientsAppend(a: string, b: string)
    ensures ParseIngredients(a + "," + b) == ParseIngredients(a) + ParseIngredients(b)
  {
    SplitAppend(a, b);
    CleanPiecesAppend(Split(a), Split(b));
  }

  lemma WhitespaceHasNoComma(pad: string)
    requires AllWhitespace(pad)
    ensures ',' !in pad
  {
    assert forall i :: 0 <= i < |pad| ==> IsWhitespace(pad[i]);
  }

  /** Text that is all whitespace lists no ingredient. */
  lemma ParseBlank(pad: string)
    requires AllWhitespace(pad)
    ensures ParseIngredients(pad) == []
  {
    WhitespaceHasNoComma(pad);
    SplitCommaFree(pad);
    CleanPiecesOne(pad);
    BlankIffAllWhitespace(pad);
  }

  /** A clean item, padded in front with whitespace, parses to itself. */
  lemma ParseOneItem(pad: string, x: string)
    requires AllWhitespace(pad) && CleanItem(x)
    ensures ParseIngredients(pad + x) == [x]
  {
    WhitespaceHasNoComma(pad);
    assert ',' !in pad + x;
    SplitCommaFree(pad + x);
    CleanPiecesOne(pad + x);
    TrimPadded(pad, x, []);
    assert pad + x + [] == pad + x;
  }

  /**
   The text the form shows for a list of clean ingredients, after any
   leading whitespace, parses back to that list.
   */
  lemma {:induction false} ParseIngredientsJoin(pad: string, xs: seq<string>)
    requires AllWhitespace(pad)
    requires forall i :: 0 <= i < |xs| ==> CleanItem(xs[i])
    ensures ParseIngredients(pad + Join(xs, ", ")) == xs
    decreases xs
  {
    if xs == [] {
      assert pad + Join(xs, ", ") == pad;
      ParseBlank(pad);
    } else if |xs| == 1 {
      assert Join(xs, ", ") == xs[0];
      ParseOneItem(pad, xs[0]);
    } else {
      ParseIngredientsJoin(" ", xs[1..]);
      ParseJoinStep(pad, xs);
    }
  }

  lemma ParseJoinStep(pad: string, xs: seq<string>)
    requires AllWhitespace(pad) && |xs| >= 2 && CleanItem(xs[0])
    requires ParseIngredients(" " + Join(xs[1..], ", ")) == xs[1..]
    ensures ParseIngredients(pad + Join(xs, ", ")) == xs
  {
    var left, right := pad + xs[0], " " + Join(xs[1..], ", ");
    JoinCommaSpace(xs);
    CommaRegroup(pad, xs[0], right);
    ParseIngredientsAppend(left, right);
    ParseOneItem(pad, xs[0]);
    assert xs == [xs[0]] + xs[1..];
  }

  /** Clean ingredients shown joined with ", " parse back to themselves. */
  lemma ParseJoined(xs: seq<string>)
    requires forall i :: 0 <= i < |xs| ==> CleanItem(xs[i])
    ensures ParseIngredients(Join(xs, ", ")) == xs
  {
    ParseIngredientsJoin([], xs);
    assert [] + Join(xs, ", ") == Join(xs, ", ");
  }

  /** A recipe the form can reproduce exactly. */
  predicate Submittable(r: Recipe) {
    CleanDraft(DraftOf(r)) && |r.ingredients| >= 1
  }

  lemma TrimmedUnchanged(s: string)
    requires IsTrimmed(s)
    ensures Trim(s) == s
  {
    TrimPadded([], s, []);
    assert [] + s + [] == s;
  }

  /** A number's form text reads back as the number; no text reads back as no number. */
  lemma NumberTextRoundTrip(x: Option<Num>)
    ensures OptionalNumber(NumberText(x)) == x
  {
    if x.Some? {
      ParseIntToString(x.value);
    }
  }

  /** The form text of a submittable recipe reads back as that recipe's fields. */
  lemma PrefillDraft(r: Recipe)
    requires Submittable(r)
    ensures FormDraft(Prefill(r)) == DraftOf(r)
  {
    var d := FormDraft(Prefill(r));
    PrefillTrimmedFields(r);
    assert d.ingredients == r.ingredients by { ParseJoined(r.ingredients); }
    assert d.prepTime == r.prepTime by { NumberTextRoundTrip(r.prepTime); }
    assert d.servings == r.servings by { NumberTextRoundTrip(r.servings); }
  }

  /** The text fields of a submittable recipe are already trimmed. */
  lemma PrefillTrimmedFields(r: Recipe)
    requires CleanDraft(DraftOf(r))
    ensures Trim(r.name) == r.name && Trim(r.instructions) == r.instructions
    ensures Trim(r.imageUrl) == r.imageUrl
  {
    TrimmedUnchanged(r.name);
    TrimmedUnchanged(r.instructions);
    TrimmedUnchanged(r.imageUrl);
  }

  /** The form filled from a submittable recipe has no blank required field. */
  lemma PrefillNotBlank(r: Recipe)
    requires Submittable(r)
    ensures !IsBlank(Prefill(r).name) && !IsBlank(Prefill(r).ingredients)
    ensures !IsBlank(Prefill(r).instructions)
  {
    var text := Prefill(r).ingredients;
    assert text[0] == r.ingredients[0][0];
    BlankIffAllWhitespace(text);
    TrimmedUnchanged(r.name);
    TrimmedUnchanged(r.instructions);
  }

  /**
   Editing a submittable recipe and saving it without changes dispatches
   an update carrying exactly that recipe.
   */
  lemma SubmitPrefilled(r: Recipe)
    requires Submittable(r)
    ensures Submit(Prefill(r), Some(r)) == Some(Update(r))
  {
    var form := Prefill(r);
    PrefillNotBlank(r);
    SubmitAccepted(form, Some(r));
    PrefillDraft(r);
    DraftOfWithId(r);
  }

  /** Every character is a comma or whitespace. */
  predicate SeparatorsOnly(text: string) {
    forall i :: 0 <= i < |text| ==> text[i] == ',' || IsWhitespace(text[i])
  }

  lemma SeparatorsOnlyParts(text: string, k: nat)
    requires SeparatorsOnly(text) && k < |text|
    ensures SeparatorsOnly(text[..k]) && SeparatorsOnly(text[k + 1..])
  {
    var a, b := text[..k], text[k + 1..];
    assert forall i :: 0 <= i < |a| ==> a[i] == text[i];
    assert forall i :: 0 <= i < |b| ==> b[i] == text[k + 1 + i];
  }

  /** Text made only of commas and whitespace lists no ingredient. */
  lemma {:induction false} ParseSeparatorsOnly(text: string)
    requires SeparatorsOnly(text)
    ensures ParseIngredients(text) == []
    decreases |text|
  {
    if ',' !in text {
      assert AllWhitespace(text);
      ParseBlank(text);
    } else {
      var k :| 0 <= k < |text| && text[k] == ',';
      var a, b := text[..k], text[k + 1..];
      SeparatorsOnlyParts(text, k);
      ParseSeparatorsOnly(a);
      ParseSeparatorsOnly(b);
      CommaSplitsAt(text, k);
      ParseIngredientsAppend(a, b);
    }
  }

  /**
   Ingredient text made only of commas and whitespace, with at least one
   comma, passes the required-field check and yields a recipe without
   ingredients.
   */
  lemma CommasOnlyGiveNoIngredients(form: FormData, editing: Option<Recipe>)
    requires !AllWhitespace(form.name) && !AllWhitespace(form.instructions)
    requires ',' in form.ingredients && SeparatorsOnly(form.ingredients)
    ensures Submit(form, editing).Some?
    ensures CommandDraft(Submit(form, editing).value).ingredients == []
  {
    ParseSeparatorsOnly(form.ingredients);
  }
}
