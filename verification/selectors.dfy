/**
 `selectFilteredRecipes`: the view of the store that the recipe grid shows.
 Step one keeps the recipes whose category is exactly the filter, unless
 the filter is `'all'`; step two keeps, unless the search term is empty,
 the recipes whose lower-cased name or some lower-cased ingredient contains
 the lower-cased term.
 */
module Selectors {
  import opened Types
  import opened Seqs
  import opened Text

  /** `name` or some ingredient, lower-cased, contains `lowerTerm`. */
  predicate MatchesSearch(r: Recipe, lowerTerm: string) {
    Contains(ToLower(r.name), lowerTerm) ||
    exists i :: 0 <= i < |r.ingredients| && Contains(ToLower(r.ingredients[i]), lowerTerm)
  }

  /** Step one: the category filter, skipped for `'all'`. */
  function ByCategory(rs: seq<Recipe>, filter: string): (r: seq<Recipe>)
    ensures filter == FilterAll ==> r == rs
    ensures forall x ::
      multiset(r)[x] == (if filter == FilterAll || x.category == filter then multiset(rs)[x] else 0)
  {
    if filter == FilterAll then rs
    else
      FilterCounts((x: Recipe) => x.category == filter, rs);
      Filter((x: Recipe) => x.category == filter, rs)
  }

  /** Step two: the search, skipped for an empty term. */
  function BySearch(rs: seq<Recipe>, term: string): (r: seq<Recipe>)
    ensures term == [] ==> r == rs
    ensures forall x ::
      multiset(r)[x] == (if term == [] || MatchesSearch(x, ToLower(term)) then multiset(rs)[x] else 0)
  {
    if term == [] then rs
    else
      var lowerTerm := ToLower(term);
      FilterCounts((x: Recipe) => MatchesSearch(x, lowerTerm), rs);
      Filter((x: Recipe) => MatchesSearch(x, lowerTerm), rs)
  }

  /**
   `selectFilteredRecipes(state)`: every recipe both steps accept, as many
   times as the store holds it, and no other.
   */
  function SelectFilteredRecipes(rs: seq<Recipe>, filter: string, term: string): (r: seq<Recipe>)
    ensures forall x :: multiset(r)[x] == if Selected(x, filter, term) then multiset(rs)[x] else 0
  {
    BySearch(ByCategory(rs, filter), term)
  }

  /** What the selector asks of one recipe. */
  predicate Selected(r: Recipe, filter: string, term: string) {
    (filter == FilterAll || r.category == filter) &&
    (term == [] || MatchesSearch(r, ToLower(term)))
  }

  /** Filter `'all'` and no search term give the whole list back. */
  lemma SelectEverything(rs: seq<Recipe>)
    ensures SelectFilteredRecipes(rs, FilterAll, "") == rs
  {
  }

  /** Soundness and completeness: a recipe is shown exactly when it passes both steps. */
  lemma SelectMembership(rs: seq<Recipe>, filter: string, term: string)
    ensures forall x :: x in SelectFilteredRecipes(rs, filter, term) <==> x in rs && Selected(x, filter, term)
  {
  }

  /** The view keeps the store's order: it is a subsequence of the list. */
  lemma SelectIsSubsequence(rs: seq<Recipe>, filter: string, term: string)
    ensures IsSubsequence(SelectFilteredRecipes(rs, filter, term), rs)
  {
    var step1 := ByCategory(rs, filter);
    if filter == FilterAll {
      SubsequenceReflexive(rs);
    } else {
      FilterIsSubsequence((x: Recipe) => x.category == filter, rs);
    }
    if term == [] {
      SubsequenceReflexive(step1);
    } else {
      var lowerTerm := ToLower(term);
      FilterIsSubsequence((x: Recipe) => MatchesSearch(x, lowerTerm), step1);
    }
    SubsequenceTransitive(SelectFilteredRecipes(rs, filter, term), step1, rs);
  }

  /** The search ignores the case of the term. */
  lemma SelectIgnoresTermCase(rs: seq<Recipe>, filter: string, term: string)
    ensures SelectFilteredRecipes(rs, filter, ToLower(term)) == SelectFilteredRecipes(rs, filter, term)
  {
    ToLowerIdempotent(term);
    var step1 := ByCategory(rs, filter);
    if term != [] {
      var lower := ToLower(term);
      FilterAgree((x: Recipe) => MatchesSearch(x, ToLower(lower)), (x: Recipe) => MatchesSearch(x, lower), step1);
    }
  }

  /** Searching first and filtering by category second gives the same view. */
  lemma SelectStepsCommute(rs: seq<Recipe>, filter: string, term: string)
    ensures ByCategory(BySearch(rs, term), filter) == SelectFilteredRecipes(rs, filter, term)
  {
    if filter != FilterAll && term != [] {
      var lowerTerm := ToLower(term);
      FilterCommute((x: Recipe) => x.category == filter, (x: Recipe) => MatchesSearch(x, lowerTerm), rs);
    }
  }

  /**
   A filter that is neither `'all'` nor the category of any stored recipe
   shows nothing, whatever the search term.
   */
  lemma SelectUnknownFilterIsEmpty(rs: seq<Recipe>, filter: string, term: string)
    requires filter != FilterAll && filter !in Categories
    requires forall x :: x in rs ==> x.category in Categories
    ensures SelectFilteredRecipes(rs, filter, term) == []
  {
    SelectMembership(rs, filter, term);
  }

  /** A term whose first letter, in either case, is missing from `s` is not found in it. */
  lemma AbsentLetterNotFound(s: string, term: string)
    requires term != []
    requires forall i :: 0 <= i < |s| ==> LowerChar(s[i]) != LowerChar(term[0])
    ensures !Contains(ToLower(s), ToLower(term))
  {
    var ls, lt := ToLower(s), ToLower(term);
    assert lt[0] in lt;
    assert lt[0] !in ls;
    if Contains(ls, lt) {
      ContainsKeepsChars(ls, lt);
    }
  }

  /** A recipe "Pancakes" made of flour and milk is found by "milk". */
  lemma SearchExampleHit(r: Recipe)
    requires r.name == "Pancakes" && r.ingredients == ["flour", "milk"]
    ensures SelectFilteredRecipes([r], FilterAll, "milk") == [r]
  {
    assert ToLower("milk") == "milk";
    assert Contains(ToLower(r.ingredients[1]), "milk");
  }

  /**
   A recipe in whose name and ingredients the first letter of the term
   does not occur, in either case, is not shown.
   */
  lemma AbsentLetterHides(rs: seq<Recipe>, filter: string, term: string, r: Recipe)
    requires term != []
    requires forall i :: 0 <= i < |r.name| ==> LowerChar(r.name[i]) != LowerChar(term[0])
    requires forall k, i :: 0 <= k < |r.ingredients| && 0 <= i < |r.ingredients[k]| ==>
      LowerChar(r.ingredients[k][i]) != LowerChar(term[0])
    ensures r !in SelectFilteredRecipes(rs, filter, term)
  {
    AbsentLetterNotFound(r.name, term);
    forall k | 0 <= k < |r.ingredients|
      ensures !Contains(ToLower(r.ingredients[k]), ToLower(term))
    {
      AbsentLetterNotFound(r.ingredients[k], term);
    }
    SelectMembership(rs, filter, term);
  }
}
