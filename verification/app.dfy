/**
 The two computations of the application shell: the sort applied to the
 filtered recipes before display (by name, by category, or favorites
 first), and the shopping list, to which a recipe's ingredients are added
 as a duplicate-free, first-occurrence-ordered union.
 */
module App {
  import opened Types
  import opened Seqs
  import opened Sorting

  /** The `sortBy` choice of the toolbar. */
  datatype SortKey = SortByName | SortByCategory | SortByFavorite

  /**
   `a.localeCompare(b)`, taken as the lexicographic order on code points: negative
   when `a` comes first, zero when the strings are equal, positive otherwise.
   */
  function LocaleCompare(a: string, b: string): (r: int)
    ensures -1 <= r <= 1
    ensures r == 0 <==> a == b
  {
    if a == [] && b == [] then 0
    else if a == [] then -1
    else if b == [] then 1
    else if a[0] < b[0] then -1
    else if a[0] > b[0] then 1
    else
      assert a == [a[0]] + a[1..] && b == [b[0]] + b[1..];
      LocaleCompare(a[1..], b[1..])
  }

  lemma {:induction false} LocaleCompareAntisymmetric(a: string, b: string)
    ensures LocaleCompare(b, a) == -LocaleCompare(a, b)
  {
    if a != [] && b != [] && a[0] == b[0] {
      LocaleCompareAntisymmetric(a[1..], b[1..]);
    }
  }

  lemma {:induction false} LocaleCompareTransitive(a: string, b: string, c: string)
    requires LocaleCompare(a, b) <= 0 && LocaleCompare(b, c) <= 0
    ensures LocaleCompare(a, c) <= 0
  {
    if a != [] && b != [] && c != [] && a[0] == b[0] && b[0] == c[0] {
      LocaleCompareTransitive(a[1..], b[1..], c[1..]);
    }
  }

  /**
   The comparator handed to `sort`: names or categories tie exactly when
   equal, and a favorite comes before a non-favorite and ties with another
   favorite.
   */
  function Compare(key: SortKey, a: Recipe, b: Recipe): (r: int)
    ensures key.SortByName? ==> (r == 0 <==> a.name == b.name)
    ensures key.SortByCategory? ==> (r == 0 <==> a.category == b.category)
    ensures key.SortByFavorite? ==> (r < 0 <==> a.isFavorite && !b.isFavorite)
    ensures key.SortByFavorite? ==> (r > 0 <==> !a.isFavorite && b.isFavorite)
  {
    match key
    case SortByName => LocaleCompare(a.name, b.name)
    case SortByCategory => LocaleCompare(a.category, b.category)
    case SortByFavorite => (if b.isFavorite then 1 else 0) - (if a.isFavorite then 1 else 0)
  }

  function Comparator(key: SortKey): (Recipe, Recipe) -> int {
    (a: Recipe, b: Recipe) => Compare(key, a, b)
  }

  /** Each of the three comparators is a total preorder. */
  lemma ComparatorConsistent(key: SortKey)
    ensures Consistent(Comparator(key))
  {
    var cmp := Comparator(key);
    forall a: Recipe, b: Recipe
      ensures cmp(a, b) < 0 <==> cmp(b, a) > 0
    {
      if key.SortByName? {
        LocaleCompareAntisymmetric(a.name, b.name);
      } else if key.SortByCategory? {
        LocaleCompareAntisymmetric(a.category, b.category);
      }
    }
    forall a: Recipe, b: Recipe, c: Recipe | cmp(a, b) <= 0 && cmp(b, c) <= 0
      ensures cmp(a, c) <= 0
    {
      if key.SortByName? {
        LocaleCompareTransitive(a.name, b.name, c.name);
      } else if key.SortByCategory? {
        LocaleCompareTransitive(a.category, b.category, c.category);
      }
    }
  }

  /** `sortedRecipes`: a sorted copy of the filtered recipes. */
  function SortRecipes(rs: seq<Recipe>, key: SortKey): (r: seq<Recipe>)
    ensures |r| == |rs| && multiset(r) == multiset(rs)
  {
    Sort(Comparator(key), rs)
  }

  /** The sorted copy holds the same recipes, each as often, in comparator order. */
  lemma SortRecipesOrdered(rs: seq<Recipe>, key: SortKey)
    ensures multiset(SortRecipes(rs, key)) == multiset(rs)
    ensures var r := SortRecipes(rs, key);
      forall i :: 0 <= i < |r| - 1 ==> Compare(key, r[i], r[i + 1]) <= 0
  {
    ComparatorConsistent(key);
    SortSorted(Comparator(key), rs);
  }

  /** The recipes the comparator ranks equal to `c`. */
  function SameRankAs(key: SortKey, c: Recipe): Recipe -> bool {
    (r: Recipe) => Compare(key, c, r) == 0
  }

  /** Recipes of equal rank keep their order from the filtered list. */
  lemma SortRecipesStable(rs: seq<Recipe>, key: SortKey, c: Recipe)
    ensures Filter(SameRankAs(key, c), SortRecipes(rs, key)) == Filter(SameRankAs(key, c), rs)
  {
    var cmp := Comparator(key);
    ComparatorConsistent(key);
    forall a, b | a in rs && b in rs && SameRankAs(key, c)(a) && SameRankAs(key, c)(b)
      ensures cmp(a, b) == 0
    {
      assert cmp(a, c) == 0 && cmp(c, b) == 0;
      assert cmp(a, b) <= 0 && cmp(b, a) <= 0;
    }
    SortStable(cmp, SameRankAs(key, c), rs);
  }

  predicate IsFavorite(r: Recipe) { r.isFavorite }

  predicate IsNotFavorite(r: Recipe) { !r.isFavorite }

  /** How many favorites the list starts with. */
  function LeadingFavorites(s: seq<Recipe>): (k: nat)
    ensures k <= |s|
    ensures forall i :: 0 <= i < k ==> s[i].isFavorite
    ensures k < |s| ==> !s[k].isFavorite
  {
    if s == [] || !s[0].isFavorite then 0
    else
      var k := LeadingFavorites(s[1..]);
      assert forall i :: 1 <= i < k + 1 ==> s[i] == s[1..][i - 1];
      k + 1
  }

  /** No favorite directly follows a non-favorite. */
  predicate FavoritesAhead(s: seq<Recipe>) {
    forall i :: 0 <= i < |s| - 1 ==> s[i + 1].isFavorite ==> s[i].isFavorite
  }

  /** The favorite order is exactly that. */
  lemma FavoriteOrderAhead(s: seq<Recipe>)
    requires SortedBy(Comparator(SortByFavorite), s)
    ensures FavoritesAhead(s)
  {
    forall i | 0 <= i < |s| - 1
      ensures s[i + 1].isFavorite ==> s[i].isFavorite
    {
      assert Comparator(SortByFavorite)(s[i], s[i + 1]) <= 0;
    }
  }

  /** Nothing after a non-favorite is a favorite. */
  lemma {:induction false} NonFavoritesTrail(s: seq<Recipe>, k: nat)
    requires FavoritesAhead(s)
    requires k < |s| && !s[k].isFavorite
    ensures forall j :: k <= j < |s| ==> !s[j].isFavorite
    decreases |s| - k
  {
    if k + 1 < |s| {
      NonFavoritesTrail(s, k + 1);
    }
  }

  /** A list with the favorites ahead is its favorites followed by the rest. */
  lemma FavoriteOrderSplits(s: seq<Recipe>)
    requires FavoritesAhead(s)
    ensures s == Filter(IsFavorite, s) + Filter(IsNotFavorite, s)
  {
    var k := LeadingFavorites(s);
    var favs, others := s[..k], s[k..];
    if k < |s| {
      NonFavoritesTrail(s, k);
    }
    assert forall i :: 0 <= i < |favs| ==> favs[i] == s[i];
    assert forall i :: 0 <= i < |others| ==> others[i] == s[k + i];
    assert s == favs + others;
    FilterKeepsPrefix(IsFavorite, favs, others);
    FilterKeepsSuffix(IsNotFavorite, favs, others);
  }

  /** Sorting by favorite is a stable partition: favorites first, each group in input order. */
  lemma FavoriteSortPartitions(rs: seq<Recipe>)
    ensures SortRecipes(rs, SortByFavorite) == Filter(IsFavorite, rs) + Filter(IsNotFavorite, rs)
  {
    var cmp := Comparator(SortByFavorite);
    var r := SortRecipes(rs, SortByFavorite);
    ComparatorConsistent(SortByFavorite);
    SortSorted(cmp, rs);
    FavoriteOrderAhead(r);
    FavoriteOrderSplits(r);
    SortStable(cmp, IsFavorite, rs);
    SortStable(cmp, IsNotFavorite, rs);
  }

  /** Every favorite precedes every non-favorite. */
  lemma FavoritesFirst(rs: seq<Recipe>)
    ensures var r := SortRecipes(rs, SortByFavorite);
      forall i, j :: 0 <= i < j < |r| && r[j].isFavorite ==> r[i].isFavorite
  {
    var r := SortRecipes(rs, SortByFavorite);
    var favs, others := Filter(IsFavorite, rs), Filter(IsNotFavorite, rs);
    FavoriteSortPartitions(rs);
    forall k | |favs| <= k < |r|
      ensures !r[k].isFavorite
    {
      assert r[k] == others[k - |favs|];
      assert r[k] in others;
    }
    forall k | 0 <= k < |favs|
      ensures r[k].isFavorite
    {
      assert r[k] == favs[k];
      assert r[k] in favs;
    }
  }

  /** `[A, B*, C, D*]` (starred: favorites) sorted by favorite is `[B, D, A, C]`. */
  lemma FavoriteSortExample(a: Recipe, b: Recipe, c: Recipe, d: Recipe)
    requires !a.isFavorite && b.isFavorite && !c.isFavorite && d.isFavorite
    ensures SortRecipes([a, b, c, d], SortByFavorite) == [b, d, a, c]
  {
    FavoriteSortPartitions([a, b, c, d]);
    ExampleGroups(a, b, c, d);
  }

  lemma ExampleGroups(a: Recipe, b: Recipe, c: Recipe, d: Recipe)
    requires !a.isFavorite && b.isFavorite && !c.isFavorite && d.isFavorite
    ensures Filter(IsFavorite, [a, b, c, d]) == [b, d]
    ensures Filter(IsNotFavorite, [a, b, c, d]) == [a, c]
  {
    var s := [a, b, c, d];
    assert s[1..] == [b, c, d] && [b, c, d][1..] == [c, d] && [c, d][1..] == [d];
    assert Filter(IsFavorite, [d]) == [d];
    assert Filter(IsFavorite, [c, d]) == [d];
    assert Filter(IsFavorite, [b, c, d]) == [b, d];
    assert Filter(IsNotFavorite, [d]) == [];
    assert Filter(IsNotFavorite, [c, d]) == [c];
    assert Filter(IsNotFavorite, [b, c, d]) == [c];
  }

  /**
   `Array.from(new Set([...prev, ...ingredients]))`: each item once, in the
   order it first appears in the old list followed by the added ingredients.
   */
  function AddIngredients(prev: seq<string>, ingredients: seq<string>): (r: seq<string>)
    ensures NoDuplicates(r)
    ensures forall x :: x in r <==> x in prev || x in ingredients
    ensures forall i, j :: 0 <= i < j < |r| ==>
      FirstIndex(prev + ingredients, r[i]) < FirstIndex(prev + ingredients, r[j])
  {
    DedupFirstOccurrence(prev + ingredients);
    Dedup(prev + ingredients)
  }

  /** A duplicate-free list keeps its order and stays in front. */
  lemma AddIngredientsExtends(prev: seq<string>, ingredients: seq<string>)
    requires NoDuplicates(prev)
    ensures prev <= AddIngredients(prev, ingredients)
  {
    DedupOfDistinct(prev);
    DedupPrefix(prev, ingredients);
  }

  /** Adding the same ingredients again changes nothing. */
  lemma AddIngredientsIdempotent(prev: seq<string>, ingredients: seq<string>)
    ensures AddIngredients(AddIngredients(prev, ingredients), ingredients) == AddIngredients(prev, ingredients)
  {
    var once := AddIngredients(prev, ingredients);
    DedupAbsorbs(once, ingredients);
    DedupOfDistinct(once);
  }

  /**
   Adding `[egg, flour]` to an empty list, then `[egg, milk]`, lists egg
   once: `[egg, flour, milk]`.
   */
  lemma ShoppingListExample(egg: string, flour: string, milk: string)
    requires egg != flour && egg != milk && flour != milk
    ensures AddIngredients(AddIngredients([], [egg, flour]), [egg, milk]) == [egg, flour, milk]
  {
    var first := [egg, flour];
    assert AddIngredients([], first) == first by {
      assert [] + first == first;
      DedupOfDistinct(first);
    }
    var both := first + [egg, milk];
    assert Dedup(both[..|both| - 1]) == first by {
      assert both[..|both| - 1] == first + [egg];
      DedupAbsorbs(first, [egg]);
      DedupOfDistinct(first);
    }
    assert both[|both| - 1] == milk && milk !in first;
  }

  /** The shopping-list part of the application's state. */
  class ShoppingList {
    var items: seq<string>
    var visible: bool

    constructor ()
      ensures items == [] && !visible
    {
      items := [];
      visible := false;
    }

    /** `handleAddToShoppingList(ingredients)`: merge the ingredients in and show the list. */
    method HandleAddToShoppingList(ingredients: seq<string>)
      modifies this
      ensures items == AddIngredients(old(items), ingredients)
      ensures visible
      ensures old(NoDuplicates(items)) ==> old(items) <= items
    {
      if NoDuplicates(items) {
        AddIngredientsExtends(items, ingredients);
      }
      items := AddIngredients(items, ingredients);
      visible := true;
    }
  }
}
