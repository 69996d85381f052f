/**
 The recipe store: the list of recipes, the category filter and the search
 term, and the six reducers that change them. Every reducer that changes
 the list also writes it to local storage; the ghost field `persisted`
 stands for that snapshot: the list as it was last written (the JSON
 encoding's change of a NaN number into `null` is not modelled).

 The functions below say what each reducer does to the list; the class
 methods perform the update in place and are proved to agree with them.
 */
module RecipeSlice {
  import opened Types
  import opened Seqs

  /** Some recipe of `rs` carries `id`. */
  predicate HasId(rs: seq<Recipe>, id: string) {
    exists i :: 0 <= i < |rs| && rs[i].id == id
  }

  /** No two recipes of `rs` share an id. */
  predicate UniqueIds(rs: seq<Recipe>) {
    forall i, j :: 0 <= i < j < |rs| ==> rs[i].id != rs[j].id
  }

  /** `rs.findIndex(r => r.id === id)`, with `None` for -1; `find` is the same search. */
  function FindIndex(rs: seq<Recipe>, id: string): (r: Option<nat>)
    ensures r.Some? ==> r.value < |rs| && rs[r.value].id == id
    ensures r.Some? ==> forall j :: 0 <= j < r.value ==> rs[j].id != id
    ensures r.None? <==> !HasId(rs, id)
  {
    if rs == [] then None
    else if rs[0].id == id then Some(0)
    else
      match FindIndex(rs[1..], id)
      case None =>
        assert forall j :: 1 <= j < |rs| ==> rs[j].id == rs[1..][j - 1].id;
        None
      case Some(k) => Some(k + 1)
  }

  /** Two lists whose ids agree position by position find the same index. */
  lemma SameIdsSameIndex(a: seq<Recipe>, b: seq<Recipe>, id: string)
    requires |a| == |b|
    requires forall j :: 0 <= j < |a| ==> a[j].id == b[j].id
    ensures FindIndex(a, id) == FindIndex(b, id)
  {
  }

  /** The list after `updateRecipe(payload)`. */
  function Updated(rs: seq<Recipe>, payload: Recipe): (r: seq<Recipe>)
    ensures |r| == |rs|
    ensures forall j :: 0 <= j < |rs| ==> r[j].id == rs[j].id
    ensures forall j :: 0 <= j < |rs| ==> r[j] == rs[j] || r[j] == payload
  {
    match FindIndex(rs, payload.id)
    case None => rs
    case Some(i) => rs[i := payload]
  }

  /** With a present id, the first recipe carrying it is replaced and nothing else. */
  lemma UpdatedPresent(rs: seq<Recipe>, payload: Recipe, i: nat)
    requires i < |rs| && rs[i].id == payload.id
    requires forall j :: 0 <= j < i ==> rs[j].id != payload.id
    ensures Updated(rs, payload) == rs[i := payload]
  {
  }

  /** With an absent id, updating changes nothing. */
  lemma UpdatedAbsent(rs: seq<Recipe>, payload: Recipe)
    requires !HasId(rs, payload.id)
    ensures Updated(rs, payload) == rs
  {
  }

  /** Updating keeps ids, hence keeps them distinct. */
  lemma UpdatedKeepsUniqueIds(rs: seq<Recipe>, payload: Recipe)
    requires UniqueIds(rs)
    ensures UniqueIds(Updated(rs, payload))
  {
    var r := Updated(rs, payload);
    forall i, j | 0 <= i < j < |r| ensures r[i].id != r[j].id {
      assert r[i].id == rs[i].id && r[j].id == rs[j].id;
    }
  }

  /** `rs` with `isFavorite` flipped on the recipe at `i`. */
  function FlipAt(rs: seq<Recipe>, i: nat): seq<Recipe>
    requires i < |rs|
  {
    rs[i := rs[i].(isFavorite := !rs[i].isFavorite)]
  }

  /** The list after `toggleFavorite(id)`. */
  function Toggled(rs: seq<Recipe>, id: string): (r: seq<Recipe>)
    ensures |r| == |rs|
    ensures forall j :: 0 <= j < |rs| ==> r[j].id == rs[j].id
    ensures forall j :: 0 <= j < |rs| ==>
      r[j] == rs[j] || (rs[j].id == id && r[j] == rs[j].(isFavorite := !rs[j].isFavorite))
    ensures HasId(rs, id) <==> r != rs
  {
    match FindIndex(rs, id)
    case None => rs
    case Some(i) =>
      assert FlipAt(rs, i)[i] != rs[i];
      FlipAt(rs, i)
  }

  /** Toggling twice restores the list. */
  lemma ToggledTwice(rs: seq<Recipe>, id: string)
    ensures Toggled(Toggled(rs, id), id) == rs
  {
    var once := Toggled(rs, id);
    SameIdsSameIndex(once, rs, id);
    match FindIndex(rs, id)
    case None =>
    case Some(i) =>
      assert once == FlipAt(rs, i);
      assert FlipAt(once, i) == rs;
  }

  /** Toggling only flips the first recipe carrying `id`. */
  lemma ToggledPresent(rs: seq<Recipe>, id: string, i: nat)
    requires i < |rs| && rs[i].id == id
    requires forall j :: 0 <= j < i ==> rs[j].id != id
    ensures Toggled(rs, id) == FlipAt(rs, i)
  {
  }

  /** The list after `deleteRecipe(id)`: every recipe carrying `id` is dropped. */
  function WithoutId(rs: seq<Recipe>, id: string): (r: seq<Recipe>)
    ensures |r| <= |rs|
    ensures forall x :: x in r <==> x in rs && x.id != id
    ensures forall x :: multiset(r)[x] == if x.id != id then multiset(rs)[x] else 0
  {
    FilterCounts((x: Recipe) => x.id != id, rs);
    Filter((x: Recipe) => x.id != id, rs)
  }

  /** Deleting keeps the remaining recipes in their original order. */
  lemma WithoutIdIsSubsequence(rs: seq<Recipe>, id: string)
    ensures IsSubsequence(WithoutId(rs, id), rs)
  {
    FilterIsSubsequence((x: Recipe) => x.id != id, rs);
  }

  /** Deleting twice is deleting once. */
  lemma WithoutIdIdempotent(rs: seq<Recipe>, id: string)
    ensures WithoutId(WithoutId(rs, id), id) == WithoutId(rs, id)
  {
    FilterIdempotent((x: Recipe) => x.id != id, rs);
  }

  /** Deleting an absent id changes nothing. */
  lemma WithoutIdAbsent(rs: seq<Recipe>, id: string)
    requires !HasId(rs, id)
    ensures WithoutId(rs, id) == rs
  {
    forall x | x in rs ensures x.id != id {
      var k :| 0 <= k < |rs| && rs[k] == x;
    }
    FilterKeepsAll((x: Recipe) => x.id != id, rs);
  }

  /** Deleting keeps ids distinct. */
  lemma {:induction false} WithoutIdKeepsUniqueIds(rs: seq<Recipe>, id: string)
    requires UniqueIds(rs)
    ensures UniqueIds(WithoutId(rs, id))
  {
    if rs != [] {
      var rest := WithoutId(rs[1..], id);
      WithoutIdKeepsUniqueIds(rs[1..], id);
      if rs[0].id != id {
        assert WithoutId(rs, id) == [rs[0]] + rest;
        forall x | x in rest ensures x.id != rs[0].id {
          var k :| 0 <= k < |rs[1..]| && rs[1..][k] == x;
          assert rs[k + 1] == x;
        }
      }
    }
  }

  /** A fresh id keeps the ids distinct after `addRecipe`. */
  lemma AddedKeepsUniqueIds(rs: seq<Recipe>, draft: Draft, id: string)
    requires UniqueIds(rs) && !HasId(rs, id)
    ensures UniqueIds(rs + [WithId(draft, id)])
  {
    var r := rs + [WithId(draft, id)];
    forall i, j | 0 <= i < j < |r| ensures r[i].id != r[j].id {
      if j == |rs| {
        assert r[i] == rs[i];
      }
    }
  }

  /**
   The id is a timestamp, which two quick adds can share: nothing in
   `addRecipe` then keeps the ids distinct.
   */
  lemma RepeatedIdBreaksUniqueness(rs: seq<Recipe>, first: Draft, second: Draft, id: string)
    ensures !UniqueIds(rs + [WithId(first, id)] + [WithId(second, id)])
  {
    var r := rs + [WithId(first, id)] + [WithId(second, id)];
    assert r[|rs|].id == r[|rs| + 1].id;
  }

  class RecipeStore {
    var recipes: seq<Recipe>
    var filter: string
    var searchTerm: string
    /** The list as last written to local storage. */
    ghost var persisted: seq<Recipe>

    /** Every change to the list has been written to storage. */
    ghost predicate Synced()
      reads this
    {
      persisted == recipes
    }

    /**
     `initialState`: the list loaded from storage (`saved` is `None` when the
     key is missing or its text does not parse), filter `'all'`, no search.
     */
    constructor (saved: Option<seq<Recipe>>)
      ensures recipes == (if saved.Some? then saved.value else [])
      ensures filter == FilterAll && searchTerm == ""
      ensures Synced()
    {
      recipes := if saved.Some? then saved.value else [];
      filter := FilterAll;
      searchTerm := "";
      persisted := recipes;
    }

    /** `addRecipe(draft)`, with `id` standing for `Date.now().toString()`. */
    method AddRecipe(draft: Draft, id: string)
      modifies this
      ensures recipes == old(recipes) + [WithId(draft, id)]
      ensures persisted == recipes
      ensures filter == old(filter) && searchTerm == old(searchTerm)
      ensures old(UniqueIds(recipes)) && !old(HasId(recipes, id)) ==> UniqueIds(recipes)
    {
      var recipe := WithId(draft, id);
      if UniqueIds(recipes) && !HasId(recipes, id) {
        AddedKeepsUniqueIds(recipes, draft, id);
      }
      recipes := recipes + [recipe];
      persisted := recipes;
    }

    /** `updateRecipe(payload)`: replace the first recipe with the payload's id, if any. */
    method UpdateRecipe(payload: Recipe)
      modifies this
      ensures recipes == Updated(old(recipes), payload)
      ensures persisted == if old(HasId(recipes, payload.id)) then recipes else old(persisted)
      ensures old(Synced()) ==> Synced()
      ensures filter == old(filter) && searchTerm == old(searchTerm)
      ensures old(UniqueIds(recipes)) ==> UniqueIds(recipes)
    {
      if UniqueIds(recipes) {
        UpdatedKeepsUniqueIds(recipes, payload);
      }
      var index := FindIndex(recipes, payload.id);
      if index.Some? {
        recipes := recipes[index.value := payload];
        persisted := recipes;
      }
    }

    /** `deleteRecipe(id)`: drop every recipe with that id. */
    method DeleteRecipe(id: string)
      modifies this
      ensures recipes == WithoutId(old(recipes), id)
      ensures persisted == recipes
      ensures filter == old(filter) && searchTerm == old(searchTerm)
      ensures old(UniqueIds(recipes)) ==> UniqueIds(recipes)
    {
      if UniqueIds(recipes) {
        WithoutIdKeepsUniqueIds(recipes, id);
      }
      recipes := WithoutId(recipes, id);
      persisted := recipes;
    }

    /** `toggleFavorite(id)`: flip the flag of the first recipe with that id, if any. */
    method ToggleFavorite(id: string)
      modifies this
      ensures recipes == Toggled(old(recipes), id)
      ensures persisted == if old(HasId(recipes, id)) then recipes else old(persisted)
      ensures old(Synced()) ==> Synced()
      ensures filter == old(filter) && searchTerm == old(searchTerm)
      ensures old(UniqueIds(recipes)) ==> UniqueIds(recipes)
    {
      var index := FindIndex(recipes, id);
      if index.Some? {
        var recipe := recipes[index.value];
        recipes := recipes[index.value := recipe.(isFavorite := !recipe.isFavorite)];
        persisted := recipes;
      }
    }

    /** `setFilter(value)`: only the filter changes; nothing is written. */
    method SetFilter(value: string)
      modifies this
      ensures filter == value
      ensures recipes == old(recipes) && persisted == old(persisted) && searchTerm == old(searchTerm)
    {
      filter := value;
    }

    /** `setSearchTerm(value)`: only the search term changes; nothing is written. */
    method SetSearchTerm(value: string)
      modifies this
      ensures searchTerm == value
      ensures recipes == old(recipes) && persisted == old(persisted) && filter == old(filter)
    {
      searchTerm := value;
    }
  }
}
