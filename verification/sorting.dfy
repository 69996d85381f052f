/**
 `Array.prototype.sort` with a comparator. Since the 10th edition of
 ECMA-262 (2019, section 22.1.3.27) the sort must be stable: elements the
 comparator calls equal keep their relative order. It is modelled as a
 stable insertion sort; its results are proved sorted, a permutation of the
 input and stable.
 */
module Sorting {
  import opened Seqs

  /**
   A comparator that behaves as a total preorder: `cmp(a, b) < 0` exactly
   when `cmp(b, a) > 0`, and "not after" is transitive.
   */
  ghost predicate Consistent<T(!new)>(cmp: (T, T) -> int) {
    (forall a, b :: cmp(a, b) < 0 <==> cmp(b, a) > 0) &&
    (forall a, b, c :: cmp(a, b) <= 0 && cmp(b, c) <= 0 ==> cmp(a, c) <= 0)
  }

  /** Adjacent elements are in comparator order. */
  predicate SortedBy<T>(cmp: (T, T) -> int, s: seq<T>) {
    forall i :: 0 <= i < |s| - 1 ==> cmp(s[i], s[i + 1]) <= 0
  }

  /** Places `x` before the first element of `t` it is not after. */
  function Insert<T>(cmp: (T, T) -> int, x: T, t: seq<T>): (r: seq<T>)
    ensures |r| == |t| + 1
    ensures multiset(r) == multiset(t) + multiset{x}
    ensures r[0] == x || (t != [] && r[0] == t[0])
  {
    if t == [] || cmp(x, t[0]) <= 0 then [x] + t
    else
      assert t == [t[0]] + t[1..];
      [t[0]] + Insert(cmp, x, t[1..])
  }

  /** `s.slice().sort(cmp)`. */
  function Sort<T>(cmp: (T, T) -> int, s: seq<T>): (r: seq<T>)
    ensures |r| == |s|
    ensures multiset(r) == multiset(s)
  {
    if s == [] then []
    else
      assert s == [s[0]] + s[1..];
      Insert(cmp, s[0], Sort(cmp, s[1..]))
  }

  lemma {:induction false} InsertSorted<T(!new)>(cmp: (T, T) -> int, x: T, t: seq<T>)
    requires Consistent(cmp) && SortedBy(cmp, t)
    ensures SortedBy(cmp, Insert(cmp, x, t))
  {
    if t != [] && cmp(x, t[0]) > 0 {
      var rest := Insert(cmp, x, t[1..]);
      InsertSorted(cmp, x, t[1..]);
      assert cmp(t[0], x) < 0;
      assert cmp(t[0], rest[0]) <= 0;
      assert Insert(cmp, x, t) == [t[0]] + rest;
    }
  }

  /** The result is in comparator order. */
  lemma {:induction false} SortSorted<T(!new)>(cmp: (T, T) -> int, s: seq<T>)
    requires Consistent(cmp)
    ensures SortedBy(cmp, Sort(cmp, s))
  {
    if s != [] {
      SortSorted(cmp, s[1..]);
      InsertSorted(cmp, s[0], Sort(cmp, s[1..]));
    }
  }

  lemma {:induction false} InsertStable<T(!new)>(cmp: (T, T) -> int, p: T -> bool, x: T, t: seq<T>)
    requires p(x) ==> forall y :: y in t && p(y) ==> cmp(x, y) <= 0
    ensures Filter(p, Insert(cmp, x, t)) == if p(x) then [x] + Filter(p, t) else Filter(p, t)
  {
    if t != [] && cmp(x, t[0]) > 0 {
      InsertStable(cmp, p, x, t[1..]);
      assert Insert(cmp, x, t) == [t[0]] + Insert(cmp, x, t[1..]);
    }
  }

  /**
   Stability: among elements the comparator ranks equal (any set `p` of
   them), the sorted order is the input order.
   */
  lemma {:induction false} SortStable<T(!new)>(cmp: (T, T) -> int, p: T -> bool, s: seq<T>)
    requires forall a, b :: a in s && b in s && p(a) && p(b) ==> cmp(a, b) == 0
    ensures Filter(p, Sort(cmp, s)) == Filter(p, s)
  {
    if s != [] {
      var rest := Sort(cmp, s[1..]);
      SortStable(cmp, p, s[1..]);
      forall y | y in rest
        ensures y in s[1..]
      {
        assert y in multiset(rest);
      }
      InsertStable(cmp, p, s[0], rest);
    }
  }

  /** A comparator that ranks everything equal leaves the order unchanged. */
  lemma {:induction false} SortAllTiesIdentity<T(!new)>(cmp: (T, T) -> int, s: seq<T>)
    requires forall a, b :: a in s && b in s ==> cmp(a, b) == 0
    ensures Sort(cmp, s) == s
  {
    if s != [] {
      SortAllTiesIdentity(cmp, s[1..]);
      if |s| > 1 {
        assert s[1] in s;
      }
    }
  }
}
