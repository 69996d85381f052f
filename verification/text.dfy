/**
 The JavaScript string operations the recipe code relies on:
 `String.prototype.trim`, `split(',')`, `Array.prototype.join`,
 `toLowerCase` and `includes`. Strings are modelled as `seq<char>`, a
 sequence of Unicode code points (JavaScript's own strings are UTF-16 code
 units; the two agree on every character below U+10000).
 */
module Text {
  import opened Seqs

  /**
   The ECMAScript WhiteSpace and LineTerminator code points, which is what
   `trim` removes: tab, line feed, vertical tab, form feed, carriage return,
   space, no-break space, the byte order mark, the Unicode space separators
   and the line and paragraph separators.
   */
  predicate IsWhitespace(c: char) {
    c == '\t' || c == '\n' || c == '\U{000B}' || c == '\U{000C}' || c == '\r' ||
    c == ' ' || c == '\U{00A0}' || c == '\U{1680}' ||
    ('\U{2000}' <= c <= '\U{200A}') ||
    c == '\U{2028}' || c == '\U{2029}' || c == '\U{202F}' || c == '\U{205F}' ||
    c == '\U{3000}' || c == '\U{FEFF}'
  }

  predicate AllWhitespace(s: string) {
    forall i :: 0 <= i < |s| ==> IsWhitespace(s[i])
  }

  /** Neither end of `s` is whitespace. */
  predicate IsTrimmed(s: string) {
    s == [] || (!IsWhitespace(s[0]) && !IsWhitespace(s[|s| - 1]))
  }

  /** Drops the leading whitespace: what is left is a suffix of `s`. */
  function TrimStart(s: string): (r: string)
    ensures |r| <= |s| && r == s[|s| - |r|..]
    ensures AllWhitespace(s[..|s| - |r|])
    ensures r == [] || !IsWhitespace(r[0])
  {
    if s != [] && IsWhitespace(s[0]) then TrimStart(s[1..]) else s
  }

  /** Drops the trailing whitespace: what is left is a prefix of `s`. */
  function TrimEnd(s: string): (r: string)
    ensures |r| <= |s| && r == s[..|r|]
    ensures AllWhitespace(s[|r|..])
    ensures r == [] || !IsWhitespace(r[|r| - 1])
  {
    if s != [] && IsWhitespace(s[|s| - 1]) then TrimEnd(s[..|s| - 1]) else s
  }

  /** `s.trim()`. */
  function Trim(s: string): (r: string)
    ensures IsTrimmed(r)
    ensures |r| <= |s|
  {
    TrimEnd(TrimStart(s))
  }

  /** Trimming only removes characters. */
  lemma TrimAddsNoChar(s: string, c: char)
    requires c !in s
    ensures c !in Trim(s)
  {
    var t := TrimStart(s);
    assert t == s[|s| - |t|..];
    assert c !in t;
    assert Trim(s) == t[..|Trim(s)|];
  }

  lemma {:induction false} TrimStartPadded(pre: string, t: string)
    requires AllWhitespace(pre)
    requires t == [] || !IsWhitespace(t[0])
    ensures TrimStart(pre + t) == t
  {
    if pre != [] {
      assert (pre + t)[1..] == pre[1..] + t;
      TrimStartPadded(pre[1..], t);
    } else {
      assert pre + t == t;
    }
  }

  lemma {:induction false} TrimEndPadded(t: string, post: string)
    requires AllWhitespace(post)
    requires t == [] || !IsWhitespace(t[|t| - 1])
    ensures TrimEnd(t + post) == t
  {
    if post != [] {
      assert (t + post)[..|t + post| - 1] == t + post[..|post| - 1];
      TrimEndPadded(t, post[..|post| - 1]);
    } else {
      assert t + post == t;
    }
  }

  /** Trimming removes exactly the surrounding whitespace. */
  lemma TrimPadded(pre: string, s: string, post: string)
    requires AllWhitespace(pre) && AllWhitespace(post) && IsTrimmed(s)
    ensures Trim(pre + s + post) == s
  {
    if s == [] {
      assert pre + s + post == pre + post;
      TrimStartPadded(pre + post, []);
      assert pre + post + [] == pre + post;
    } else {
      assert pre + s + post == pre + (s + post);
      TrimStartPadded(pre, s + post);
      TrimEndPadded(s, post);
    }
  }

  /** Trimming is idempotent. */
  lemma TrimIdempotent(s: string)
    ensures Trim(Trim(s)) == Trim(s)
  {
    var t := Trim(s);
    assert [] + t + [] == t;
    TrimPadded([], t, []);
  }

  /** `!s.trim()` holds exactly when `s` is made of whitespace only. */
  lemma BlankIffAllWhitespace(s: string)
    ensures Trim(s) == [] <==> AllWhitespace(s)
  {
    if AllWhitespace(s) {
      assert s + [] + [] == s;
      TrimPadded(s, [], []);
    }
    if Trim(s) == [] {
      var t := TrimStart(s);
      assert t == [];
      assert s[..|s| - |t|] == s;
    }
  }

  /** `s.split(',')`: the comma-free pieces between the commas. */
  function Split(s: string): (r: seq<string>)
    ensures |r| >= 1
    ensures forall i :: 0 <= i < |r| ==> ',' !in r[i]
  {
    if s == [] then [[]]
    else
      var rest := Split(s[1..]);
      if s[0] == ',' then [[]] + rest
      else [[s[0]] + rest[0]] + rest[1..]
  }

  /** `xs.join(sep)`: the pieces in order, with `sep` between neighbours. */
  function Join(xs: seq<string>, sep: string): (r: string)
    ensures xs == [] ==> r == []
    ensures xs != [] ==> xs[0] <= r
    ensures |xs| == 1 ==> r == xs[0]
  {
    if xs == [] then []
    else if |xs| == 1 then xs[0]
    else xs[0] + sep + Join(xs[1..], sep)
  }

  lemma CommaRegroup(pre: string, a: string, b: string)
    ensures pre + (a + "," + b) == (pre + a) + "," + b
  {
  }

  lemma CommaSplitsAt(s: string, k: nat)
    requires k < |s| && s[k] == ','
    ensures s == s[..k] + "," + s[k + 1..]
  {
  }

  /** Joining with ", " puts a comma, then a space, after the first item. */
  lemma JoinCommaSpace(xs: seq<string>)
    requires |xs| >= 2
    ensures Join(xs, ", ") == xs[0] + "," + (" " + Join(xs[1..], ", "))
  {
    var first, rest := xs[0], Join(xs[1..], ", ");
    assert Join(xs, ", ") == first + ", " + rest;
    CommaSpaceRegroup(first, rest);
  }

  lemma CommaSpaceRegroup(a: string, b: string)
    ensures a + ", " + b == a + "," + (" " + b)
  {
    assert ", " == "," + " ";
  }

  /** Joining the pieces with commas gives back the text. */
  lemma {:induction false} JoinSplit(s: string)
    ensures Join(Split(s), ",") == s
  {
    if s != [] {
      var rest := Split(s[1..]);
      JoinSplit(s[1..]);
      if s[0] == ',' {
        assert ([[]] + rest)[1..] == rest;
      } else if |rest| > 1 {
        assert ([[s[0]] + rest[0]] + rest[1..])[1..] == rest[1..];
        assert s == [s[0]] + (rest[0] + "," + Join(rest[1..], ","));
      }
    }
  }

  /** Splitting around a comma splits each side on its own. */
  lemma {:induction false} SplitAppend(a: string, b: string)
    ensures Split(a + "," + b) == Split(a) + Split(b)
  {
    if a == [] {
      assert a + "," + b == [','] + b;
      assert ([','] + b)[1..] == b;
    } else {
      assert (a + "," + b)[1..] == a[1..] + "," + b;
      SplitAppend(a[1..], b);
    }
  }

  lemma {:induction false} SplitCommaFree(a: string)
    requires ',' !in a
    ensures Split(a) == [a]
  {
    if a != [] {
      SplitCommaFree(a[1..]);
      assert a == [a[0]] + a[1..];
    }
  }

  /** Splitting comma-joined comma-free pieces gives them back. */
  lemma {:induction false} SplitJoin(xs: seq<string>)
    requires |xs| >= 1
    requires forall i :: 0 <= i < |xs| ==> ',' !in xs[i]
    ensures Split(Join(xs, ",")) == xs
  {
    if |xs| == 1 {
      SplitCommaFree(xs[0]);
    } else {
      SplitCommaFree(xs[0]);
      SplitJoin(xs[1..]);
      SplitAppend(xs[0], Join(xs[1..], ","));
      assert xs == [xs[0]] + xs[1..];
    }
  }

  /** The lower-case mapping, on the ASCII letters. */
  function LowerChar(c: char): char {
    if 'A' <= c <= 'Z' then (c as int + 32) as char else c
  }

  /** `s.toLowerCase()`, restricted to the ASCII letters. */
  function ToLower(s: string): (r: string)
    ensures |r| == |s|
    ensures forall i :: 0 <= i < |s| ==> r[i] == LowerChar(s[i]) && !('A' <= r[i] <= 'Z')
  {
    Map(LowerChar, s)
  }

  lemma ToLowerIdempotent(s: string)
    ensures ToLower(ToLower(s)) == ToLower(s)
  {
  }

  /** `s.includes(t)`. */
  function Contains(s: string, t: string): (r: bool)
    ensures t == [] ==> r
    ensures r ==> |t| <= |s|
    decreases |s|
  {
    if t <= s then true
    else if s == [] then false
    else Contains(s[1..], t)
  }

  /** `t` occurs in `s` starting at position `i`. */
  predicate OccursAt(s: string, t: string, i: int) {
    0 <= i <= |s| - |t| && s[i..i + |t|] == t
  }

  /** Every `true` answer of `includes` comes from an occurrence. */
  lemma {:induction false} ContainsSound(s: string, t: string)
    requires Contains(s, t)
    ensures exists i :: OccursAt(s, t, i)
    decreases |s|
  {
    if t <= s {
      assert OccursAt(s, t, 0);
    } else {
      ContainsSound(s[1..], t);
      var i :| OccursAt(s[1..], t, i);
      assert s[1..][i..i + |t|] == s[i + 1..i + 1 + |t|];
      assert OccursAt(s, t, i + 1);
    }
  }

  /** Every occurrence makes `includes` answer `true`. */
  lemma {:induction false} ContainsComplete(s: string, t: string, i: int)
    requires OccursAt(s, t, i)
    ensures Contains(s, t)
    decreases |s|
  {
    if i == 0 {
      assert s[..|t|] == t;
    } else if !(t <= s) {
      assert s[1..][i - 1..i - 1 + |t|] == s[i..i + |t|];
      ContainsComplete(s[1..], t, i - 1);
    }
  }

  /** `includes` holds exactly when `t` occurs at some position of `s`. */
  lemma ContainsIff(s: string, t: string)
    ensures Contains(s, t) <==> exists i :: OccursAt(s, t, i)
  {
    if Contains(s, t) {
      ContainsSound(s, t);
    }
    if exists i :: OccursAt(s, t, i) {
      var i :| OccursAt(s, t, i);
      ContainsComplete(s, t, i);
    }
  }

  /** Every character of a contained string occurs in the containing one. */
  lemma {:induction false} ContainsKeepsChars(s: string, t: string)
    requires Contains(s, t)
    ensures forall c :: c in t ==> c in s
    decreases |s|
  {
    if !(t <= s) {
      ContainsKeepsChars(s[1..], t);
    } else {
      assert forall i :: 0 <= i < |t| ==> t[i] == s[i];
    }
  }
}
