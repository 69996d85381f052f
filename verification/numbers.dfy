/**
 The two number conversions the recipe form performs on `prepTime` and
 `servings`: the global `parseInt` with no radix (form text to number) and
 `Number.prototype.toString` (number to form text). Only the values
 `parseInt` can produce are modelled: integers and NaN.
 */
module Numbers {
  import opened Text

  /** A JavaScript number as `parseInt` yields it: an integer or NaN. */
  datatype Num = Int(value: int) | NaN

  /** Value of `c` as a digit in bases up to 36; 36 when it is not a digit. */
  function DigitValue(c: char): (v: nat)
    ensures v <= 36
  {
    if '0' <= c <= '9' then c as int - '0' as int
    else if 'a' <= c <= 'z' then c as int - 'a' as int + 10
    else if 'A' <= c <= 'Z' then c as int - 'A' as int + 10
    else 36
  }

  /** The longest prefix of `s` made of digits of base `radix`. */
  function DigitPrefix(s: string, radix: nat): (r: string)
    ensures r <= s
    ensures forall i :: 0 <= i < |r| ==> DigitValue(r[i]) < radix
    ensures |r| < |s| ==> DigitValue(s[|r|]) >= radix
  {
    if s != [] && DigitValue(s[0]) < radix then [s[0]] + DigitPrefix(s[1..], radix) else []
  }

  /** The value of a digit string, most significant digit first. */
  function DigitsValue(ds: string, radix: nat): nat {
    if ds == [] then 0
    else DigitsValue(ds[..|ds| - 1], radix) * radix + DigitValue(ds[|ds| - 1])
  }

  /**
   The unsigned part of `parseInt`: base 16 after a `0x`/`0X` prefix and
   base 10 otherwise, then the longest run of digits; no digit gives NaN.
   Trailing text is ignored.
   */
  function ParseUnsigned(u: string): (r: Num)
    ensures r.Int? ==> r.value >= 0
    ensures u != [] && '1' <= u[0] <= '9' ==> r.Int?
  {
    var hex := |u| >= 2 && u[0] == '0' && (u[1] == 'x' || u[1] == 'X');
    var radix := if hex then 16 else 10;
    var ds := DigitPrefix(if hex then u[2..] else u, radix);
    if ds == [] then NaN else Int(DigitsValue(ds, radix))
  }

  /**
   `parseInt(s)` with no radix: skip the leading whitespace (the same set
   `trim` removes), read an optional sign, then the unsigned part.
   */
  function ParseInt(s: string): (r: Num)
    ensures r.Int? ==> TrimStart(s) != []
  {
    var t := TrimStart(s);
    if t != [] && t[0] == '-' then
      match ParseUnsigned(t[1..])
      case NaN => NaN
      case Int(m) => Int(-m)
    else if t != [] && t[0] == '+' then ParseUnsigned(t[1..])
    else ParseUnsigned(t)
  }

  function DigitChar(d: nat): (c: char)
    requires d < 10
    ensures '0' <= c <= '9' && DigitValue(c) == d
  {
    ('0' as int + d) as char
  }

  /** The decimal numeral of `n`, without leading zeros. */
  function NatToString(n: nat): (r: string)
    ensures |r| >= 1
    ensures forall i :: 0 <= i < |r| ==> '0' <= r[i] <= '9'
    ensures DigitsValue(r, 10) == n
    ensures |r| > 1 ==> r[0] != '0'
  {
    if n < 10 then [DigitChar(n)]
    else
      var r := NatToString(n / 10) + [DigitChar(n % 10)];
      assert r[..|r| - 1] == NatToString(n / 10);
      r
  }

  /** `x.toString()`: "NaN", or the decimal numeral with a minus sign when negative. */
  function ToString(x: Num): (r: string)
    ensures x.NaN? ==> r == "NaN"
    ensures x.Int? ==> |r| >= 1 && (r[0] == '-' <==> x.value < 0)
    ensures x.Int? ==> forall i :: (if x.value < 0 then 1 else 0) <= i < |r| ==> '0' <= r[i] <= '9'
  {
    match x
    case NaN => "NaN"
    case Int(n) => if n < 0 then "-" + NatToString(-n) else NatToString(n)
  }

  lemma {:induction false} DigitPrefixOfDigits(s: string, radix: nat)
    requires forall i :: 0 <= i < |s| ==> DigitValue(s[i]) < radix
    ensures DigitPrefix(s, radix) == s
  {
    if s != [] {
      DigitPrefixOfDigits(s[1..], radix);
    }
  }

  /** A decimal numeral, leading zeros included, reads back as its value. */
  lemma ParseUnsignedDecimal(ds: string)
    requires |ds| >= 1
    requires forall i :: 0 <= i < |ds| ==> '0' <= ds[i] <= '9'
    ensures ParseUnsigned(ds) == Int(DigitsValue(ds, 10))
  {
    assert |ds| >= 2 ==> ds[1] != 'x' && ds[1] != 'X';
    assert forall i :: 0 <= i < |ds| ==> DigitValue(ds[i]) < 10;
    DigitPrefixOfDigits(ds, 10);
  }

  /** A numeral with no leading whitespace and no sign is read unsigned. */
  lemma ParseIntUnsigned(s: string)
    requires s != [] && '0' <= s[0] <= '9'
    ensures ParseInt(s) == ParseUnsigned(s)
  {
    TrimStartPadded([], s);
    assert [] + s == s;
  }

  /** A numeral after a minus sign is read and negated. */
  lemma ParseIntNegative(digits: string)
    requires digits != [] && '0' <= digits[0] <= '9'
    ensures ParseUnsigned(digits).Int? ==>
      ParseInt("-" + digits) == Int(-ParseUnsigned(digits).value)
  {
    var s := "-" + digits;
    assert TrimStart(s) == s by {
      TrimStartPadded([], s);
      assert [] + s == s;
    }
    assert s[0] == '-' && s[1..] == digits;
  }

  /** Reading back a number's text gives the number back. */
  lemma ParseIntToString(x: Num)
    ensures ParseInt(ToString(x)) == x
  {
    match x
    case NaN =>
      TrimStartPadded([], "NaN");
      assert [] + "NaN" == "NaN";
      assert DigitPrefix("NaN", 10) == [];
    case Int(n) =>
      var digits := NatToString(if n < 0 then -n else n);
      ParseUnsignedDecimal(digits);
      if n < 0 {
        ParseIntNegative(digits);
      } else {
        ParseIntUnsigned(digits);
      }
  }
}
