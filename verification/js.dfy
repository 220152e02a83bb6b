/**
 * The JavaScript scalar values that reach the console's decisions from a
 * parsed configuration file or a store record, with the three conversions the
 * decisions apply to them: truthiness (`v ? … : …`), loose comparison with
 * zero (`v == 0`) and `String(v)` (the left operand of `+` being a string).
 */
module Js {
  import opened Strings

  /** Numbers are integral here; fractional numbers and NaN are not modelled. */
  datatype JsValue = Undefined | Null | Bool(b: bool) | Num(n: int) | Str(s: string)

  predicate Truthy(v: JsValue) {
    match v
    case Undefined => false
    case Null => false
    case Bool(b) => b
    case Num(n) => n != 0
    case Str(s) => s != ""
  }

  /** `String(v)`. */
  function ToText(v: JsValue): (r: string)
    ensures v.Str? ==> r == v.s
    ensures v.Num? ==> |r| > 0 && (r[0] == '-' <==> v.n < 0)
    ensures v.Num? ==> var digits := if v.n < 0 then r[1..] else r;
      && |digits| > 0
      && (forall k :: 0 <= k < |digits| ==> IsDigit(digits[k]))
      && (digits[0] == '0' ==> |digits| == 1)
      && DecimalValue(digits) == Magnitude(v.n)
    ensures v.Undefined? ==> r == "undefined"
    ensures v.Null? ==> r == "null"
    ensures v.Bool? ==> r == (if v.b then "true" else "false")
  {
    match v
    case Undefined => "undefined"
    case Null => "null"
    case Bool(b) => if b then "true" else "false"
    case Num(n) => IntToDecimal(n)
    case Str(s) => s
  }

  /** `v ? v : ""` followed by `String(…)`: a falsy value contributes nothing. */
  function TextOrEmpty(v: JsValue): (r: string)
    ensures !Truthy(v) ==> r == ""
    ensures Truthy(v) ==> r == ToText(v)
  {
    if Truthy(v) then ToText(v) else ""
  }

  /** The white space and line terminators that `Number(s)` strips from both ends. */
  predicate IsJsSpace(c: char) {
    var k := c as int;
    k == 0x9 || k == 0xA || k == 0xB || k == 0xC || k == 0xD || k == 0x20 || k == 0xA0
    || k == 0x1680 || (0x2000 <= k <= 0x200A) || k == 0x2028 || k == 0x2029
    || k == 0x202F || k == 0x205F || k == 0x3000 || k == 0xFEFF
  }

  /** `s.trimStart()`: the leading white space removed, nothing else. */
  function TrimStart(s: string): (r: string)
    ensures IsSuffix(r, s)
    ensures forall i :: 0 <= i < |s| - |r| ==> IsJsSpace(s[i])
    ensures |r| > 0 ==> !IsJsSpace(r[0])
  {
    if |s| > 0 && IsJsSpace(s[0]) then TrimStart(s[1..]) else s
  }

  /** `s.trimEnd()`: the trailing white space removed, nothing else. */
  function TrimEnd(s: string): (r: string)
    ensures IsPrefix(r, s)
    ensures forall i :: |r| <= i < |s| ==> IsJsSpace(s[i])
    ensures |r| > 0 ==> !IsJsSpace(r[|r| - 1])
  {
    if |s| > 0 && IsJsSpace(s[|s| - 1]) then TrimEnd(s[..|s| - 1]) else s
  }

  /** `s[a..b]` is `s` with only white space cut from before `a` and after `b`. */
  predicate SpaceTrimmed(s: string, a: int, b: int) {
    && 0 <= a <= b <= |s|
    && (forall i :: 0 <= i < a ==> IsJsSpace(s[i]))
    && (forall i :: b <= i < |s| ==> IsJsSpace(s[i]))
  }

  /** A prefix of a suffix is a slice. */
  lemma PrefixOfSuffix(s: string, a: nat, n: nat)
    requires a + n <= |s|
    ensures s[a..][..n] == s[a..a + n]
  {
  }

  /**
   * A prefix `r` of a suffix `t` of `s`, where what precedes `t` and what
   * follows `r` in `t` is white space, is a slice of `s` trimmed of white space.
   */
  lemma SliceOfTrims(s: string, t: string, r: string)
    requires IsSuffix(t, s) && IsPrefix(r, t)
    requires forall i :: 0 <= i < |s| - |t| ==> IsJsSpace(s[i])
    requires forall i :: |r| <= i < |t| ==> IsJsSpace(t[i])
    ensures SpaceTrimmed(s, |s| - |t|, |s| - |t| + |r|)
    ensures r == s[|s| - |t|..|s| - |t| + |r|]
  {
    var a := |s| - |t|;
    assert t == s[a..];
    PrefixOfSuffix(s, a, |r|);
    forall i | a + |r| <= i < |s| ensures IsJsSpace(s[i]) {
      assert s[i] == t[i - a];
    }
  }

  /** How many leading white-space characters `trim` removes. */
  function LeadingSpace(s: string): (n: nat)
    ensures n <= |s|
  {
    |s| - |TrimStart(s)|
  }

  /** `s.trim()`: the slice of `s` left after cutting white space from either end. */
  function Trim(s: string): (r: string)
    ensures |r| > 0 ==> !IsJsSpace(r[0]) && !IsJsSpace(r[|r| - 1])
    ensures SpaceTrimmed(s, LeadingSpace(s), LeadingSpace(s) + |r|)
    ensures r == s[LeadingSpace(s)..LeadingSpace(s) + |r|]
  {
    var t := TrimStart(s);
    var r := TrimEnd(t);
    SliceOfTrims(s, t, r);
    r
  }

  /** Every character is the digit zero. */
  predicate AllZeros(s: string) {
    forall i :: 0 <= i < |s| ==> s[i] == '0'
  }

  /** An unsigned decimal literal whose digits are all zero: "0", "00", "0.", ".0", "0.00". */
  predicate UnsignedZeroLiteral(t: string) {
    var whole := BeforeFirst(t, '.');
    if |whole| == |t| then |t| > 0 && AllZeros(t)
    else AllZeros(whole) && AllZeros(t[|whole| + 1..]) && |t| > 1
  }

  /** A (trimmed) string that `Number(…)` converts to zero. */
  predicate ZeroText(t: string) {
    t == ""
    || UnsignedZeroLiteral(t)
    || (|t| > 0 && (t[0] == '+' || t[0] == '-') && UnsignedZeroLiteral(t[1..]))
  }

  /**
   * `v == 0` with JavaScript's loose equality: a boolean or a string is first
   * converted to a number, `null` and `undefined` equal only each other.
   */
  predicate LooseEqualsZero(v: JsValue) {
    match v
    case Undefined => false
    case Null => false
    case Bool(b) => !b
    case Num(n) => n == 0
    case Str(s) => ZeroText(Trim(s))
  }

  /** Numbers, booleans and the empty string against zero. */
  lemma LooseZeroScalars()
    ensures LooseEqualsZero(Num(0)) && !LooseEqualsZero(Num(1))
    ensures LooseEqualsZero(Bool(false)) && !LooseEqualsZero(Bool(true))
    ensures LooseEqualsZero(Str("")) && !LooseEqualsZero(Null) && !LooseEqualsZero(Undefined)
  {
  }

  /** Surrounding white space is ignored: `" 0 " == 0`. */
  lemma LooseZeroPadded()
    ensures LooseEqualsZero(Str(" 0 "))
  {
    assert TrimStart(" 0 ") == "0 " by {
      assert IsJsSpace(' ');
      assert TrimStart("0 ") == "0 ";
    }
    assert TrimEnd("0 ") == "0" by {
      assert TrimEnd("0") == "0";
    }
    assert BeforeFirst("0", '.') == "0";
  }

  /** Text with no white space at either end is left alone by `trim`. */
  lemma TrimUnpadded(s: string)
    requires |s| > 0 ==> !IsJsSpace(s[0]) && !IsJsSpace(s[|s| - 1])
    ensures Trim(s) == s
  {
    assert TrimStart(s) == s;
  }

  /** A sign in front of an unsigned zero literal keeps it zero. */
  lemma SignedZero(t: string)
    requires UnsignedZeroLiteral(t)
    ensures ZeroText("-" + t) && ZeroText("+" + t)
  {
    assert ("-" + t)[1..] == t && ("+" + t)[1..] == t;
  }

  /** `"0.0"` is an unsigned zero literal. */
  lemma DecimalZero()
    ensures UnsignedZeroLiteral("0.0")
  {
    assert BeforeFirst("0.0", '.') == "0";
    assert "0.0"[2..] == "0";
  }

  /** A signed decimal zero equals zero: `"-0.0" == 0`. */
  lemma LooseZeroSignedDecimal()
    ensures LooseEqualsZero(Str("-0.0"))
  {
    DecimalZero();
    SignedZero("0.0");
    var t := "-" + "0.0";
    assert t[0] == '-' && t[|t| - 1] == '0';
    TrimUnpadded(t);
    assert t == "-0.0";
  }

  /** Text with a non-zero character is not zero: `"0a" != 0`. */
  lemma LooseZeroRejectsText()
    ensures !LooseEqualsZero(Str("0a"))
  {
    assert TrimStart("0a") == "0a";
    assert TrimEnd("0a") == "0a";
    assert BeforeFirst("0a", '.') == "0a";
    assert "0a"[1] == 'a';
  }

  /** A string without a decimal point is its own whole part. */
  lemma WholeWithoutPoint(t: string)
    requires '.' !in t
    ensures BeforeFirst(t, '.') == t
  {
  }

  /** A printed integer that is not 0 starts with a sign or a non-zero digit and has no decimal point. */
  lemma NonZeroNumberText(n: int)
    requires n != 0
    ensures var t := ToText(Num(n));
      && |t| > 0 && t[0] != '0' && t[0] != '+' && '.' !in t
      && (t[0] == '-' ==> |t| > 1 && t[1] != '0' && '.' !in t[1..])
  {
    var m := NatToDecimal(Magnitude(n));
    assert forall k :: 0 <= k < |m| ==> m[k] != '.' by {
      forall k | 0 <= k < |m| ensures m[k] != '.' {
        assert IsDigit(m[k]);
      }
    }
    if n < 0 {
      assert ToText(Num(n)) == "-" + m;
      assert ("-" + m)[1..] == m;
    } else {
      assert ToText(Num(n)) == m;
    }
  }

  /**
   * A number read back from its own text, as a configuration file's key
   * format written as a string would be, is loosely 0 exactly when it is 0.
   */
  lemma LooseZeroOfNumberText(n: int)
    ensures LooseEqualsZero(Str(ToText(Num(n)))) <==> n == 0
  {
    var t := ToText(Num(n));
    var digits := if n < 0 then t[1..] else t;
    assert t[|t| - 1] == digits[|digits| - 1];
    assert IsDigit(digits[|digits| - 1]);
    TrimUnpadded(t);
    if n == 0 {
      assert t == "0";
      assert BeforeFirst("0", '.') == "0";
    } else {
      NonZeroNumberText(n);
      WholeWithoutPoint(t);
      assert !UnsignedZeroLiteral(t);
      if t[0] == '-' {
        WholeWithoutPoint(t[1..]);
        assert !UnsignedZeroLiteral(t[1..]);
      }
    }
  }
}
