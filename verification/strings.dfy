/**
 * The JavaScript string operations the console's decisions are written with:
 * `substring` with its clamping rules, `includes`, `split(c)[0]`, `replace` with
 * a string pattern (first occurrence) or a global one-character pattern, and
 * the decimal rendering of integers used by `+` concatenation.
 */
module Strings {
  import opened Optional

  predicate IsPrefix(p: string, s: string) {
    |p| <= |s| && s[..|p|] == p
  }

  predicate IsSuffix(p: string, s: string) {
    |p| <= |s| && s[|s| - |p|..] == p
  }

  /** The parts of a concatenation: `a` is its prefix and `b` what follows. */
  lemma ConcatParts(a: string, b: string)
    ensures IsPrefix(a, a + b)
    ensures (a + b)[|a|..] == b
  {
  }

  /** An index moved into the range [0, len], as `substring` does with its arguments. */
  function Clamp(i: int, len: nat): (r: nat)
    ensures r <= len
    ensures 0 <= i <= len ==> r == i
  {
    if i < 0 then 0 else if i > len then len else i
  }

  /**
   * `s.substring(start, end)`: both indices are clamped into the string and
   * swapped when the first is the larger.
   */
  function Substring(s: string, start: int, end: int): (r: string)
    ensures |r| <= |s|
    ensures 0 <= start <= end <= |s| ==> r == s[start..end]
    ensures 0 <= end <= start <= |s| ==> r == s[end..start]
  {
    var a := Clamp(start, |s|);
    var b := Clamp(end, |s|);
    if a <= b then s[a..b] else s[b..a]
  }

  /** `s.substring(start)`. */
  function SubstringFrom(s: string, start: int): string {
    Substring(s, start, |s|)
  }

  /** `s.substring(0, |p|) == p` holds exactly when `p` is a prefix of `s`. */
  lemma SubstringPrefixTest(s: string, p: string)
    ensures Substring(s, 0, |p|) == p <==> IsPrefix(p, s)
  {
    if |p| > |s| {
      assert |Substring(s, 0, |p|)| <= |s| < |p|;
    }
  }

  /**
   * `s.substring(s.length - |p|) == p` holds exactly when `p` is a suffix of
   * `s`; a string shorter than `p` is returned whole and so never equals it.
   */
  lemma SubstringSuffixTest(s: string, p: string)
    ensures SubstringFrom(s, |s| - |p|) == p <==> IsSuffix(p, s)
  {
    if |p| > |s| {
      assert SubstringFrom(s, |s| - |p|) == s;
    }
  }

  /** `t` appears in `s` starting at index `i`. */
  predicate OccursAt(s: string, t: string, i: nat) {
    i + |t| <= |s| && s[i..i + |t|] == t
  }

  /** `s.includes(t)`, computed by trying every start position in turn. */
  predicate Contains(s: string, t: string)
    decreases |s|
  {
    IsPrefix(t, s) || (|s| > 0 && Contains(s[1..], t))
  }

  lemma OccursAtShift(s: string, t: string, i: nat)
    requires |s| > 0
    ensures OccursAt(s, t, i + 1) <==> OccursAt(s[1..], t, i)
  {
    if i + 1 + |t| <= |s| {
      assert s[i + 1..i + 1 + |t|] == s[1..][i..i + |t|];
    }
  }

  /** `Contains` agrees with the definition "some window of `s` equals `t`". */
  lemma {:induction false} ContainsIff(s: string, t: string)
    ensures Contains(s, t) <==> exists i: nat :: OccursAt(s, t, i)
    decreases |s|
  {
    if IsPrefix(t, s) {
      assert OccursAt(s, t, 0);
    } else if |s| == 0 {
      assert |t| > 0;
    } else {
      ContainsIff(s[1..], t);
      if Contains(s[1..], t) {
        var j: nat :| OccursAt(s[1..], t, j);
        OccursAtShift(s, t, j);
      } else {
        forall i: nat ensures !OccursAt(s, t, i) {
          if i > 0 {
            OccursAtShift(s, t, i - 1);
          }
        }
      }
    }
  }

  /** With a one-character pattern, `includes` is plain membership. */
  lemma {:induction false} ContainsChar(s: string, c: char)
    ensures Contains(s, [c]) <==> c in s
    decreases |s|
  {
    if |s| > 0 {
      ContainsChar(s[1..], c);
      assert s == [s[0]] + s[1..];
    }
  }

  /** The text before the first `c`, or all of `s` when there is none: `s.split(c)[0]`. */
  function BeforeFirst(s: string, c: char): (r: string)
    ensures IsPrefix(r, s)
    ensures c !in r
    ensures |r| < |s| ==> s[|r|] == c
  {
    if |s| == 0 then ""
    else if s[0] == c then ""
    else [s[0]] + BeforeFirst(s[1..], c)
  }

  /** Whatever follows, the text before the first `c` is the same. */
  lemma {:induction false} BeforeFirstOfSeparated(x: string, c: char, y: string)
    requires c !in x
    ensures BeforeFirst(x + [c] + y, c) == x
    decreases |x|
  {
    if |x| > 0 {
      assert (x + [c] + y)[1..] == x[1..] + [c] + y;
      BeforeFirstOfSeparated(x[1..], c, y);
      assert x == [x[0]] + x[1..];
    }
  }

  /** `s.replace(/c/g, d)`: every `c` becomes `d`, every other character stays. */
  function ReplaceAll(s: string, c: char, d: char): (r: string)
    ensures |r| == |s|
    ensures forall i :: 0 <= i < |s| ==> r[i] == (if s[i] == c then d else s[i])
  {
    if |s| == 0 then ""
    else [if s[0] == c then d else s[0]] + ReplaceAll(s[1..], c, d)
  }

  /** `s.indexOf(t)`: the first position where `t` occurs, if any. */
  function IndexOf(s: string, t: string): (r: Option<nat>)
    ensures r.Some? ==> OccursAt(s, t, r.value)
    ensures r.Some? ==> forall j: nat :: j < r.value ==> !OccursAt(s, t, j)
    ensures r.None? ==> forall j: nat :: !OccursAt(s, t, j)
    decreases |s|
  {
    if IsPrefix(t, s) then Some(0)
    else if |s| == 0 then None
    else
      var rest := IndexOf(s[1..], t);
      assert !OccursAt(s, t, 0);
      assert forall j: nat :: j > 0 ==> (OccursAt(s, t, j) <==> OccursAt(s[1..], t, j - 1)) by {
        forall j: nat | j > 0 ensures OccursAt(s, t, j) <==> OccursAt(s[1..], t, j - 1) {
          OccursAtShift(s, t, j - 1);
        }
      }
      match rest
      case None => None
      case Some(k) => Some(k + 1)
  }

  /**
   * `s.replace(pattern, replacement)` with a string pattern: only the first
   * occurrence is replaced, and `s` is returned unchanged when there is none.
   */
  function ReplaceFirst(s: string, pattern: string, replacement: string): (r: string)
    ensures IndexOf(s, pattern).None? ==> r == s
    ensures IndexOf(s, pattern).Some? ==>
      var k := IndexOf(s, pattern).value;
      && |r| == |s| - |pattern| + |replacement|
      && r[..k] == s[..k]
      && r[k..k + |replacement|] == replacement
      && r[k + |replacement|..] == s[k + |pattern|..]
  {
    match IndexOf(s, pattern)
    case None => s
    case Some(k) => s[..k] + replacement + s[k + |pattern|..]
  }

  /** A string that begins with the pattern has exactly that leading copy replaced. */
  lemma ReplaceFirstAtStart(s: string, pattern: string, replacement: string)
    requires IsPrefix(pattern, s)
    ensures ReplaceFirst(s, pattern, replacement) == replacement + s[|pattern|..]
  {
    assert OccursAt(s, pattern, 0);
  }

  /** Without an occurrence, `replace` changes nothing. */
  lemma ReplaceFirstAbsent(s: string, pattern: string, replacement: string)
    requires !Contains(s, pattern)
    ensures ReplaceFirst(s, pattern, replacement) == s
  {
    ContainsIff(s, pattern);
  }

  function DigitChar(d: nat): (c: char)
    requires d < 10
    ensures '0' <= c <= '9'
  {
    (48 + d) as char
  }

  predicate IsDigit(c: char) {
    '0' <= c <= '9'
  }

  /** Decimal digits of `n`, most significant first, as JavaScript prints an integer. */
  function NatToDecimal(n: nat): (r: string)
    ensures |r| > 0
    ensures forall i :: 0 <= i < |r| ==> IsDigit(r[i])
    ensures (r[0] == '0') <==> (n == 0)
    ensures n == 0 ==> r == "0"
    decreases n
  {
    if n < 10 then [DigitChar(n)] else NatToDecimal(n / 10) + [DigitChar(n % 10)]
  }

  /** The number a string of decimal digits denotes. */
  function DecimalValue(s: string): nat
    requires forall i :: 0 <= i < |s| ==> IsDigit(s[i])
  {
    if |s| == 0 then 0
    else
      assert IsDigit(s[|s| - 1]);
      DecimalValue(s[..|s| - 1]) * 10 + (s[|s| - 1] as int - 48)
  }

  /** Reading back the printed digits gives the number printed. */
  lemma {:induction false} DecimalRoundTrip(n: nat)
    ensures DecimalValue(NatToDecimal(n)) == n
    decreases n
  {
    if n >= 10 {
      var r := NatToDecimal(n);
      DecimalRoundTrip(n / 10);
      assert r[..|r| - 1] == NatToDecimal(n / 10);
    }
  }

  /** The digits of `String(i)`: everything after a leading minus sign. */
  function Magnitude(i: int): nat {
    if i < 0 then -i else i
  }

  /** `String(i)` for an integer: a minus sign before the digits of a negative value. */
  function IntToDecimal(i: int): (r: string)
    ensures |r| > 0
    ensures (r[0] == '-') <==> (i < 0)
    ensures var digits := if i < 0 then r[1..] else r;
      && |digits| > 0
      && (forall k :: 0 <= k < |digits| ==> IsDigit(digits[k]))
      && (digits[0] == '0' ==> |digits| == 1)
      && DecimalValue(digits) == Magnitude(i)
  {
    DecimalRoundTrip(Magnitude(i));
    if i < 0 then "-" + NatToDecimal(-i) else NatToDecimal(i)
  }
}
