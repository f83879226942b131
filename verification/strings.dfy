/** Character and string helpers: decimal digits, JavaScript `parseInt`
    with radix 10, `padStart` and first-occurrence `replace`. */
module Strings {
  import opened Wrappers

  predicate IsDigit(c: char) {
    '0' <= c <= '9'
  }

  predicate AllDigits(s: string) {
    forall i :: 0 <= i < |s| ==> IsDigit(s[i])
  }

  function DigitChar(d: nat): (c: char)
    requires d < 10
    ensures IsDigit(c)
  {
    (48 + d) as char
  }

  function DigitValue(c: char): (d: nat)
    requires IsDigit(c)
    ensures d < 10
  {
    (c as int) - 48
  }

  /** The decimal numeral JavaScript writes for a non-negative integer. */
  function NatToString(n: nat): (s: string)
    ensures 1 <= |s|
    ensures AllDigits(s)
    ensures n < 10 <==> |s| == 1
  {
    if n < 10 then [DigitChar(n)] else NatToString(n / 10) + [DigitChar(n % 10)]
  }

  /** The value of a string of decimal digits (0 for the empty string). */
  function ParseDigits(s: string): nat
    requires AllDigits(s)
  {
    if |s| == 0 then 0 else ParseDigits(s[..|s| - 1]) * 10 + DigitValue(s[|s| - 1])
  }

  lemma {:induction false} ParseNatToString(n: nat)
    ensures ParseDigits(NatToString(n)) == n
  {
    if n >= 10 {
      var s := NatToString(n);
      assert s[..|s| - 1] == NatToString(n / 10);
      ParseNatToString(n / 10);
    }
  }

  /** JavaScript white space and line terminators, which `parseInt` skips. */
  predicate IsJsSpace(c: char) {
    || c == '\t' || c == '\n' || c == '\U{B}' || c == '\U{C}' || c == '\r'
    || c == ' ' || c == '\U{A0}' || c == '\U{1680}'
    || ('\U{2000}' <= c <= '\U{200A}')
    || c == '\U{2028}' || c == '\U{2029}' || c == '\U{202F}' || c == '\U{205F}'
    || c == '\U{3000}' || c == '\U{FEFF}'
  }

  function TrimStart(s: string): (r: string)
    ensures |r| <= |s| && r == s[|s| - |r|..]
    ensures forall i :: 0 <= i < |s| - |r| ==> IsJsSpace(s[i])
    ensures |r| > 0 ==> !IsJsSpace(r[0])
  {
    if |s| > 0 && IsJsSpace(s[0]) then TrimStart(s[1..]) else s
  }

  /** The longest prefix of `s` made of decimal digits. */
  function LeadingDigits(s: string): (r: string)
    ensures r <= s
    ensures AllDigits(r)
    ensures |r| < |s| ==> !IsDigit(s[|r|])
  {
    if |s| > 0 && IsDigit(s[0]) then [s[0]] + LeadingDigits(s[1..]) else []
  }

  /** The text after one leading sign, if there is one. */
  function Unsigned(t: string): (u: string)
    ensures |t| > 0 && (t[0] == '-' || t[0] == '+') ==> u == t[1..]
    ensures !(|t| > 0 && (t[0] == '-' || t[0] == '+')) ==> u == t
  {
    if |t| > 0 && (t[0] == '-' || t[0] == '+') then t[1..] else t
  }

  /** `parseInt(s, 10)`; `None` is NaN. Leading white space and one sign
      are skipped, then the longest run of digits is read. */
  function ParseInt(s: string): (r: Option<int>)
    ensures r.None? <==> |Unsigned(TrimStart(s))| == 0 || !IsDigit(Unsigned(TrimStart(s))[0])
  {
    ParseSigned(TrimStart(s))
  }

  /** `parseInt` on text that no longer starts with white space. */
  function ParseSigned(t: string): (r: Option<int>)
    ensures r.None? <==> |Unsigned(t)| == 0 || !IsDigit(Unsigned(t)[0])
  {
    var digits := LeadingDigits(Unsigned(t));
    var magnitude: int := if |digits| == 0 then 0 else ParseDigits(digits);
    if |digits| == 0 then None
    else if t[0] == '-' then Some(-magnitude)
    else Some(magnitude)
  }

  /** The value `parseInt` reads once the white space is gone. */
  lemma ParseSignedDigits(t: string, digits: string)
    requires digits == LeadingDigits(Unsigned(t)) && |digits| > 0
    ensures |t| > 0
    ensures t[0] == '-' ==> ParseSigned(t) == Some(-(ParseDigits(digits) as int))
    ensures t[0] != '-' ==> ParseSigned(t) == Some(ParseDigits(digits))
  {
  }

  lemma ParseIntTrimmed(s: string, t: string, digits: string)
    requires t == TrimStart(s) && digits == LeadingDigits(Unsigned(t)) && |digits| > 0
    ensures |t| > 0
    ensures t[0] == '-' ==> ParseInt(s) == Some(-(ParseDigits(digits) as int))
    ensures t[0] != '-' ==> ParseInt(s) == Some(ParseDigits(digits))
  {
    ParseSignedDigits(t, digits);
  }

  /** Without a sign, `parseInt` reads the digits after the white space. */
  lemma ParseIntUnsigned(s: string)
    requires |TrimStart(s)| > 0 && IsDigit(TrimStart(s)[0])
    ensures ParseInt(s) == Some(ParseDigits(LeadingDigits(TrimStart(s))))
  {
    ParseIntTrimmed(s, TrimStart(s), LeadingDigits(TrimStart(s)));
  }

  lemma {:induction false} ParseIntOfNumeral(n: nat)
    ensures ParseInt(NatToString(n)) == Some(n)
  {
    var s := NatToString(n);
    assert IsDigit(s[0]) && !IsJsSpace(s[0]);
    assert TrimStart(s) == s;
    LeadingDigitsOfDigits(s);
    ParseIntUnsigned(s);
    ParseNatToString(n);
  }

  lemma {:induction false} LeadingDigitsOfDigits(s: string)
    requires AllDigits(s)
    ensures LeadingDigits(s) == s
  {
    if |s| > 0 {
      LeadingDigitsOfDigits(s[1..]);
    }
  }

  /** `s.padStart(width, fill)`: `fill` repeated on the left up to `width`. */
  function PadStart(s: string, width: nat, fill: char): (r: string)
    ensures |r| == if |s| < width then width else |s|
    ensures r[|r| - |s|..] == s
    ensures forall i :: 0 <= i < |r| - |s| ==> r[i] == fill
  {
    if |s| < width then seq(width - |s|, _ => fill) + s else s
  }

  predicate OccursAt(s: string, pattern: string, i: nat) {
    i + |pattern| <= |s| && s[i..i + |pattern|] == pattern
  }

  /** The first index at which `pattern` occurs in `s`, at or after `from`. */
  function IndexOfFrom(s: string, pattern: string, from: nat): (r: Option<nat>)
    requires from <= |s|
    ensures r.Some? ==> from <= r.value && OccursAt(s, pattern, r.value)
    ensures r.Some? ==> forall j :: from <= j < r.value ==> !OccursAt(s, pattern, j)
    ensures r.None? ==> forall j :: from <= j <= |s| ==> !OccursAt(s, pattern, j)
    decreases |s| - from
  {
    if OccursAt(s, pattern, from) then Some(from)
    else if from == |s| then None
    else IndexOfFrom(s, pattern, from + 1)
  }

  function IndexOf(s: string, pattern: string): Option<nat> {
    IndexOfFrom(s, pattern, 0)
  }

  /** `s.replace(pattern, '')` with a string pattern: only the first
      occurrence is removed. */
  function RemoveFirst(s: string, pattern: string): (r: string)
    ensures IndexOf(s, pattern).None? ==> r == s
    ensures IndexOf(s, pattern).Some? ==>
      var i := IndexOf(s, pattern).value;
      |r| == |s| - |pattern| && r == s[..i] + s[i + |pattern|..]
  {
    match IndexOf(s, pattern)
    case None => s
    case Some(i) => s[..i] + s[i + |pattern|..]
  }
}
