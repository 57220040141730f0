/**
 The pieces of Go's `strings` and `strconv` packages the core relies on:
 substring search (`strings.Contains`), ASCII lower-casing (`strings.ToLower`),
 trimming (`strings.Trim`, `strings.TrimSpace`) and decimal rendering of an
 integer (`strconv.Itoa`), each given a specification it is proved to meet.
 */
module Text {
  import opened Base

  // ---------------------------------------------------------------------------
  // Substrings
  // ---------------------------------------------------------------------------

  /** `w` occurs in `text` at position `i`. */
  predicate OccursAt(w: string, text: string, i: int) {
    0 <= i && i + |w| <= |text| && text[i..i + |w|] == w
  }

  /** `w` occurs somewhere in `text`: the meaning of `strings.Contains(text, w)`. */
  ghost predicate IsSubstring(w: string, text: string) {
    exists i :: OccursAt(w, text, i)
  }

  /** A left-to-right search for `w` in `text` starting at position `from`. */
  function ContainsFrom(text: string, w: string, from: nat): (b: bool)
    ensures b <==> exists i :: from <= i && OccursAt(w, text, i)
    decreases |text| - from
  {
    if from + |w| > |text| then false
    else if text[from..from + |w|] == w then assert OccursAt(w, text, from); true
    else ContainsFrom(text, w, from + 1)
  }

  /** `strings.Contains`: true exactly when `w` is a substring of `text`
      (the empty string is a substring of every text). */
  function Contains(text: string, w: string): (b: bool)
    ensures b <==> IsSubstring(w, text)
  {
    ContainsFrom(text, w, 0)
  }

  // ---------------------------------------------------------------------------
  // Lower-casing (ASCII only)
  // ---------------------------------------------------------------------------

  predicate IsUpperAscii(c: char) {
    'A' <= c <= 'Z'
  }

  function LowerChar(c: char): char {
    if IsUpperAscii(c) then (c as int + 32) as char else c
  }

  /** `strings.ToLower` restricted to ASCII letters. */
  function ToLower(s: string): (r: string)
    ensures |r| == |s|
    ensures forall i | 0 <= i < |s| :: r[i] == LowerChar(s[i])
  {
    if |s| == 0 then [] else [LowerChar(s[0])] + ToLower(s[1..])
  }

  /** Lower-casing a concatenation lower-cases each part. */
  lemma LowerConcat(a: string, b: string)
    ensures ToLower(a + b) == ToLower(a) + ToLower(b)
  {
    var l, r := ToLower(a + b), ToLower(a) + ToLower(b);
    assert |l| == |r|;
    forall i | 0 <= i < |l|
      ensures l[i] == r[i]
    {
      if i < |a| {
        assert (a + b)[i] == a[i];
      } else {
        assert (a + b)[i] == b[i - |a|];
      }
    }
  }

  // ---------------------------------------------------------------------------
  // Trimming
  // ---------------------------------------------------------------------------

  /** Drops the longest prefix whose characters all satisfy `cut`. */
  function TrimLeft(s: string, cut: char -> bool): (r: string)
    ensures |r| <= |s| && r == s[|s| - |r|..]
    ensures forall i | 0 <= i < |s| - |r| :: cut(s[i])
    ensures |r| > 0 ==> !cut(r[0])
    decreases |s|
  {
    if |s| > 0 && cut(s[0]) then TrimLeft(s[1..], cut) else s
  }

  /** Drops the longest suffix whose characters all satisfy `cut`. */
  function TrimRight(s: string, cut: char -> bool): (r: string)
    ensures |r| <= |s| && r == s[..|r|]
    ensures forall i | |r| <= i < |s| :: cut(s[i])
    ensures |r| > 0 ==> !cut(r[|r| - 1])
    decreases |s|
  {
    if |s| > 0 && cut(s[|s| - 1]) then TrimRight(s[..|s| - 1], cut) else s
  }

  /** `strings.Trim` with a cut-set: both ends stripped. */
  function Trim(s: string, cut: char -> bool): string {
    TrimRight(TrimLeft(s, cut), cut)
  }

  /** A string neither of whose ends satisfies `cut` is left alone by `Trim`. */
  lemma TrimUntouched(s: string, cut: char -> bool)
    requires |s| > 0 ==> !cut(s[0]) && !cut(s[|s| - 1])
    ensures Trim(s, cut) == s
  {
  }

  predicate IsQuote(c: char) {
    c == '"'
  }

  /** `unicode.IsSpace`: the Latin-1 spaces and the Unicode White_Space set. */
  predicate IsSpace(c: char) {
    var n := c as int;
    n == 0x09 || n == 0x0A || n == 0x0B || n == 0x0C || n == 0x0D || n == 0x20
    || n == 0x85 || n == 0xA0 || n == 0x1680 || (0x2000 <= n <= 0x200A)
    || n == 0x2028 || n == 0x2029 || n == 0x202F || n == 0x205F || n == 0x3000
  }

  /** `strings.Trim(s, "\"")`. */
  function TrimQuotes(s: string): string {
    Trim(s, IsQuote)
  }

  /** `strings.TrimSpace`. */
  function TrimSpace(s: string): string {
    Trim(s, IsSpace)
  }

  // ---------------------------------------------------------------------------
  // Decimal rendering (strconv.Itoa) and its inverse
  // ---------------------------------------------------------------------------

  predicate IsDigit(c: char) {
    '0' <= c <= '9'
  }

  function DigitChar(d: nat): (c: char)
    requires d < 10
    ensures IsDigit(c)
  {
    ('0' as int + d) as char
  }

  function DigitValue(c: char): nat
    requires IsDigit(c)
  {
    c as int - '0' as int
  }

  /** The decimal digits of `n`, most significant first, without leading zeros. */
  function NatDigits(n: nat): (s: string)
    ensures |s| > 0
    ensures forall i | 0 <= i < |s| :: IsDigit(s[i])
    ensures n > 0 ==> s[0] != '0'
    decreases n
  {
    if n < 10 then [DigitChar(n)] else NatDigits(n / 10) + [DigitChar(n % 10)]
  }

  /** `strconv.Itoa`: an optional minus sign followed by the digits. */
  function Decimal(n: int): (s: string)
    ensures |s| > 0
    ensures IsDigit(s[|s| - 1])
    ensures s[0] == '-' || IsDigit(s[0])
  {
    if n < 0 then "-" + NatDigits(-n) else NatDigits(n)
  }

  /** The rendering is canonical, as `strconv.Itoa`'s is: a minus sign
      exactly for a negative number, no leading zero and no negative zero. */
  lemma DecimalCanonical(n: int)
    ensures (Decimal(n)[0] == '-') <==> n < 0
    ensures |Decimal(n)| > 1 && Decimal(n)[0] != '-' ==> Decimal(n)[0] != '0'
    ensures Decimal(n) != "-0"
  {
  }

  predicate AllDigits(s: string) {
    forall i | 0 <= i < |s| :: IsDigit(s[i])
  }

  /** The number a string of decimal digits denotes. */
  function DigitsValue(s: string): nat
    requires AllDigits(s)
    decreases |s|
  {
    if |s| == 0 then 0 else 10 * DigitsValue(s[..|s| - 1]) + DigitValue(s[|s| - 1])
  }

  /** Reads back what `Decimal` writes: an optional `-` and at least one digit. */
  function ParseDecimal(s: string): Option<int> {
    if |s| > 1 && s[0] == '-' && AllDigits(s[1..]) then Some(0 - DigitsValue(s[1..]) as int)
    else if |s| > 0 && AllDigits(s) then Some(DigitsValue(s))
    else None
  }

  lemma {:induction false} NatDigitsValue(n: nat)
    ensures DigitsValue(NatDigits(n)) == n
    decreases n
  {
    var s := NatDigits(n);
    if n >= 10 {
      NatDigitsValue(n / 10);
      assert s[..|s| - 1] == NatDigits(n / 10);
    }
  }

  /** Decimal rendering is undone by parsing, so it is injective. */
  lemma DecimalRoundTrip(n: int)
    ensures ParseDecimal(Decimal(n)) == Some(n)
  {
    if n < 0 {
      NatDigitsValue(-n);
      assert Decimal(n)[1..] == NatDigits(-n);
    } else {
      NatDigitsValue(n);
    }
  }

  lemma DecimalInjective(a: int, b: int)
    requires Decimal(a) == Decimal(b)
    ensures a == b
  {
    DecimalRoundTrip(a);
    DecimalRoundTrip(b);
  }
}
