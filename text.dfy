/**
 * Characters and strings as JavaScript's regular expressions and `String.prototype.trim` see them:
 * the `\s`, `\d` and `.` classes, runs of one class, trimming, and decimal numerals.
 */
module Text {

  /** JavaScript `\s`: the WhiteSpace and LineTerminator code points. `trim` strips the same set. */
  predicate IsSpace(c: char) {
    ('\t' <= c <= '\r') || c == ' ' || c == '\U{00A0}' || c == '\U{1680}' ||
    ('\U{2000}' <= c <= '\U{200A}') || c == '\U{2028}' || c == '\U{2029}' ||
    c == '\U{202F}' || c == '\U{205F}' || c == '\U{3000}' || c == '\U{FEFF}'
  }

  /** The line terminators, the characters a regular expression's `.` does not match. */
  predicate IsLineTerminator(c: char) {
    c == '\n' || c == '\r' || c == '\U{2028}' || c == '\U{2029}'
  }

  /** JavaScript `\d`. */
  predicate IsDigit(c: char) {
    '0' <= c <= '9'
  }

  /** The three character classes the patterns use. */
  datatype CharClass = Space | Digit | Dot

  predicate InClass(c: char, k: CharClass) {
    match k
    case Space => IsSpace(c)
    case Digit => IsDigit(c)
    case Dot => !IsLineTerminator(c)
  }

  /** Every character of s[lo..hi] belongs to class k. */
  predicate AllIn(s: string, lo: nat, hi: nat, k: CharClass)
    requires lo <= hi <= |s|
  {
    forall i :: lo <= i < hi ==> InClass(s[i], k)
  }

  /** The end of the longest run of class-k characters that starts at lo. */
  function RunEnd(s: string, lo: nat, k: CharClass): (e: nat)
    requires lo <= |s|
    ensures lo <= e <= |s|
    ensures AllIn(s, lo, e, k)
    ensures e == |s| || !InClass(s[e], k)
    decreases |s| - lo
  {
    if lo == |s| || !InClass(s[lo], k) then lo else RunEnd(s, lo + 1, k)
  }

  /** A run of class k that starts at lo never reaches past RunEnd, and one that stops where
      the class stops is exactly the run RunEnd finds. */
  lemma RunEndMaximal(s: string, lo: nat, x: nat, k: CharClass)
    requires lo <= x <= |s| && AllIn(s, lo, x, k)
    ensures x <= RunEnd(s, lo, k)
    ensures (x == |s| || !InClass(s[x], k)) ==> x == RunEnd(s, lo, k)
  {
  }

  /** The end of the white space that closes s[lo..hi]: s[lo..e] keeps no trailing white space
      and s[e..hi] is all white space. */
  function SpaceSuffixStart(s: string, lo: nat, hi: nat): (e: nat)
    requires lo <= hi <= |s|
    ensures lo <= e <= hi
    ensures AllIn(s, e, hi, Space)
    ensures e == lo || !IsSpace(s[e - 1])
    decreases hi - lo
  {
    if hi == lo || !IsSpace(s[hi - 1]) then hi else SpaceSuffixStart(s, lo, hi - 1)
  }

  /** `String.prototype.trim`: the slice of s left once the white space at both ends is gone. */
  function Trim(s: string): (t: string)
    ensures |t| <= |s|
    ensures t == [] || (!IsSpace(t[0]) && !IsSpace(t[|t| - 1]))
    ensures t == [] <==> AllIn(s, 0, |s|, Space)
    ensures exists i :: 0 <= i <= |s| - |t| && t == s[i..i + |t|] &&
                        AllIn(s, 0, i, Space) && AllIn(s, i + |t|, |s|, Space)
  {
    var lo := RunEnd(s, 0, Space);
    var hi := SpaceSuffixStart(s, lo, |s|);
    assert lo < hi ==> s[lo..hi][0] == s[lo] && s[lo..hi][hi - lo - 1] == s[hi - 1];
    assert AllIn(s, 0, |s|, Space) ==> lo == |s| by {
      if AllIn(s, 0, |s|, Space) {
        RunEndMaximal(s, 0, |s|, Space);
      }
    }
    s[lo..hi]
  }

  /** Text with no white space at either end is its own trim. */
  lemma TrimOfTrimmed(s: string)
    requires s == [] || (!IsSpace(s[0]) && !IsSpace(s[|s| - 1]))
    ensures Trim(s) == s
  {
    if s != [] {
      assert RunEnd(s, 0, Space) == 0;
      assert SpaceSuffixStart(s, 0, |s|) == |s|;
    }
    assert s[0..|s|] == s;
  }

  /** Trimming twice is trimming once. */
  lemma TrimIdempotent(s: string)
    ensures Trim(Trim(s)) == Trim(s)
  {
    TrimOfTrimmed(Trim(s));
  }

  predicate AllDigits(s: string) {
    forall i :: 0 <= i < |s| ==> IsDigit(s[i])
  }

  function DigitValue(c: char): (d: nat)
    requires IsDigit(c)
    ensures d < 10
  {
    c as int - '0' as int
  }

  function DigitChar(d: nat): (c: char)
    requires d < 10
    ensures IsDigit(c) && DigitValue(c) == d
  {
    ('0' as int + d) as char
  }

  function Pow10(k: nat): (p: nat)
    ensures p >= 1
  {
    if k == 0 then 1 else 10 * Pow10(k - 1)
  }

  /** `parseInt` of a string of decimal digits (the only strings the model hands to it). */
  function DecimalValue(ds: string): (v: nat)
    requires AllDigits(ds)
    ensures v < Pow10(|ds|)
  {
    if ds == [] then 0 else DecimalValue(ds[..|ds| - 1]) * 10 + DigitValue(ds[|ds| - 1])
  }

  /** The decimal numeral JavaScript prints for a non-negative integer (`${n}`). */
  function NatToString(n: nat): (s: string)
    ensures |s| > 0 && AllDigits(s)
  {
    if n < 10 then [DigitChar(n)] else NatToString(n / 10) + [DigitChar(n % 10)]
  }

  /** Reading back a printed numeral gives the number. */
  lemma {:induction false} DecimalValueOfNatToString(n: nat)
    ensures DecimalValue(NatToString(n)) == n
  {
    var s := NatToString(n);
    if n >= 10 {
      DecimalValueOfNatToString(n / 10);
      assert s[..|s| - 1] == NatToString(n / 10);
    }
  }

  /** Distinct numbers print as distinct numerals. */
  lemma NatToStringInjective(a: nat, b: nat)
    requires NatToString(a) == NatToString(b)
    ensures a == b
  {
    DecimalValueOfNatToString(a);
    DecimalValueOfNatToString(b);
  }

  /** `String.prototype.startsWith`. */
  predicate StartsWith(s: string, prefix: string) {
    |prefix| <= |s| && s[..|prefix|] == prefix
  }
}
