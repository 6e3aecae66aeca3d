/**
  String helpers with the meaning ECMAScript gives them: the white-space
  class shared by the regular-expression escape `\s` and by
  `String.prototype.trim`, `endsWith`, decimal rendering of a non-negative
  number and `Array.prototype.join`.
 */
module Text {

  /** ECMAScript WhiteSpace and LineTerminator code points. */
  predicate IsSpace(c: char) {
    c == '\t' || c == '\n' || c == '\U{000B}' || c == '\U{000C}' || c == '\r' || c == ' '
    || c == '\U{00A0}' || c == '\U{1680}' || ('\U{2000}' <= c <= '\U{200A}')
    || c == '\U{2028}' || c == '\U{2029}' || c == '\U{202F}' || c == '\U{205F}'
    || c == '\U{3000}' || c == '\U{FEFF}'
  }

  /** Every character of s[lo..hi] is white space. */
  predicate AllSpace(s: string, lo: int, hi: int)
    requires 0 <= lo <= hi <= |s|
  {
    forall k :: lo <= k < hi ==> IsSpace(s[k])
  }

  /** Neither the first nor the last character is white space. */
  predicate IsTrimmed(s: string) {
    |s| == 0 || (!IsSpace(s[0]) && !IsSpace(s[|s| - 1]))
  }

  /** The end of the run of white space that starts at i. */
  function SkipSpace(s: string, i: nat): (j: nat)
    requires i <= |s|
    ensures i <= j <= |s|
    ensures AllSpace(s, i, j)
    ensures j < |s| ==> !IsSpace(s[j])
    decreases |s| - i
  {
    if i < |s| && IsSpace(s[i]) then SkipSpace(s, i + 1) else i
  }

  /** The start of the run of white space that ends at j, not going below lo. */
  function BackSpace(s: string, lo: nat, j: nat): (i: nat)
    requires lo <= j <= |s|
    ensures lo <= i <= j
    ensures AllSpace(s, i, j)
    ensures i > lo ==> !IsSpace(s[i - 1])
    decreases j
  {
    if j > lo && IsSpace(s[j - 1]) then BackSpace(s, lo, j - 1) else j
  }

  /** `String.prototype.trim`: drops the leading and the trailing white space. */
  function Trim(s: string): (r: string)
    ensures IsTrimmed(r)
    ensures exists i, j :: 0 <= i <= j <= |s| && AllSpace(s, 0, i) && AllSpace(s, j, |s|) && r == s[i..j]
  {
    var lo := SkipSpace(s, 0);
    var hi := BackSpace(s, lo, |s|);
    assert AllSpace(s, 0, lo) && AllSpace(s, hi, |s|);
    s[lo..hi]
  }

  /** Trim cuts exactly the white-space runs at both ends: any split of s into
      leading white space, a trimmed middle and trailing white space is the one it finds. */
  lemma TrimUnique(s: string, i: nat, j: nat)
    requires i <= j <= |s|
    requires AllSpace(s, 0, i) && AllSpace(s, j, |s|) && IsTrimmed(s[i..j])
    ensures Trim(s) == s[i..j]
  {
    var lo := SkipSpace(s, 0);
    var hi := BackSpace(s, lo, |s|);
    if i == j {
      // Everything is white space, so both scans meet.
      assert AllSpace(s, 0, |s|) by {
        forall k | 0 <= k < |s| ensures IsSpace(s[k]) {
          if k >= j { assert IsSpace(s[k]); } else { assert IsSpace(s[k]); }
        }
      }
      assert lo == |s|;
      assert hi == |s|;
    } else {
      assert s[i..j][0] == s[i];
      assert !IsSpace(s[i]);
      assert lo == i;
      assert s[i..j][j - i - 1] == s[j - 1];
      assert !IsSpace(s[j - 1]);
      assert hi == j;
    }
  }

  /** A string without white space at either end is its own trim; hence trim is idempotent. */
  lemma TrimOfTrimmed(s: string)
    requires IsTrimmed(s)
    ensures Trim(s) == s
  {
    assert s[0..|s|] == s;
    TrimUnique(s, 0, |s|);
  }

  lemma TrimIdempotent(s: string)
    ensures Trim(Trim(s)) == Trim(s)
  {
    TrimOfTrimmed(Trim(s));
  }

  /** `String.prototype.endsWith`. */
  predicate EndsWith(s: string, suffix: string) {
    |suffix| <= |s| && s[|s| - |suffix|..] == suffix
  }

  function DigitChar(d: nat): (c: char)
    requires d < 10
    ensures '0' <= c <= '9'
  {
    "0123456789"[d]
  }

  /** The decimal numeral of a character that is a digit. */
  function DigitValue(c: char): nat
    requires '0' <= c <= '9'
  {
    c as int - '0' as int
  }

  /** Decimal rendering of a non-negative integer, as a template literal prints it. */
  function NatToString(n: nat): (r: string)
    ensures |r| > 0
    ensures forall k :: 0 <= k < |r| ==> '0' <= r[k] <= '9'
    ensures |r| > 1 ==> r[0] != '0'
    decreases n
  {
    if n < 10 then [DigitChar(n)] else NatToString(n / 10) + [DigitChar(n % 10)]
  }

  /** The number a string of decimal digits denotes. */
  function DecimalValue(s: string): nat
    requires forall k :: 0 <= k < |s| ==> '0' <= s[k] <= '9'
  {
    if s == [] then 0 else DecimalValue(s[..|s| - 1]) * 10 + DigitValue(s[|s| - 1])
  }

  /** Reading the rendered numeral back gives the number. */
  lemma {:induction false} DecimalRoundTrip(n: nat)
    ensures DecimalValue(NatToString(n)) == n
    decreases n
  {
    var r := NatToString(n);
    if n < 10 {
      assert r[..0] == [];
    } else {
      DecimalRoundTrip(n / 10);
      assert r[..|r| - 1] == NatToString(n / 10);
    }
  }

  /** Distinct numbers render differently. */
  lemma NatToStringInjective(m: nat, n: nat)
    requires NatToString(m) == NatToString(n)
    ensures m == n
  {
    DecimalRoundTrip(m);
    DecimalRoundTrip(n);
  }

  /** `Array.prototype.join(sep)` on strings. */
  function Join(xs: seq<string>, sep: string): (r: string)
    ensures xs == [] ==> r == ""
    ensures |xs| == 1 ==> r == xs[0]
    ensures xs != [] ==> |r| >= |xs[0]|
  {
    if |xs| == 0 then "" else if |xs| == 1 then xs[0] else xs[0] + sep + Join(xs[1..], sep)
  }
}
