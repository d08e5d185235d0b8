/**
 * Character-level helpers shared by the link-header parser and the error
 * classifier: decimal digits, `parseInt` on a run of digits, the decimal
 * rendering a template literal gives a number, and `String.prototype.includes`.
 */
module Text {

  predicate IsDigit(c: char) {
    '0' <= c <= '9'
  }

  predicate AllDigits(s: string) {
    forall i :: 0 <= i < |s| ==> IsDigit(s[i])
  }

  /** Every character of `s` from index `lo` up to (not including) `hi` is a digit. */
  predicate DigitsBetween(s: string, lo: nat, hi: nat) {
    lo <= hi <= |s| && forall j :: lo <= j < hi ==> IsDigit(s[j])
  }

  lemma DigitsBetweenSlice(s: string, lo: nat, hi: nat)
    requires DigitsBetween(s, lo, hi)
    ensures AllDigits(s[lo..hi])
  {
  }

  function DigitValue(c: char): (v: nat)
    requires IsDigit(c)
    ensures v < 10
  {
    c as int - '0' as int
  }

  function DigitChar(v: nat): (c: char)
    requires v < 10
    ensures IsDigit(c) && DigitValue(c) == v
  {
    ('0' as int + v) as char
  }

  /** `parseInt(s, 10)` for a non-empty run of decimal digits (leading zeros allowed). */
  function DecimalValue(s: string): (n: nat)
    requires AllDigits(s)
    ensures |s| > 0 && s[0] == '0' ==> n == DecimalValue(s[1..])
    decreases |s|
  {
    if s == [] then 0
    else
      assert |s| > 1 ==> s[..|s| - 1][1..] == s[1..][..|s[1..]| - 1];
      DecimalValue(s[..|s| - 1]) * 10 + DigitValue(s[|s| - 1])
  }

  /** The decimal text of `n`, as `${n}` renders a non-negative integer. */
  function DecimalString(n: nat): (s: string)
    ensures |s| >= 1 && AllDigits(s)
    ensures (s[0] == '0') == (n == 0)
    decreases n
  {
    if n < 10 then [DigitChar(n)] else DecimalString(n / 10) + [DigitChar(n % 10)]
  }

  /** Reading back the rendering of a number gives the number. */
  lemma {:induction false} DecimalRoundTrip(n: nat)
    ensures DecimalValue(DecimalString(n)) == n
    decreases n
  {
    if n >= 10 {
      var front := DecimalString(n / 10);
      var s := front + [DigitChar(n % 10)];
      assert s[..|s| - 1] == front;
      DecimalRoundTrip(n / 10);
    }
  }

  /** Distinct numbers render differently. */
  lemma DecimalStringInjective(m: nat, n: nat)
    requires DecimalString(m) == DecimalString(n)
    ensures m == n
  {
    DecimalRoundTrip(m);
    DecimalRoundTrip(n);
  }

  /** Every three-digit number renders as exactly three characters. */
  lemma {:induction false} DecimalStringOfThreeDigits(n: nat)
    requires 100 <= n < 1000
    ensures |DecimalString(n)| == 3
  {
    assert 10 <= n / 10 < 100;
    assert 1 <= n / 10 / 10 < 10;
    assert |DecimalString(n / 10 / 10)| == 1;
    assert |DecimalString(n / 10)| == 2;
  }

  /** `p` occurs in `s` starting at index `i`. */
  predicate OccursAt(s: string, p: string, i: int) {
    0 <= i && i + |p| <= |s| && s[i..i + |p|] == p
  }

  /** `s.includes(p)`: `p` occurs somewhere in `s` as a contiguous substring. */
  predicate Contains(s: string, p: string) {
    exists i | 0 <= i <= |s| :: OccursAt(s, p, i)
  }

  /**
   * When a text free of digits is followed by `ds`, a pattern made only of
   * digits occurs in the whole text exactly when it occurs in `ds`.
   */
  lemma ContainsDigitsAfterText(pre: string, ds: string, p: string)
    requires forall i :: 0 <= i < |pre| ==> !IsDigit(pre[i])
    requires |p| >= 1 && AllDigits(p)
    ensures Contains(pre + ds, p) <==> Contains(ds, p)
  {
    var s := pre + ds;
    if Contains(s, p) {
      var i :| OccursAt(s, p, i);
      assert OccursAt(s, p, i);
      assert IsDigit(s[i]) by { assert s[i] == p[0]; }
      assert i >= |pre|;
      var at := i - |pre|;
      assert ds[at..at + |p|] == s[i..i + |p|];
      assert OccursAt(ds, p, at);
    }
    if Contains(ds, p) {
      var j :| OccursAt(ds, p, j);
      assert OccursAt(ds, p, j);
      var at := |pre| + j;
      assert s[at..at + |p|] == ds[j..j + |p|];
      assert OccursAt(s, p, at);
    }
  }
}
