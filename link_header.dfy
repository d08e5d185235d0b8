/**
 * The commit-count heuristic reads the `Link` response header (RFC 8288,
 * section 3) only through one regular expression, `/page=(\d+)>; rel="last"/`,
 * whose first capture group is handed to `parseInt`. It does not parse the
 * header's grammar. This module models that search: `MatchesWith` is the
 * pattern's meaning, `LastPage` a leftmost-first scan, and the lemmas tie
 * the two together.
 */
module LinkHeader {
  import opened Options
  import opened Text

  const PagePrefix: string := "page="
  const LastRelation: string := ">; rel=\"last\""
  const NextRelation: string := ">; rel=\"next\""

  /** How many characters the greedy `\d+` consumes from index `i`. */
  function DigitRun(h: string, i: nat): (k: nat)
    requires i <= |h|
    ensures DigitsBetween(h, i, i + k)
    ensures i + k == |h| || !IsDigit(h[i + k])
    decreases |h| - i
  {
    if i < |h| && IsDigit(h[i]) then 1 + DigitRun(h, i + 1) else 0
  }

  /** A maximal run of `k` digits from `i` is what `DigitRun` measures. */
  lemma {:induction false} DigitRunIs(h: string, i: nat, k: nat)
    requires DigitsBetween(h, i, i + k)
    requires i + k == |h| || !IsDigit(h[i + k])
    ensures DigitRun(h, i) == k
    decreases k
  {
    if k > 0 {
      DigitRunIs(h, i + 1, k - 1);
    }
  }

  /**
   * The pattern matches `h` at index `i` with `k` digits in its capture group:
   * `page=`, then `k >= 1` decimal digits, then `>; rel="last"`.
   */
  predicate MatchesWith(h: string, i: nat, k: nat) {
    var d := i + |PagePrefix|;
    && k >= 1
    && d + k + |LastRelation| <= |h|
    && h[i..d] == PagePrefix
    && DigitsBetween(h, d, d + k)
    && h[d + k..d + k + |LastRelation|] == LastRelation
  }

  /** A match's digits are the whole run that `\d+` can take: `>` is not a digit. */
  lemma MatchUsesWholeRun(h: string, i: nat, k: nat)
    requires MatchesWith(h, i, k)
    ensures k == DigitRun(h, i + |PagePrefix|)
  {
    var d := i + |PagePrefix|;
    assert h[d + k] == '>' by {
      assert h[d + k] == h[d + k..d + k + |LastRelation|][0];
    }
    DigitRunIs(h, d, k);
  }

  /** The text of the capture group `(\d+)` of a match at `i` with `k` digits. */
  function Captured(h: string, i: nat, k: nat): (ds: string)
    requires MatchesWith(h, i, k)
    ensures |ds| == k && AllDigits(ds)
  {
    DigitsBetweenSlice(h, i + |PagePrefix|, i + |PagePrefix| + k);
    h[i + |PagePrefix|..i + |PagePrefix| + k]
  }

  /** The pattern matches at no index in `[lo, hi)`, with any number of digits. */
  ghost predicate NoMatchBetween(h: string, lo: nat, hi: nat) {
    forall j: nat, k: nat :: lo <= j < hi ==> !MatchesWith(h, j, k)
  }

  /** A match at `i` with none starting further left: the one `String.prototype.match` reports. */
  ghost predicate LeftmostMatch(h: string, i: nat, k: nat) {
    MatchesWith(h, i, k) && NoMatchBetween(h, 0, i)
  }

  /**
   * Whether the pattern matches at `i`, and with how many digits. At most one
   * digit count can match: `>` is not a digit, so the digits must be the
   * whole run.
   */
  function MatchLength(h: string, i: nat): (r: Option<nat>)
    requires i <= |h|
    ensures forall k: nat :: MatchesWith(h, i, k) <==> r == Some(k)
  {
    var d := i + |PagePrefix|;
    if d <= |h| && h[i..d] == PagePrefix then
      var k := DigitRun(h, d);
      forall k': nat | MatchesWith(h, i, k') ensures k' == k {
        MatchUsesWholeRun(h, i, k');
      }
      if k >= 1 && d + k + |LastRelation| <= |h| && h[d + k..d + k + |LastRelation|] == LastRelation then
        Some(k)
      else
        None
    else
      None
  }

  /** Scan for the leftmost match from index `i` on and `parseInt` its digits. */
  function LastPageFrom(h: string, i: nat): Option<nat>
    requires i <= |h|
    decreases |h| - i
  {
    if i == |h| then None
    else
      match MatchLength(h, i)
      case Some(k) => Some(DecimalValue(Captured(h, i, k)))
      case None => LastPageFrom(h, i + 1)
  }

  /** `linkHeader.match(/page=(\d+)>; rel="last"/)` followed by `parseInt` of group 1. */
  function LastPage(h: string): (r: Option<nat>)
    ensures r.None? <==> forall i: nat, k: nat :: !MatchesWith(h, i, k)
  {
    LastPageFromNone(h, 0);
    LastPageFrom(h, 0)
  }

  // ----- the scan against the pattern's meaning

  lemma {:induction false} LastPageFromLeftmost(h: string, start: nat, i: nat, k: nat)
    requires start <= i && MatchesWith(h, i, k)
    requires forall j: nat, k': nat :: start <= j < i ==> !MatchesWith(h, j, k')
    ensures LastPageFrom(h, start) == Some(DecimalValue(Captured(h, i, k)))
    decreases i - start
  {
    if start < i {
      assert MatchLength(h, start).None?;
      LastPageFromLeftmost(h, start + 1, i, k);
    } else {
      assert MatchLength(h, i) == Some(k);
    }
  }

  lemma {:induction false} LastPageFromNone(h: string, start: nat)
    requires start <= |h|
    ensures LastPageFrom(h, start).None? <==> forall j: nat, k: nat :: start <= j ==> !MatchesWith(h, j, k)
    decreases |h| - start
  {
    if start < |h| {
      LastPageFromNone(h, start + 1);
      if MatchLength(h, start).None? {
        forall j: nat, k: nat | start <= j && MatchesWith(h, j, k) ensures start + 1 <= j {
        }
      } else {
        assert MatchesWith(h, start, MatchLength(h, start).value);
      }
    } else {
      forall j: nat, k: nat | start <= j ensures !MatchesWith(h, j, k) {
      }
    }
  }

  /** A match anywhere from `start` means a leftmost one from `start`. */
  lemma {:induction false} LeftmostFrom(h: string, start: nat, i: nat, k: nat)
    requires start <= i && MatchesWith(h, i, k)
    ensures exists j: nat, k': nat :: start <= j <= i && MatchesWith(h, j, k') && NoMatchBetween(h, start, j)
    decreases i - start
  {
    var m := MatchLength(h, start);
    if m.Some? {
      assert MatchesWith(h, start, m.value) && NoMatchBetween(h, start, start);
    } else {
      assert start != i by { assert !MatchesWith(h, start, k); }
      LeftmostFrom(h, start + 1, i, k);
      var j: nat, k': nat :| start + 1 <= j <= i && MatchesWith(h, j, k') && NoMatchBetween(h, start + 1, j);
      assert NoMatchBetween(h, start, j);
    }
  }

  /**
   * The parser's specification: the header yields `n` exactly when the
   * leftmost match of the pattern captures digits whose value is `n`, and
   * yields nothing exactly when the pattern matches nowhere.
   */
  lemma LastPageSpec(h: string, n: nat)
    ensures LastPage(h) == Some(n) <==>
      exists i: nat, k: nat :: LeftmostMatch(h, i, k) && n == DecimalValue(Captured(h, i, k))
    ensures LastPage(h).None? <==> forall i: nat, k: nat :: !MatchesWith(h, i, k)
  {
    LastPageFromNone(h, 0);
    if exists i: nat, k: nat :: LeftmostMatch(h, i, k) && n == DecimalValue(Captured(h, i, k)) {
      var i: nat, k: nat :| LeftmostMatch(h, i, k) && n == DecimalValue(Captured(h, i, k));
      LastPageFromLeftmost(h, 0, i, k);
    }
    if LastPage(h) == Some(n) {
      var i: nat, k: nat :| MatchesWith(h, i, k);
      LeftmostFrom(h, 0, i, k);
      var j: nat, k': nat :| j <= i && MatchesWith(h, j, k') && NoMatchBetween(h, 0, j);
      assert LeftmostMatch(h, j, k');
      LastPageFromLeftmost(h, 0, j, k');
    }
  }

  // ----- the shapes GitHub's `Link` header takes

  /** A `rel="last"` link whose URL ends in `page=N` yields exactly `N`. */
  lemma LastLinkYieldsPage(n: nat, rest: string)
    ensures LastPage(PagePrefix + DecimalString(n) + LastRelation + rest) == Some(n)
  {
    var ds := DecimalString(n);
    var h := PagePrefix + ds + LastRelation + rest;
    var k := |ds|;
    assert h[..|PagePrefix|] == PagePrefix;
    assert h[|PagePrefix|..|PagePrefix| + k] == ds;
    assert h[|PagePrefix| + k..|PagePrefix| + k + |LastRelation|] == LastRelation;
    assert MatchesWith(h, 0, k);
    LastPageFromLeftmost(h, 0, 0, k);
    DecimalRoundTrip(n);
  }

  /** A `page=N` followed by a `rel="next"` link is not a match, whatever surrounds it. */
  lemma NextLinkDoesNotMatch(pre: string, n: nat, rest: string)
    ensures forall k: nat :: !MatchesWith(pre + PagePrefix + DecimalString(n) + NextRelation + rest, |pre|, k)
  {
    var ds := DecimalString(n);
    var h := pre + PagePrefix + ds + NextRelation + rest;
    var d := |pre| + |PagePrefix|;
    assert h[|pre|..d] == PagePrefix;
    assert DigitsBetween(h, d, d + |ds|) by {
      forall j | d <= j < d + |ds| ensures h[j] == ds[j - d] { }
    }
    assert h[d + |ds|..d + |ds| + |NextRelation|] == NextRelation;
    DigitRunIs(h, d, |ds|);
    assert MatchLength(h, |pre|).None?;
  }

  /** The `per_page=1&` in the request URL is not a match: the digits are followed by `&`, not `>`. */
  lemma PerPageDoesNotMatch(pre: string, n: nat, rest: string)
    ensures forall k: nat :: !MatchesWith(pre + PagePrefix + DecimalString(n) + "&" + rest, |pre|, k)
  {
    var ds := DecimalString(n);
    var h := pre + PagePrefix + ds + "&" + rest;
    var d := |pre| + |PagePrefix|;
    assert h[|pre|..d] == PagePrefix;
    assert DigitsBetween(h, d, d + |ds|) by {
      forall j | d <= j < d + |ds| ensures h[j] == ds[j - d] { }
    }
    assert h[d + |ds|] == '&';
    DigitRunIs(h, d, |ds|);
    assert MatchLength(h, |pre|).None?;
  }
}
