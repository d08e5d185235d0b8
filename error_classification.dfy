/**
 * How the stats handler turns the exception it caught into the two lines of
 * its error badge. A profile response that is not ok throws an `Error`
 * whose message embeds the status; the catch block then looks for the
 * substrings "403" and "404" in whatever message it caught, in that order.
 */
module ErrorClassification {
  import opened Text

  const ErrorPrefix: string := "GitHub API error: "

  /** The message of the `Error` thrown for a profile response that is not ok. */
  function StatusMessage(status: nat): (m: string)
    ensures |m| > |ErrorPrefix| && m[..|ErrorPrefix|] == ErrorPrefix
    ensures AllDigits(m[|ErrorPrefix|..]) && DecimalValue(m[|ErrorPrefix|..]) == status
  {
    DecimalRoundTrip(status);
    assert (ErrorPrefix + DecimalString(status))[|ErrorPrefix|..] == DecimalString(status);
    ErrorPrefix + DecimalString(status)
  }

  /** `errorMessage` and `subMessage` of the error badge. */
  datatype ErrorDisplay = ErrorDisplay(errorMessage: string, subMessage: string)

  const RateLimited: ErrorDisplay := ErrorDisplay("Rate limit exceeded", "Add GITHUB_TOKEN or try again later")
  const UserNotFound: ErrorDisplay := ErrorDisplay("User not found", "Check the username")
  const LoadFailed: ErrorDisplay := ErrorDisplay("Error loading stats", "Check GitHub token or username")

  /** The catch block's `if (...includes('403')) ... else if (...includes('404'))` chain. */
  function Classify(message: string): (d: ErrorDisplay)
    ensures d == RateLimited <==> Contains(message, "403")
    ensures d == UserNotFound <==> !Contains(message, "403") && Contains(message, "404")
    ensures d == LoadFailed <==> !Contains(message, "403") && !Contains(message, "404")
  {
    if Contains(message, "403") then RateLimited
    else if Contains(message, "404") then UserNotFound
    else LoadFailed
  }

  /** Both substrings present: the "403" test comes first, so the rate-limit message wins. */
  lemma RateLimitCheckedFirst(message: string)
    requires Contains(message, "403") && Contains(message, "404")
    ensures Classify(message) == RateLimited
  {
  }

  /** Neither substring present: the default message. */
  lemma UnrecognisedMessage(message: string)
    requires !Contains(message, "403") && !Contains(message, "404")
    ensures Classify(message) == LoadFailed
  {
  }

  /** The fixed prefix holds no digit, so only the status's own digits can produce "403" or "404". */
  lemma StatusMessageDigits(status: nat, code: string)
    requires code == "403" || code == "404"
    ensures Contains(StatusMessage(status), code) <==> Contains(DecimalString(status), code)
  {
    ContainsDigitsAfterText(ErrorPrefix, DecimalString(status), code);
  }

  /** A pattern as long as the text occurs in it only by being equal to it. */
  lemma ContainsSameLength(s: string, p: string)
    requires |s| == |p|
    ensures Contains(s, p) <==> s == p
  {
    if s == p {
      assert OccursAt(s, p, 0);
    }
  }

  /** A three-digit status contains one of the two codes only by being that code. */
  lemma ThreeDigitCode(status: nat, code: nat)
    requires 100 <= status < 1000 && 100 <= code < 1000
    ensures Contains(DecimalString(status), DecimalString(code)) <==> status == code
  {
    DecimalStringOfThreeDigits(status);
    DecimalStringOfThreeDigits(code);
    ContainsSameLength(DecimalString(status), DecimalString(code));
    if DecimalString(status) == DecimalString(code) {
      DecimalStringInjective(status, code);
    }
  }

  lemma DecimalStringOfCodes()
    ensures DecimalString(403) == "403" && DecimalString(404) == "404"
  {
    assert DecimalString(4) == "4";
    assert DecimalString(40) == "40";
  }

  /**
   * For every real HTTP status (three digits), the error badge says "Rate
   * limit exceeded" exactly for 403, "User not found" exactly for 404, and
   * gives the default message for every other status.
   */
  lemma ClassifyHttpStatus(status: nat)
    requires 100 <= status < 1000
    ensures Classify(StatusMessage(status)) == RateLimited <==> status == 403
    ensures Classify(StatusMessage(status)) == UserNotFound <==> status == 404
    ensures Classify(StatusMessage(status)) == LoadFailed <==> status != 403 && status != 404
  {
    DecimalStringOfCodes();
    StatusMessageDigits(status, "403");
    StatusMessageDigits(status, "404");
    ThreeDigitCode(status, 403);
    ThreeDigitCode(status, 404);
  }
}
