/**
 * The loop of the stats handler that walks the repository listing and
 * updates `totalCommits`, `totalAdditions` and `totalDeletions` in place.
 * Each `await fetch(...)` reads the answer stored for the repository. The
 * loop body is split into its two steps; each takes the current counters
 * and returns them updated. A `throw` inside the per-repository `try` is
 * an out-parameter `threw`, after which the rest of that repository is
 * skipped; the statistics `try` is a `match` whose failing cases add
 * nothing.
 */
module Aggregator {
  import opened Options
  import opened LinkHeader
  import opened Upstream
  import opened Contributions

  /**
   * The commit-count step: adds the last page number of the `Link` header,
   * or the length of the body when there is no header; `threw` reports the
   * exception that ends the repository's turn.
   */
  method CountCommits(c: CommitsResponse, totalCommits: nat) returns (newCommits: nat, threw: bool)
    ensures threw <==> CommitStep(c).None?
    ensures newCommits == totalCommits + CommitStep(c).GetOr(0)
  {
    newCommits, threw := totalCommits, false;
    match c {
      case CommitsFetchFailed =>
        threw := true;
      case CommitsNotOk =>
      case CommitsOk(link, body) =>
        if HasLinkHeader(link) {
          var lastPage := LastPage(link.value);
          if lastPage.Some? {
            newCommits := newCommits + lastPage.value;
          }
        } else {
          match body {
            case CommitList(n) =>
              newCommits := newCommits + n;
            case CommitsMalformed =>
              threw := true;
          }
        }
    }
  }

  /**
   * `userStats.weeks.forEach(week => { ... })`: adds `week.a || 0` and
   * `week.d || 0` week by week, and stops at a `null` week, whose property
   * access throws; what was added before stays.
   */
  method AddWeeks(weeks: seq<WeekEntry>, totalAdditions: nat, totalDeletions: nat)
    returns (newAdditions: nat, newDeletions: nat)
    ensures newAdditions == totalAdditions + WeeksTotal(weeks).additions
    ensures newDeletions == totalDeletions + WeeksTotal(weeks).deletions
  {
    newAdditions, newDeletions := totalAdditions, totalDeletions;
    var j := 0;
    while j < |weeks| && weeks[j].Week?
      invariant 0 <= j <= |weeks|
      invariant AllWeeks(weeks[..j])
      invariant newAdditions == totalAdditions + WeeksTotal(weeks[..j]).additions
      invariant newDeletions == totalDeletions + WeeksTotal(weeks[..j]).deletions
    {
      newAdditions := newAdditions + OrZero(weeks[j].a);
      newDeletions := newDeletions + OrZero(weeks[j].d);
      assert weeks[..j + 1] == weeks[..j] + [weeks[j]];
      WeeksTotalStep(weeks[..j], weeks[j]);
      j := j + 1;
    }
    if j < |weeks| {
      assert weeks == weeks[..j] + [NullWeek] + weeks[j + 1..];
      NullWeekKeepsEarlierWeeks(weeks[..j], weeks[j + 1..]);
    } else {
      assert weeks[..j] == weeks;
    }
  }

  /**
   * The line-statistics step: finds the user's entry among the contributors
   * and adds its weekly sums. A failed request adds nothing; a body that is
   * not an array, does not parse, or makes `find` throw adds nothing either.
   */
  method AddLineStats(username: string, s: StatsResponse, totalAdditions: nat, totalDeletions: nat)
    returns (newAdditions: nat, newDeletions: nat)
    ensures newAdditions == totalAdditions + StatsStep(username, s).additions
    ensures newDeletions == totalDeletions + StatsStep(username, s).deletions
  {
    newAdditions, newDeletions := totalAdditions, totalDeletions;
    match s {
      case StatsFetchFailed =>
      case StatsNotOk =>
      case StatsOk(body) =>
        match body {
          case NotAList =>
          case StatsMalformed =>
          case ContributorList(es) =>
            var userStats := FindContributor(username, es);
            if userStats.Found? && userStats.entry.weeks.WeekList? {
              newAdditions, newDeletions := AddWeeks(userStats.entry.weeks.entries, newAdditions, newDeletions);
            }
        }
    }
  }

  /**
   * One turn of the loop: the per-repository `try`, with the commit-count
   * step and, unless that step threw, the line-statistics step.
   */
  method VisitRepository(username: string, repo: RepoResponses, totalCommits: nat, totalAdditions: nat, totalDeletions: nat)
    returns (newCommits: nat, newAdditions: nat, newDeletions: nat)
    ensures Totals(newCommits, newAdditions, newDeletions)
            == Plus(Totals(totalCommits, totalAdditions, totalDeletions), RepoContribution(username, repo))
  {
    RepoContributionFields(username, repo);
    ghost var added := RepoContribution(username, repo);
    var threw;
    newCommits, threw := CountCommits(repo.commits, totalCommits);
    newAdditions, newDeletions := totalAdditions, totalDeletions;
    if !threw {
      newAdditions, newDeletions := AddLineStats(username, repo.stats, newAdditions, newDeletions);
    }
    PlusFields(Totals(totalCommits, totalAdditions, totalDeletions), added, Totals(newCommits, newAdditions, newDeletions));
  }

  /** The whole loop: the counters end as the left fold of the per-repository contributions. */
  method Aggregate(username: string, repos: seq<RepoResponses>) returns (totals: Totals)
    ensures totals == Accumulated(username, repos)
  {
    var totalCommits: nat, totalAdditions: nat, totalDeletions: nat := 0, 0, 0;
    for i := 0 to |repos|
      invariant Totals(totalCommits, totalAdditions, totalDeletions) == Accumulated(username, repos[..i])
    {
      totalCommits, totalAdditions, totalDeletions :=
        VisitRepository(username, repos[i], totalCommits, totalAdditions, totalDeletions);
      AccumulatedStep(username, repos, i);
    }
    assert repos[..|repos|] == repos;
    totals := Totals(totalCommits, totalAdditions, totalDeletions);
  }
}
