/**
 * What one repository adds to the three counters of the stats handler,
 * and the left fold of those additions over the listing: the pure
 * specification the imperative loop in module Aggregator is proved against.
 */
module Contributions {
  import opened Options
  import opened Text
  import opened LinkHeader
  import opened Upstream

  /** `totalCommits`, `totalAdditions` and `totalDeletions`. */
  datatype Totals = Totals(commits: nat, additions: nat, deletions: nat)

  const Zero: Totals := Totals(0, 0, 0)

  function Plus(t: Totals, u: Totals): Totals {
    Totals(t.commits + u.commits, t.additions + u.additions, t.deletions + u.deletions)
  }

  lemma PlusZero(t: Totals)
    ensures Plus(Zero, t) == t && Plus(t, Zero) == t
  {
  }

  lemma PlusFields(t: Totals, u: Totals, v: Totals)
    requires v.commits == t.commits + u.commits
    requires v.additions == t.additions + u.additions
    requires v.deletions == t.deletions + u.deletions
    ensures v == Plus(t, u)
  {
  }

  lemma PlusSwap(t: Totals, u: Totals, v: Totals)
    ensures Plus(Plus(t, u), v) == Plus(Plus(t, v), u)
  {
  }

  lemma PlusAssociative(t: Totals, u: Totals, v: Totals)
    ensures Plus(Plus(t, u), v) == Plus(t, Plus(u, v))
  {
  }

  /** Adding `n` commits to counters that hold only lines. */
  lemma PlusLinesOnly(n: nat, t: Totals)
    requires t.commits == 0
    ensures Plus(Totals(n, 0, 0), t) == Totals(n, t.additions, t.deletions)
  {
  }

  /** No counter of `t` exceeds the same counter of `u`. */
  predicate AtMost(t: Totals, u: Totals) {
    t.commits <= u.commits && t.additions <= u.additions && t.deletions <= u.deletions
  }

  /** `field || 0` for a count that may be missing. */
  function OrZero(field: Option<nat>): nat {
    field.GetOr(0)
  }

  // ----- the commit-count step

  /** `if (linkHeader)`: the header is there and, being a string, truthy only when non-empty. */
  predicate HasLinkHeader(link: Option<string>) {
    link.Some? && link.value != ""
  }

  /**
   * The commits the commit-count step adds, or `None` when the step throws
   * (the fetch rejected, or the body without a link header does not parse),
   * which the per-repository catch turns into skipping the rest of it.
   */
  function CommitStep(c: CommitsResponse): (r: Option<nat>)
    ensures r.None? <==> c.CommitsFetchFailed? || (c.CommitsOk? && !HasLinkHeader(c.link) && c.body.CommitsMalformed?)
    ensures c.CommitsNotOk? ==> r == Some(0)
  {
    match c
    case CommitsFetchFailed => None
    case CommitsNotOk => Some(0)
    case CommitsOk(link, body) =>
      if HasLinkHeader(link) then
        Some(LastPage(link.value).GetOr(0))
      else
        match body
        case CommitList(n) => Some(n)
        case CommitsMalformed => None
  }

  // ----- the line-statistics step

  /** The `find` callback: `contributor.author && contributor.author.login === username`. */
  predicate IsUser(username: string, e: ContributorEntry) {
    e.Contributor? && e.author.Some? && e.author.value.login == Some(username)
  }

  /** The outcome of `stats.find(...)`: the entry found, `undefined`, or a throw on a `null` entry. */
  datatype Lookup = Found(entry: ContributorEntry) | Absent | LookupThrew

  /** `stats.find(...)`: entries are visited in order; a `null` one throws a TypeError. */
  function FindContributor(username: string, es: seq<ContributorEntry>): (r: Lookup)
    ensures r.Found? ==> IsUser(username, r.entry)
  {
    if es == [] then Absent
    else if es[0].NullEntry? then LookupThrew
    else if IsUser(username, es[0]) then Found(es[0])
    else FindContributor(username, es[1..])
  }

  /** Entry `k` is the first whose author is the user, and no `null` entry comes before it. */
  ghost predicate FirstUserAt(username: string, es: seq<ContributorEntry>, k: int) {
    && 0 <= k < |es|
    && IsUser(username, es[k])
    && forall j :: 0 <= j < k ==> es[j].Contributor? && !IsUser(username, es[j])
  }

  /** What one non-null week adds: `week.a || 0` additions and `week.d || 0` deletions. */
  function WeekLines(w: WeekEntry): (t: Totals)
    requires w.Week?
    ensures t.commits == 0
  {
    Totals(0, OrZero(w.a), OrZero(w.d))
  }

  /** No `null` week in `ws`. */
  predicate AllWeeks(ws: seq<WeekEntry>) {
    forall j :: 0 <= j < |ws| ==> ws[j].Week?
  }

  /**
   * What `weeks.forEach(...)` has added when it stops: the sum over the
   * weeks in order, up to the first `null` week, at which the callback
   * throws and the earlier additions stay.
   */
  function WeeksTotal(ws: seq<WeekEntry>): (t: Totals)
    ensures t.commits == 0
    ensures forall j :: 0 <= j < |ws| && ws[j].Week? && AllWeeks(ws[..j]) ==>
              OrZero(ws[j].a) <= t.additions && OrZero(ws[j].d) <= t.deletions
  {
    if ws == [] || ws[0].NullWeek? then Zero
    else
      AllWeeksTail(ws);
      Plus(WeekLines(ws[0]), WeeksTotal(ws[1..]))
  }

  /** A `null`-free prefix of `ws` past its first week is a `null`-free prefix of its tail. */
  lemma AllWeeksTail(ws: seq<WeekEntry>)
    requires |ws| > 0
    ensures forall j :: 0 < j < |ws| && AllWeeks(ws[..j]) ==> ws[1..][j - 1] == ws[j] && AllWeeks(ws[1..][..j - 1])
  {
    forall j | 0 < j < |ws| && AllWeeks(ws[..j])
      ensures AllWeeks(ws[1..][..j - 1])
    {
      var front, rest := ws[..j], ws[1..][..j - 1];
      forall i | 0 <= i < |rest|
        ensures rest[i].Week?
      {
        assert rest[i] == front[i + 1];
      }
    }
  }

  /** The additions and deletions the line-statistics step contributes. */
  function StatsStep(username: string, s: StatsResponse): (t: Totals)
    ensures t.commits == 0
  {
    match s
    case StatsOk(ContributorList(es)) =>
      (match FindContributor(username, es)
       case Found(c) => (match c.weeks
                         case WeekList(ws) => WeeksTotal(ws)
                         case NoWeeks => Zero)
       case _ => Zero)
    case _ => Zero
  }

  /**
   * What one repository adds: nothing when the commit-count step throws
   * (its statistics are then never requested), otherwise its commits plus
   * whatever the statistics step manages to add. Nothing added is taken back.
   */
  function RepoContribution(username: string, r: RepoResponses): (t: Totals)
    ensures t.commits == CommitStep(r.commits).GetOr(0)
  {
    match CommitStep(r.commits)
    case None => Zero
    case Some(n) =>
      var lines := StatsStep(username, r.stats);
      PlusLinesOnly(n, lines);
      Plus(Totals(n, 0, 0), lines)
  }

  /** The contribution of one repository, counter by counter. */
  lemma RepoContributionFields(username: string, r: RepoResponses)
    ensures CommitStep(r.commits).None? ==> RepoContribution(username, r) == Zero
    ensures CommitStep(r.commits).Some? ==>
              RepoContribution(username, r) == Totals(CommitStep(r.commits).value,
                                                      StatsStep(username, r.stats).additions,
                                                      StatsStep(username, r.stats).deletions)
  {
    match CommitStep(r.commits)
    case None =>
    case Some(n) =>
      PlusLinesOnly(n, StatsStep(username, r.stats));
  }

  /** The counters after the loop has handled `rs`, in order; a left fold from zero. */
  function Accumulated(username: string, rs: seq<RepoResponses>): (t: Totals)
    ensures forall i :: 0 <= i < |rs| ==> AtMost(RepoContribution(username, rs[i]), t)
    decreases |rs|
  {
    if rs == [] then Zero
    else Plus(Accumulated(username, rs[..|rs| - 1]), RepoContribution(username, rs[|rs| - 1]))
  }

  /** Handling one more repository adds its contribution to the counters. */
  lemma AccumulatedStep(username: string, rs: seq<RepoResponses>, i: nat)
    requires i < |rs|
    ensures Accumulated(username, rs[..i + 1]) == Plus(Accumulated(username, rs[..i]), RepoContribution(username, rs[i]))
  {
    assert rs[..i + 1][..i] == rs[..i];
  }

  // ----- the commit-count step, case by case

  /** A non-empty header whose leftmost match is `page=N>; rel="last"` adds exactly `N`. */
  lemma CommitsFromLastLink(h: string, body: CommitsBody, i: nat, k: nat)
    requires h != "" && LeftmostMatch(h, i, k)
    ensures CommitStep(CommitsOk(Some(h), body)) == Some(DecimalValue(Captured(h, i, k)))
  {
    LastPageSpec(h, DecimalValue(Captured(h, i, k)));
  }

  /** A non-empty header in which the pattern matches nowhere adds 0, and the body is not read. */
  lemma CommitsWithoutLastLink(h: string, body: CommitsBody)
    requires h != "" && forall i: nat, k: nat :: !MatchesWith(h, i, k)
    ensures CommitStep(CommitsOk(Some(h), body)) == Some(0)
  {
    LastPageSpec(h, 0);
  }

  /** Without a (non-empty) header the body's length is added; a body that does not parse throws. */
  lemma CommitsWithoutLinkHeader(link: Option<string>, n: nat)
    requires !HasLinkHeader(link)
    ensures CommitStep(CommitsOk(link, CommitList(n))) == Some(n)
    ensures CommitStep(CommitsOk(link, CommitsMalformed)) == None
  {
  }

  /** A commits response that is not ok adds no commits, and the statistics are still requested and counted. */
  lemma CommitsNotOkStillCountsStats(username: string, s: StatsResponse)
    ensures RepoContribution(username, RepoResponses(CommitsNotOk, s)) == StatsStep(username, s)
  {
    var t := StatsStep(username, s);
    assert CommitStep(CommitsNotOk) == Some(0);
    PlusFields(Totals(0, 0, 0), t, t);
  }

  /** When the commit-count step throws, the repository contributes nothing, whatever its statistics. */
  lemma CommitFailureSkipsStats(username: string, c: CommitsResponse, s: StatsResponse)
    requires CommitStep(c).None?
    ensures RepoContribution(username, RepoResponses(c, s)) == Zero
  {
  }

  // ----- the line-statistics step, case by case

  /** `stats.find` returns the first entry whose author is the user, provided no `null` entry precedes it. */
  lemma {:induction false} FindContributorSpec(username: string, es: seq<ContributorEntry>, e: ContributorEntry)
    ensures FindContributor(username, es) == Found(e) <==>
      exists k :: FirstUserAt(username, es, k) && es[k] == e
  {
    if es != [] && es[0].Contributor? && !IsUser(username, es[0]) {
      FindContributorSpec(username, es[1..], e);
      if exists k :: FirstUserAt(username, es[1..], k) && es[1..][k] == e {
        var k :| FirstUserAt(username, es[1..], k) && es[1..][k] == e;
        assert FirstUserAt(username, es, k + 1);
      }
      if exists k :: FirstUserAt(username, es, k) && es[k] == e {
        var k :| FirstUserAt(username, es, k) && es[k] == e;
        assert k != 0;
        assert FirstUserAt(username, es[1..], k - 1);
      }
    } else if es != [] && IsUser(username, es[0]) {
      assert FirstUserAt(username, es, 0);
      forall k | FirstUserAt(username, es, k) ensures k == 0 {
      }
    } else if es != [] {
      forall k | 0 <= k < |es| ensures !FirstUserAt(username, es, k) {
        assert es[0].NullEntry?;
      }
    }
  }

  /** With no user entry and no `null` entry, `find` returns `undefined`. */
  lemma {:induction false} FindContributorAbsent(username: string, es: seq<ContributorEntry>)
    ensures FindContributor(username, es) == Absent <==>
      forall j :: 0 <= j < |es| ==> es[j].Contributor? && !IsUser(username, es[j])
  {
    if es != [] {
      FindContributorAbsent(username, es[1..]);
      if es[0].Contributor? && !IsUser(username, es[0]) {
        forall j | 1 <= j < |es| ensures es[j] == es[1..][j - 1] {
        }
      }
    }
  }

  /** Only the first entry for the user counts: the step adds the sum over that entry's weeks. */
  lemma FirstContributorCounts(username: string, es: seq<ContributorEntry>, k: int, ws: seq<WeekEntry>)
    requires FirstUserAt(username, es, k) && es[k].weeks == WeekList(ws)
    ensures StatsStep(username, StatsOk(ContributorList(es))) == WeeksTotal(ws)
  {
    FindContributorSpec(username, es, es[k]);
  }

  /** A user entry whose `weeks` is missing or falsy adds nothing. */
  lemma ContributorWithoutWeeks(username: string, es: seq<ContributorEntry>, k: int)
    requires FirstUserAt(username, es, k) && es[k].weeks == NoWeeks
    ensures StatsStep(username, StatsOk(ContributorList(es))) == Zero
  {
    FindContributorSpec(username, es, es[k]);
  }

  /** A body that is not an array, does not parse, or comes from a failed request adds nothing. */
  lemma UnusableStatsAddNothing(username: string, s: StatsResponse)
    requires s.StatsFetchFailed? || s.StatsNotOk? || s == StatsOk(NotAList) || s == StatsOk(StatsMalformed)
    ensures StatsStep(username, s) == Zero
  {
  }

  /** A failure in the statistics step keeps the commits already added for the same repository. */
  lemma StatsFailureKeepsCommits(username: string, c: CommitsResponse, s: StatsResponse, n: nat)
    requires CommitStep(c) == Some(n)
    requires StatsStep(username, s) == Zero
    ensures RepoContribution(username, RepoResponses(c, s)) == Totals(n, 0, 0)
  {
  }

  /** Summing weeks is additive over a split, as long as the first part holds no `null` week. */
  lemma {:induction false} WeeksTotalAppend(a: seq<WeekEntry>, b: seq<WeekEntry>)
    requires AllWeeks(a)
    ensures WeeksTotal(a + b) == Plus(WeeksTotal(a), WeeksTotal(b))
  {
    if a == [] {
      assert a + b == b;
      assert WeeksTotal(a) == Zero;
      PlusZero(WeeksTotal(b));
    } else {
      var ab := a + b;
      assert ab[0] == a[0] && ab[0].Week?;
      assert ab[1..] == a[1..] + b;
      assert AllWeeks(a[1..]) by {
        forall j | 0 <= j < |a[1..]| ensures a[1..][j].Week? {
          assert a[1..][j] == a[j + 1];
        }
      }
      WeeksTotalAppend(a[1..], b);
      assert WeeksTotal(ab) == Plus(WeekLines(a[0]), WeeksTotal(a[1..] + b));
      assert WeeksTotal(a) == Plus(WeekLines(a[0]), WeeksTotal(a[1..]));
      PlusAssociative(WeekLines(a[0]), WeeksTotal(a[1..]), WeeksTotal(b));
    }
  }

  /** A `null` week stops the sum there, and the weeks already summed stay added. */
  lemma NullWeekKeepsEarlierWeeks(a: seq<WeekEntry>, b: seq<WeekEntry>)
    requires AllWeeks(a)
    ensures WeeksTotal(a + [NullWeek] + b) == WeeksTotal(a)
  {
    var c := [NullWeek] + b;
    assert a + [NullWeek] + b == a + c;
    assert c[0].NullWeek?;
    assert WeeksTotal(c) == Zero;
    WeeksTotalAppend(a, c);
    PlusZero(WeeksTotal(a));
  }

  /** Over `null`-free weeks the sum is the sum of `a || 0` and of `d || 0`, one week at a time. */
  lemma WeeksTotalStep(ws: seq<WeekEntry>, w: WeekEntry)
    requires AllWeeks(ws) && w.Week?
    ensures WeeksTotal(ws + [w]) == Plus(WeeksTotal(ws), WeekLines(w))
  {
    WeeksTotalAppend(ws, [w]);
    assert WeeksTotal([w]) == WeekLines(w) by {
      assert [w][1..] == [];
    }
  }

  // ----- the fold over the listing

  /** Folding a concatenation is adding the folds of the two parts. */
  lemma {:induction false} AccumulatedAppend(username: string, a: seq<RepoResponses>, b: seq<RepoResponses>)
    ensures Accumulated(username, a + b) == Plus(Accumulated(username, a), Accumulated(username, b))
    decreases |b|
  {
    if b == [] {
      assert a + b == a;
      PlusZero(Accumulated(username, a));
    } else {
      var b' := b[..|b| - 1];
      assert (a + b)[..|a + b| - 1] == a + b';
      assert (a + b)[|a + b| - 1] == b[|b| - 1];
      AccumulatedAppend(username, a, b');
      PlusAssociative(Accumulated(username, a), Accumulated(username, b'), RepoContribution(username, b[|b| - 1]));
    }
  }

  /** The counters never go down: handling more repositories never lowers any of them. */
  lemma {:induction false} AccumulatedMonotone(username: string, rs: seq<RepoResponses>, i: nat, j: nat)
    requires i <= j <= |rs|
    ensures AtMost(Accumulated(username, rs[..i]), Accumulated(username, rs[..j]))
    decreases j - i
  {
    if i < j {
      AccumulatedMonotone(username, rs, i, j - 1);
      assert rs[..j][..j - 1] == rs[..j - 1];
    }
  }

  /** The final counters do not depend on the order of the listing. */
  lemma {:induction false} AccumulatedPermutation(username: string, a: seq<RepoResponses>, b: seq<RepoResponses>)
    requires multiset(a) == multiset(b)
    ensures Accumulated(username, a) == Accumulated(username, b)
    decreases |a|
  {
    if a == [] {
      assert |b| == |multiset(b)| == 0;
    } else {
      var x := a[|a| - 1];
      var a' := a[..|a| - 1];
      assert a == a' + [x];
      assert x in multiset(b);
      var k :| 0 <= k < |b| && b[k] == x;
      var front, back := b[..k], b[k + 1..];
      var b' := front + back;
      assert b == front + [x] + back;
      assert multiset(a) == multiset(a') + multiset{x};
      assert multiset(b) == multiset(front) + multiset{x} + multiset(back);
      assert multiset(b') == multiset(front) + multiset(back);
      assert multiset(a') == multiset(a) - multiset{x};
      assert multiset(b') == multiset(b) - multiset{x};
      AccumulatedPermutation(username, a', b');
      AccumulatedAppend(username, front + [x], back);
      AccumulatedAppend(username, front, back);
      var c := RepoContribution(username, x);
      assert Accumulated(username, front + [x]) == Plus(Accumulated(username, front), c) by {
        assert (front + [x])[..k] == front;
      }
      PlusSwap(Accumulated(username, front), c, Accumulated(username, back));
    }
  }
}
