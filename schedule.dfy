/**
 * The schedule of progress reports: one after every episode whose number the
 * report interval divides, and a final one, tagged -1, after the last episode.
 * The reports are those of IntendedReport, whose best average ranges over
 * every window (see Statistics.BestWindowMissesLatestWindow for the figure the
 * program computes instead).
 */
module Schedule {
  import opened Statistics

  /** Episodes between two periodic reports. */
  const ReportInterval: nat := 500

  /** One call of the report: the history it is given and the episode it is tagged with. */
  datatype ReportCall = ReportCall(history: seq<real>, episode: int)

  /** The reports due while training: after every episode whose number the interval divides. */
  function PeriodicCalls(rewards: seq<real>): seq<ReportCall>
  {
    if rewards == [] then []
    else
      PeriodicCalls(rewards[..|rewards| - 1]) +
      (if |rewards| % ReportInterval == 0 then [ReportCall(rewards, |rewards|)] else [])
  }

  /** All the reports of a run: the periodic ones, then the final one tagged -1. */
  function ScheduledCalls(rewards: seq<real>): seq<ReportCall>
  {
    PeriodicCalls(rewards) + [ReportCall(rewards, -1)]
  }

  /** A positive multiple of the interval is at least the interval. */
  lemma MultipleOfInterval(e: int)
    requires 1 <= e && e % ReportInterval == 0
    ensures e >= ReportInterval
  {
  }

  /**
   * A periodic report is due after episode e exactly when the interval divides
   * e; it is given the first e rewards, so its history has e entries, and the
   * reports come in episode order.
   */
  lemma {:induction false} PeriodicCallsAreMultiples(rewards: seq<real>)
    ensures var p := PeriodicCalls(rewards);
            forall c :: c in p ==>
              1 <= c.episode <= |rewards| && c.episode % ReportInterval == 0 && c.history == rewards[..c.episode]
    ensures var p := PeriodicCalls(rewards);
            forall e :: 1 <= e <= |rewards| && e % ReportInterval == 0 ==> ReportCall(rewards[..e], e) in p
    ensures var p := PeriodicCalls(rewards);
            forall i, j :: 0 <= i < j < |p| ==> p[i].episode < p[j].episode
  {
    if rewards != [] {
      var n := |rewards|;
      var front := rewards[..n - 1];
      PeriodicCallsAreMultiples(front);
      var p := PeriodicCalls(rewards);
      var q := PeriodicCalls(front);
      assert rewards[..n] == rewards;
      forall c | c in p
        ensures 1 <= c.episode <= n && c.episode % ReportInterval == 0 && c.history == rewards[..c.episode]
      {
        if c in q {
          assert front[..c.episode] == rewards[..c.episode];
        }
      }
      forall e | 1 <= e <= n && e % ReportInterval == 0
        ensures ReportCall(rewards[..e], e) in p
      {
        if e < n {
          assert front[..e] == rewards[..e];
          assert ReportCall(front[..e], e) in q;
        }
      }
      forall i, j | 0 <= i < j < |p|
        ensures p[i].episode < p[j].episode
      {
        if j >= |q| {
          assert p[i] in q;
        } else {
          assert p[i] == q[i] && p[j] == q[j];
        }
      }
    }
  }

  /** Every report of the list is defined. */
  predicate AllDefined(calls: seq<ReportCall>)
  {
    forall i :: 0 <= i < |calls| ==> IntendedReport(calls[i].history, calls[i].episode).Success?
  }

  /** The report lines of a list of defined report calls, one per call and in order. */
  function Summaries(calls: seq<ReportCall>): (r: seq<Summary>)
    requires AllDefined(calls)
    ensures |r| == |calls|
  {
    seq(|calls|, i requires 0 <= i < |calls| => IntendedReport(calls[i].history, calls[i].episode).value)
  }

  lemma SummariesAppend(calls: seq<ReportCall>, c: ReportCall)
    requires AllDefined(calls) && IntendedReport(c.history, c.episode).Success?
    ensures AllDefined(calls + [c])
    ensures Summaries(calls + [c]) == Summaries(calls) + [IntendedReport(c.history, c.episode).value]
  {
    var all := calls + [c];
    assert forall i :: 0 <= i < |calls| ==> all[i] == calls[i];
    assert all[|calls|] == c;
  }

  /**
   * The periodic reports listed one by one: after n episodes there are
   * n / 500 of them, and report i (from 0) follows episode 500 * (i + 1) and
   * sees the first 500 * (i + 1) rewards.
   */
  lemma {:induction false} PeriodicCallsListed(rewards: seq<real>)
    ensures |PeriodicCalls(rewards)| == |rewards| / ReportInterval
    ensures forall i :: 0 <= i < |PeriodicCalls(rewards)| ==>
              ReportInterval * (i + 1) <= |rewards| &&
              PeriodicCalls(rewards)[i] == ReportCall(rewards[..ReportInterval * (i + 1)], ReportInterval * (i + 1))
  {
    if rewards != [] {
      var n := |rewards|;
      var front := rewards[..n - 1];
      PeriodicCallsListed(front);
      var p, q := PeriodicCalls(rewards), PeriodicCalls(front);
      assert p == q + (if n % ReportInterval == 0 then [ReportCall(rewards, n)] else []);
      forall i | 0 <= i < |q|
        ensures ReportInterval * (i + 1) <= n &&
                p[i] == ReportCall(rewards[..ReportInterval * (i + 1)], ReportInterval * (i + 1))
      {
        assert front[..ReportInterval * (i + 1)] == rewards[..ReportInterval * (i + 1)];
      }
      if n % ReportInterval == 0 {
        assert ReportInterval * (|q| + 1) == n;
        assert rewards[..n] == rewards;
      }
    }
  }

  /**
   * Every periodic report is defined: none comes before episode 500, so none
   * sees fewer than 100 rewards.
   */
  lemma PeriodicReportsDefined(rewards: seq<real>)
    ensures AllDefined(PeriodicCalls(rewards))
  {
    PeriodicCallsAreMultiples(rewards);
    var p := PeriodicCalls(rewards);
    forall i | 0 <= i < |p|
      ensures IntendedReport(p[i].history, p[i].episode).Success?
    {
      assert p[i] in p;
      MultipleOfInterval(p[i].episode);
    }
  }

  /** Every report of a run of at least 100 episodes, the final one included, is defined. */
  lemma ScheduledReportsDefined(rewards: seq<real>)
    requires |rewards| >= Window
    ensures AllDefined(ScheduledCalls(rewards))
  {
    PeriodicReportsDefined(rewards);
  }

  /** For rewards in [0, 1], the figures of every defined report of the run are in [0, 1]. */
  lemma ScheduledReportsInUnit(rewards: seq<real>)
    requires InUnit(rewards)
    ensures forall c :: c in ScheduledCalls(rewards) && IntendedReport(c.history, c.episode).Success? ==>
              var v := IntendedReport(c.history, c.episode).value;
              0.0 <= v.recentMean <= 1.0 && 0.0 <= v.bestWindowMean <= 1.0 && 0.0 <= v.mean <= 1.0
  {
    PeriodicCallsAreMultiples(rewards);
    forall c | c in ScheduledCalls(rewards) && IntendedReport(c.history, c.episode).Success?
      ensures var v := IntendedReport(c.history, c.episode).value;
              0.0 <= v.recentMean <= 1.0 && 0.0 <= v.bestWindowMean <= 1.0 && 0.0 <= v.mean <= 1.0
    {
      assert InUnit(c.history);
      IntendedReportInUnit(c.history, c.episode);
    }
  }

  /**
   * The report step after an episode has appended its reward: a report after
   * episode e when the interval divides e. The reports made so far are those
   * of the schedule of the history before the episode, and afterwards they are
   * those of the schedule of the extended history.
   */
  method ReportIfDue(rewards: seq<real>, episode: nat, reports: seq<Summary>) returns (next: seq<Summary>)
    requires |rewards| == episode >= 1
    requires AllDefined(PeriodicCalls(rewards[..episode - 1]))
    requires reports == Summaries(PeriodicCalls(rewards[..episode - 1]))
    ensures AllDefined(PeriodicCalls(rewards)) && next == Summaries(PeriodicCalls(rewards))
    ensures |next| == |reports| + (if episode % ReportInterval == 0 then 1 else 0)
  {
    ghost var before := PeriodicCalls(rewards[..episode - 1]);
    if episode % ReportInterval == 0 {
      assert PeriodicCalls(rewards) == before + [ReportCall(rewards, episode)];
      MultipleOfInterval(episode);
      var r := IntendedReport(rewards, episode);
      SummariesAppend(before, ReportCall(rewards, episode));
      next := reports + [r.value];
    } else {
      assert PeriodicCalls(rewards) == before + [];
      assert before + [] == before;
      next := reports;
    }
  }

  /** The report after the last episode, tagged -1; it is defined once there are 100 rewards. */
  method FinalReport(rewards: seq<real>, reports: seq<Summary>) returns (all: seq<Summary>)
    requires |rewards| >= Window
    requires AllDefined(PeriodicCalls(rewards)) && reports == Summaries(PeriodicCalls(rewards))
    ensures AllDefined(ScheduledCalls(rewards)) && all == Summaries(ScheduledCalls(rewards))
    ensures |all| == |reports| + 1 && all[|reports|].episode == -1
  {
    SummariesAppend(PeriodicCalls(rewards), ReportCall(rewards, -1));
    var r := IntendedReport(rewards, -1);
    all := reports + [r.value];
  }

  /** The program's own report, not only the corrected one, is defined at every call of a run of more than 100 episodes. */
  lemma ScheduledProgramReportsDefined(rewards: seq<real>)
    requires |rewards| > Window
    ensures forall i :: 0 <= i < |ScheduledCalls(rewards)| ==>
              Report(ScheduledCalls(rewards)[i].history, ScheduledCalls(rewards)[i].episode).Success?
  {
    PeriodicCallsAreMultiples(rewards);
    var all, p := ScheduledCalls(rewards), PeriodicCalls(rewards);
    forall i | 0 <= i < |all|
      ensures Report(all[i].history, all[i].episode).Success?
    {
      if i < |p| {
        assert all[i] == p[i] && p[i] in p;
        MultipleOfInterval(p[i].episode);
      }
    }
  }

  /**
   * The report lines of a run listed one by one: line i (from 0) before the
   * last is the report after episode 500 * (i + 1) on the first 500 * (i + 1)
   * rewards, and the last line is the report tagged -1 on the whole history.
   */
  lemma ScheduledSummariesListed(rewards: seq<real>)
    requires |rewards| >= Window
    ensures AllDefined(ScheduledCalls(rewards))
    ensures var r := Summaries(ScheduledCalls(rewards));
            |r| == |rewards| / ReportInterval + 1 &&
            (forall i :: 0 <= i < |r| - 1 ==>
               ReportInterval * (i + 1) <= |rewards| &&
               r[i].episode == ReportInterval * (i + 1) &&
               Success(r[i]) == IntendedReport(rewards[..ReportInterval * (i + 1)], ReportInterval * (i + 1))) &&
            r[|r| - 1].episode == -1 && Success(r[|r| - 1]) == IntendedReport(rewards, -1)
  {
    ScheduledReportsDefined(rewards);
    PeriodicCallsListed(rewards);
    var all, p := ScheduledCalls(rewards), PeriodicCalls(rewards);
    assert forall i :: 0 <= i < |p| ==> all[i] == p[i];
  }
}
