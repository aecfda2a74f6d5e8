/**
 * The figures of a progress report, computed from the history of episode
 * rewards: the mean of the latest (at most) 100 rewards, the largest mean of
 * a 100-wide window of consecutive rewards, and the mean of the whole history.
 */
module Statistics {

  datatype Result<T, E> = Success(value: T) | Failure(error: E)

  /** The width of the windows the report averages over. */
  const Window: nat := 100

  function Sum(s: seq<real>): real
  {
    if s == [] then 0.0 else Sum(s[..|s| - 1]) + s[|s| - 1]
  }

  /** numpy's mean of a non-empty sequence. */
  function Mean(s: seq<real>): real
    requires |s| > 0
  {
    Sum(s) / (|s| as real)
  }

  /** Every entry lies in [0, 1], as the 0.0-or-1.0 outcome of a game does. */
  predicate InUnit(s: seq<real>)
  {
    forall i :: 0 <= i < |s| ==> 0.0 <= s[i] <= 1.0
  }

  lemma {:induction false} SumAppend(a: seq<real>, b: seq<real>)
    ensures Sum(a + b) == Sum(a) + Sum(b)
  {
    if b == [] {
      assert a + b == a;
    } else {
      assert (a + b)[..|a + b| - 1] == a + b[..|b| - 1];
      SumAppend(a, b[..|b| - 1]);
    }
  }

  lemma {:induction false} SumInUnitBounds(s: seq<real>)
    requires InUnit(s)
    ensures 0.0 <= Sum(s) <= |s| as real
  {
    if s != [] {
      SumInUnitBounds(s[..|s| - 1]);
    }
  }

  /** The mean of values in [0, 1] is in [0, 1]. */
  lemma MeanInUnit(s: seq<real>)
    requires |s| > 0 && InUnit(s)
    ensures 0.0 <= Mean(s) <= 1.0
  {
    SumInUnitBounds(s);
    var n := |s| as real;
    assert Mean(s) * n == Sum(s);
  }

  /** rewards[-100:]: the latest 100 entries, or all of them when there are fewer. */
  function RecentRewards(s: seq<real>): (r: seq<real>)
    ensures |r| == if |s| < Window then |s| else Window
  {
    if |s| < Window then s else s[|s| - Window..]
  }

  /** The recent rewards are the last min(100, len) entries of the history, in order. */
  lemma RecentRewardsAreLatest(s: seq<real>)
    ensures var r := RecentRewards(s);
            forall k :: 0 <= k < |r| ==> r[k] == s[|s| - |r| + k]
  {
  }

  /** The mean of the window of 100 rewards that starts at index i. */
  function WindowMean(s: seq<real>, i: nat): real
    requires i + Window <= |s|
  {
    Mean(s[i..i + Window])
  }

  /** The largest window mean over the windows starting at 0 .. n-1. */
  function MaxWindowMean(s: seq<real>, n: nat): real
    requires 1 <= n && n - 1 + Window <= |s|
  {
    if n == 1 then WindowMean(s, 0)
    else
      var m := MaxWindowMean(s, n - 1);
      var w := WindowMean(s, n - 1);
      if m < w then w else m
  }

  /** MaxWindowMean is the mean of one of the windows 0 .. n-1 and no such window exceeds it. */
  lemma {:induction false} MaxWindowMeanIsMaximum(s: seq<real>, n: nat)
    requires 1 <= n && n - 1 + Window <= |s|
    ensures forall i :: 0 <= i < n ==> WindowMean(s, i) <= MaxWindowMean(s, n)
    ensures exists i :: 0 <= i < n && MaxWindowMean(s, n) == WindowMean(s, i)
  {
    if n > 1 {
      MaxWindowMeanIsMaximum(s, n - 1);
      var i :| 0 <= i < n - 1 && MaxWindowMean(s, n - 1) == WindowMean(s, i);
      assert MaxWindowMean(s, n - 1) <= MaxWindowMean(s, n) && WindowMean(s, n - 1) <= MaxWindowMean(s, n);
      if MaxWindowMean(s, n - 1) < WindowMean(s, n - 1) {
        assert MaxWindowMean(s, n) == WindowMean(s, n - 1);
      } else {
        assert MaxWindowMean(s, n) == WindowMean(s, i);
      }
    }
  }

  /**
   * The best 100-episode average as the report computes it: the maximum over
   * the window starts range(len - 100), that is 0 .. len-101. This leaves out
   * the window of the latest 100 rewards, and there is no window (max of an
   * empty list) unless there are more than 100 rewards.
   */
  function BestWindowMean(s: seq<real>): real
    requires |s| > Window
  {
    MaxWindowMean(s, |s| - Window)
  }

  /** The best 100-episode average over every window, the latest one included. */
  function BestWindowMeanAll(s: seq<real>): real
    requires |s| >= Window
  {
    MaxWindowMean(s, |s| - Window + 1)
  }

  /**
   * Each best average is the largest mean of the windows it ranges over: the
   * report's over the starts 0 .. len-101, the corrected one over 0 .. len-100.
   */
  lemma BestWindowIsMaximum(s: seq<real>)
    requires |s| >= Window
    ensures forall i :: 0 <= i <= |s| - Window ==> WindowMean(s, i) <= BestWindowMeanAll(s)
    ensures exists i :: 0 <= i <= |s| - Window && BestWindowMeanAll(s) == WindowMean(s, i)
    ensures |s| > Window ==> forall i :: 0 <= i < |s| - Window ==> WindowMean(s, i) <= BestWindowMean(s)
    ensures |s| > Window ==> exists i :: 0 <= i < |s| - Window && BestWindowMean(s) == WindowMean(s, i)
  {
    MaxWindowMeanIsMaximum(s, |s| - Window + 1);
    assert BestWindowMeanAll(s) == MaxWindowMean(s, |s| - Window + 1);
    if |s| > Window {
      MaxWindowMeanIsMaximum(s, |s| - Window);
      assert BestWindowMean(s) == MaxWindowMean(s, |s| - Window);
    }
  }

  /** The three figures of one report line and the episode it is tagged with. */
  datatype Summary = Summary(recentMean: real, bestWindowMean: real, mean: real, episode: int)

  /** The ValueError that max raises on the empty list of window means. */
  datatype ReportError = MaxOfEmptySequence

  /**
   * The report for a reward history as the program computes it. It fails
   * exactly when there are at most 100 rewards, because the list of window
   * means is then empty.
   */
  function Report(rewards: seq<real>, episode: int): (r: Result<Summary, ReportError>)
    ensures r.Failure? <==> |rewards| <= Window
    ensures r.Success? ==> r.value.episode == episode
  {
    if |rewards| <= Window then Failure(MaxOfEmptySequence)
    else Success(Summary(Mean(RecentRewards(rewards)), BestWindowMean(rewards), Mean(rewards), episode))
  }

  /** The report with every window considered; it is defined from 100 rewards on. */
  function IntendedReport(rewards: seq<real>, episode: int): (r: Result<Summary, ReportError>)
    ensures r.Failure? <==> |rewards| < Window
    ensures r.Success? ==> r.value.episode == episode
  {
    if |rewards| < Window then Failure(MaxOfEmptySequence)
    else Success(Summary(Mean(RecentRewards(rewards)), BestWindowMeanAll(rewards), Mean(rewards), episode))
  }

  /**
   * The corrected report never shows a best 100-episode average below its
   * latest one, nor below the figure the program computes.
   */
  lemma IntendedReportCoversRecent(rewards: seq<real>, episode: int)
    requires |rewards| >= Window
    ensures var v := IntendedReport(rewards, episode).value;
            v.recentMean <= v.bestWindowMean &&
            (|rewards| > Window ==> Report(rewards, episode).value.bestWindowMean <= v.bestWindowMean)
  {
    var v := IntendedReport(rewards, episode).value;
    assert v == Summary(Mean(RecentRewards(rewards)), BestWindowMeanAll(rewards), Mean(rewards), episode);
    BestWindowCoversRecent(rewards);
    if |rewards| > Window {
      assert Report(rewards, episode).value.bestWindowMean == BestWindowMean(rewards);
    }
  }

  /** A window of values in [0, 1] has its mean in [0, 1]. */
  lemma WindowMeanInUnit(s: seq<real>, i: nat)
    requires i + Window <= |s| && InUnit(s)
    ensures 0.0 <= WindowMean(s, i) <= 1.0
  {
    MeanInUnit(s[i..i + Window]);
  }

  /** For rewards in [0, 1], each figure of a successful report is in [0, 1]. */
  lemma ReportInUnit(rewards: seq<real>, episode: int)
    requires InUnit(rewards) && Report(rewards, episode).Success?
    ensures var v := Report(rewards, episode).value;
            0.0 <= v.recentMean <= 1.0 && 0.0 <= v.bestWindowMean <= 1.0 && 0.0 <= v.mean <= 1.0
  {
    var r := RecentRewards(rewards);
    assert InUnit(r) by {
      RecentRewardsAreLatest(rewards);
    }
    MeanInUnit(r);
    MeanInUnit(rewards);
    BestWindowIsMaximum(rewards);
    var i :| 0 <= i < |rewards| - Window && BestWindowMean(rewards) == WindowMean(rewards, i);
    WindowMeanInUnit(rewards, i);
  }

  /** For rewards in [0, 1], each figure of a successful corrected report is in [0, 1]. */
  lemma IntendedReportInUnit(rewards: seq<real>, episode: int)
    requires InUnit(rewards) && IntendedReport(rewards, episode).Success?
    ensures var v := IntendedReport(rewards, episode).value;
            0.0 <= v.recentMean <= 1.0 && 0.0 <= v.bestWindowMean <= 1.0 && 0.0 <= v.mean <= 1.0
  {
    var r := RecentRewards(rewards);
    assert InUnit(r) by {
      RecentRewardsAreLatest(rewards);
    }
    MeanInUnit(r);
    MeanInUnit(rewards);
    BestWindowIsMaximum(rewards);
    var i :| 0 <= i <= |rewards| - Window && BestWindowMeanAll(rewards) == WindowMean(rewards, i);
    WindowMeanInUnit(rewards, i);
  }

  /**
   * Taking every window proves what the report's best average is meant to
   * mean: at least the latest 100-episode average, and at least the figure
   * computed over the shorter range of windows.
   */
  lemma BestWindowCoversRecent(s: seq<real>)
    requires |s| >= Window
    ensures Mean(RecentRewards(s)) <= BestWindowMeanAll(s)
    ensures |s| > Window ==> BestWindowMean(s) <= BestWindowMeanAll(s)
  {
    var last := |s| - Window;
    assert RecentRewards(s) == s[last..last + Window];
    BestWindowIsMaximum(s);
    assert WindowMean(s, last) <= BestWindowMeanAll(s);
    if |s| > Window {
      var i :| 0 <= i < |s| - Window && BestWindowMean(s) == WindowMean(s, i);
      assert WindowMean(s, i) <= BestWindowMeanAll(s);
    }
  }

  /** n rewards of 1.0. */
  function Wins(n: nat): (s: seq<real>)
    ensures |s| == n && forall i :: 0 <= i < n ==> s[i] == 1.0
  {
    seq(n, _ => 1.0)
  }

  lemma {:induction false} SumOfWins(n: nat)
    ensures Sum(Wins(n)) == n as real
  {
    if n > 0 {
      assert Wins(n)[..n - 1] == Wins(n - 1);
      SumOfWins(n - 1);
    }
  }

  /** One lost game followed by 100 won games. */
  function LostThenWon(): (s: seq<real>)
    ensures |s| == Window + 1 && s == [0.0] + Wins(Window)
  {
    [0.0] + Wins(Window)
  }

  /**
   * On one loss followed by 100 wins the report's best 100-episode average is
   * 0.99 while its latest 100-episode average is 1.0: the best average omits
   * the most recent window.
   */
  lemma BestWindowMissesLatestWindow()
    ensures BestWindowMean(LostThenWon()) == 0.99
    ensures Mean(RecentRewards(LostThenWon())) == 1.0
    ensures BestWindowMean(LostThenWon()) < Mean(RecentRewards(LostThenWon()))
  {
    var s := LostThenWon();
    assert s[0..Window] == [0.0] + Wins(Window - 1);
    SumAppend([0.0], Wins(Window - 1));
    assert Sum([0.0]) == 0.0 by {
      assert [0.0][..0] == [];
    }
    SumOfWins(Window - 1);
    assert BestWindowMean(s) == WindowMean(s, 0);
    assert RecentRewards(s) == Wins(Window);
    SumOfWins(Window);
  }

  /**
   * Five episodes with rewards 1, 0, 1, 1, 0 average 0.6, yet a report after
   * the fifth episode fails, because no window start is in range(5 - 100).
   */
  lemma FiveEpisodeHistory()
    ensures Mean([1.0, 0.0, 1.0, 1.0, 0.0]) == 0.6
    ensures Report([1.0, 0.0, 1.0, 1.0, 0.0], 5) == Failure(MaxOfEmptySequence)
  {
    var s1, s2, s3, s4, s5 := [1.0], [1.0, 0.0], [1.0, 0.0, 1.0], [1.0, 0.0, 1.0, 1.0], [1.0, 0.0, 1.0, 1.0, 0.0];
    assert s1[..0] == [] && s2[..1] == s1 && s3[..2] == s2 && s4[..3] == s3 && s5[..4] == s4;
    assert Sum(s1) == 1.0;
    assert Sum(s2) == 1.0;
    assert Sum(s3) == 2.0;
    assert Sum(s4) == 3.0;
    assert Sum(s5) == 3.0;
  }
}
