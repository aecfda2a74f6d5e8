/**
 * The training loop: episodes of the 4x4 frozen-lake grid game, each a
 * sequence of noisy-greedy decisions, each decision followed by one update of
 * the value table, and the episode's total reward appended to the history
 * that the progress reports are computed from.
 *
 * The game's dynamics are not modelled: the environment is a pair of oracles.
 * `reset(t)` gives the start state of an episode that begins after `t` steps
 * of the whole run, and `step(t, s, a)` gives the outcome of taking action `a`
 * in state `s` as the run's step number `t`. A seeded environment is a
 * function of exactly such a history. The game is played under a time limit
 * of 100 steps per episode, which ends the episode whatever the grid does.
 * The random source of the policy is an oracle too: `draw(t, j)` is the draw
 * for action `j` at step `t`.
 */
module Training {
  import opened ValueTable
  import opened Policy
  import opened Statistics
  import opened Schedule

  /** The training constants of the program. */
  const NumEpisodes: nat := 4000
  const DiscountFactor: real := 0.8
  const LearningRate: real := 0.9

  /** The sizes of the grid game: 16 cells, 4 moves, at most 100 steps per episode. */
  const NumStates: nat := 16
  const NumActions: nat := 4
  const TimeLimit: nat := 100

  type State = s: nat | s < NumStates
  type Action = a: nat | a < NumActions

  /** A game outcome: 0.0 for a lost or unfinished game, 1.0 for a won one, or in between. */
  type Reward = r: real | 0.0 <= r <= 1.0

  /** What one environment step returns: successor state, reward, terminal flag. */
  datatype Transition = Transition(next: State, reward: Reward, done: bool)

  datatype Env = Env(reset: nat -> State, step: (nat, State, Action) -> Transition)

  /** The grid game pays nothing on a step that does not end the episode. */
  ghost predicate PaysOnlyAtEnd(env: Env)
  {
    forall t: nat, s: State, a: Action :: !env.step(t, s, a).done ==> env.step(t, s, a).reward == 0.0
  }

  /**
   * A step under the time limit: in an episode that began at run step `t0`,
   * the step taken at run step `t` is terminal if it is the episode's 100th.
   */
  function LimitedStep(env: Env, t0: nat, t: nat, s: State, a: Action): (r: Transition)
    requires t0 <= t
    ensures r.next == env.step(t, s, a).next && r.reward == env.step(t, s, a).reward
    ensures r.done <==> env.step(t, s, a).done || t + 1 - t0 >= TimeLimit
  {
    var tr := env.step(t, s, a);
    Transition(tr.next, tr.reward, tr.done || t + 1 - t0 >= TimeLimit)
  }

  /** The draws of the random source for the decision at step `t`, one per action. */
  function Draws(draw: (nat, nat) -> real, t: nat): (d: seq<real>)
    ensures |d| == NumActions
  {
    seq(NumActions, j requires 0 <= j < NumActions => draw(t, j))
  }

  /** The learning target: reward plus the discounted best estimate of the next state. */
  function Target(reward: real, discount: real, nextRow: seq<real>): real
    requires |nextRow| > 0
  {
    reward + discount * MaxValue(nextRow)
  }

  /** The geometric-series bound 1 / (1 - discount) on every estimate. */
  function ValueBound(discount: real): real
    requires 0.0 <= discount < 1.0
  {
    1.0 / (1.0 - discount)
  }

  lemma ValueBoundFixedPoint(discount: real)
    requires 0.0 <= discount < 1.0
    ensures 1.0 <= ValueBound(discount) && 1.0 + discount * ValueBound(discount) == ValueBound(discount)
  {
    var b := 1.0 / (1.0 - discount);
    assert b * (1.0 - discount) == 1.0;
    NonNegativeProduct(discount, b);
  }

  /** A reward in [0, 1] and a next row inside the bound give a target inside the bound. */
  lemma TargetInBound(reward: real, discount: real, nextRow: seq<real>)
    requires |nextRow| > 0 && 0.0 <= reward <= 1.0 && 0.0 <= discount < 1.0
    requires forall j :: 0 <= j < |nextRow| ==> 0.0 <= nextRow[j] <= ValueBound(discount)
    ensures 0.0 <= Target(reward, discount, nextRow) <= ValueBound(discount)
  {
    ValueBoundFixedPoint(discount);
    MaxValueIsMaximum(nextRow);
    var m, b := MaxValue(nextRow), ValueBound(discount);
    var j :| 0 <= j < |nextRow| && nextRow[j] == m;
    NonNegativeProduct(discount, m);
    NonNegativeProduct(discount, b - m);
    assert discount * (b - m) == discount * b - discount * m;
    assert Target(reward, discount, nextRow) == reward + discount * m;
  }

  /** With the program's discount factor the bound is 5. */
  lemma ProgramValueBound()
    ensures ValueBound(DiscountFactor) == 5.0
  {
  }

  /** A value table of the grid game's shape. */
  predicate GridTable(table: Table)
  {
    HasShape(table, NumStates, NumActions)
  }

  /** The action the policy takes in state `s` at run step `t`. */
  function Choice(draw: (nat, nat) -> real, episode: nat, table: Table, t: nat, s: State): Action
    requires GridTable(table) && episode >= 1
  {
    SelectAction(table[s], Draws(draw, t), episode)
  }

  /**
   * The learning rule after taking `a` in `s`: the cell moves toward the
   * reward plus the discounted best estimate of the successor state.
   */
  function Learn(table: Table, s: State, a: Action, tr: Transition): (r: Table)
    requires GridTable(table)
    ensures GridTable(r)
  {
    UpdatedChangesOneCell(table, s, a, Target(tr.reward, DiscountFactor, table[tr.next]), LearningRate);
    Updated(table, s, a, Target(tr.reward, DiscountFactor, table[tr.next]), LearningRate)
  }

  /** Where an episode ends: the table, the run's step count and the episode's total reward. */
  datatype EpisodeResult = EpisodeResult(table: Table, t: nat, total: real)

  /**
   * The rest of an episode that began at run step `t0`, from state `s` at run step `t`
   * with `total` reward so far: pick the action, step the environment, update
   * the chosen cell toward the target and go on until the step is terminal.
   */
  ghost function Episode(env: Env, draw: (nat, nat) -> real, episode: nat,
                         table: Table, t0: nat, t: nat, s: State, total: real): (r: EpisodeResult)
    requires GridTable(table) && episode >= 1 && t0 <= t < t0 + TimeLimit
    ensures GridTable(r.table)
    decreases t0 + TimeLimit - t
  {
    var a := Choice(draw, episode, table, t, s);
    var tr := LimitedStep(env, t0, t, s, a);
    var next := Learn(table, s, a, tr);
    if tr.done then EpisodeResult(next, t + 1, total + tr.reward)
    else Episode(env, draw, episode, next, t0, t + 1, tr.next, total + tr.reward)
  }

  /** The state after the first `n` episodes: table, run step count, reward history. */
  datatype RunResult = RunResult(table: Table, t: nat, rewards: seq<real>)

  /**
   * The first `n` episodes of training from the all-zero table. The history
   * has one entry per episode, the total reward of that episode counted from 0.
   */
  ghost function Run(env: Env, draw: (nat, nat) -> real, n: nat): (r: RunResult)
    ensures GridTable(r.table) && |r.rewards| == n
    decreases n, 1
  {
    if n == 0 then RunResult(Zeros(NumStates, NumActions), 0, [])
    else
      var e := EpisodeOf(env, draw, n);
      RunResult(e.table, e.t, Run(env, draw, n - 1).rewards + [e.total])
  }

  /** Episode n (from 1), played from where the first n - 1 episodes left the table and the step count. */
  ghost function EpisodeOf(env: Env, draw: (nat, nat) -> real, n: nat): (e: EpisodeResult)
    requires n >= 1
    ensures GridTable(e.table)
    decreases n, 0
  {
    var prev := Run(env, draw, n - 1);
    Episode(env, draw, n, prev.table, prev.t, prev.t, env.reset(prev.t), 0.0)
  }

  /** Run(n) as one more episode after Run(n - 1). */
  lemma RunStep(env: Env, draw: (nat, nat) -> real, n: nat)
    requires n >= 1
    ensures var prev := Run(env, draw, n - 1);
            var e := Episode(env, draw, n, prev.table, prev.t, prev.t, env.reset(prev.t), 0.0);
            Run(env, draw, n) == RunResult(e.table, e.t, prev.rewards + [e.total])
  {
  }

  /** A chain of histories each extending the previous one by one entry keeps every prefix. */
  lemma {:induction false} ChainKeepsPrefix(h: nat -> seq<real>, m: nat, n: nat)
    requires m <= n
    requires forall k: nat :: k <= n ==> |h(k)| == k
    requires forall k: nat :: 0 < k <= n ==> h(k)[..k - 1] == h(k - 1)
    ensures h(n)[..m] == h(m)
  {
    if m < n {
      ChainKeepsPrefix(h, m, n - 1);
      assert h(n)[..m] == h(n)[..n - 1][..m];
    }
  }

  /** Episode n appends one entry to the history of the first n - 1 episodes. */
  lemma RunGrowsByOne(env: Env, draw: (nat, nat) -> real, n: nat)
    requires n >= 1
    ensures Run(env, draw, n).rewards[..n - 1] == Run(env, draw, n - 1).rewards
  {
    RunStep(env, draw, n);
  }

  /** The history is append-only: the first m episodes' rewards never change afterwards. */
  lemma RunExtends(env: Env, draw: (nat, nat) -> real, m: nat, n: nat)
    requires m <= n
    ensures Run(env, draw, n).rewards[..m] == Run(env, draw, m).rewards
  {
    var h := (k: nat) => Run(env, draw, k).rewards;
    forall k: nat | 0 < k <= n
      ensures h(k)[..k - 1] == h(k - 1)
    {
      RunGrowsByOne(env, draw, k);
    }
    ChainKeepsPrefix(h, m, n);
    assert h(n) == Run(env, draw, n).rewards && h(m) == Run(env, draw, m).rewards;
  }

  /** An episode started with every estimate in [0, 1/(1-discount)] keeps them there. */
  lemma {:induction false} EpisodeKeepsBound(env: Env, draw: (nat, nat) -> real, episode: nat,
                                             table: Table, t0: nat, t: nat, s: State, total: real)
    requires GridTable(table) && episode >= 1 && t0 <= t < t0 + TimeLimit
    requires Bounded(table, 0.0, ValueBound(DiscountFactor))
    ensures Bounded(Episode(env, draw, episode, table, t0, t, s, total).table, 0.0, ValueBound(DiscountFactor))
    decreases t0 + TimeLimit - t
  {
    var b := ValueBound(DiscountFactor);
    var a := Choice(draw, episode, table, t, s);
    var tr := LimitedStep(env, t0, t, s, a);
    var target := Target(tr.reward, DiscountFactor, table[tr.next]);
    var next := Learn(table, s, a, tr);
    assert Bounded(next, 0.0, b) by {
      TargetInBound(tr.reward, DiscountFactor, table[tr.next]);
      UpdatedKeepsBound(table, s, a, target, LearningRate, 0.0, b);
    }
    if !tr.done {
      EpisodeKeepsBound(env, draw, episode, next, t0, t + 1, tr.next, total + tr.reward);
    }
  }

  /**
   * From the all-zero start, every estimate stays in [0, 1/(1-discount)],
   * that is in [0, 5] for the program's discount factor.
   */
  lemma {:induction false} RunKeepsBound(env: Env, draw: (nat, nat) -> real, n: nat)
    ensures Bounded(Run(env, draw, n).table, 0.0, ValueBound(DiscountFactor))
  {
    if n > 0 {
      RunKeepsBound(env, draw, n - 1);
      var prev := Run(env, draw, n - 1);
      EpisodeKeepsBound(env, draw, n, prev.table, prev.t, prev.t, env.reset(prev.t), 0.0);
    }
  }

  /** When only the terminal step pays, an episode's total from 0 is that reward, in [0, 1]. */
  lemma {:induction false} EpisodeTotalInUnit(env: Env, draw: (nat, nat) -> real, episode: nat,
                                              table: Table, t0: nat, t: nat, s: State)
    requires PaysOnlyAtEnd(env) && GridTable(table) && episode >= 1 && t0 <= t < t0 + TimeLimit
    ensures 0.0 <= Episode(env, draw, episode, table, t0, t, s, 0.0).total <= 1.0
    decreases t0 + TimeLimit - t
  {
    var a := Choice(draw, episode, table, t, s);
    var tr := LimitedStep(env, t0, t, s, a);
    if !tr.done {
      var next := Learn(table, s, a, tr);
      assert tr.reward == env.step(t, s, a).reward == 0.0;
      EpisodeTotalInUnit(env, draw, episode, next, t0, t + 1, tr.next);
    }
  }

  /** When only the terminal step pays, every entry of the reward history is in [0, 1]. */
  lemma {:induction false} RunRewardsInUnit(env: Env, draw: (nat, nat) -> real, n: nat)
    requires PaysOnlyAtEnd(env)
    ensures InUnit(Run(env, draw, n).rewards)
  {
    if n > 0 {
      RunRewardsInUnit(env, draw, n - 1);
      var prev := Run(env, draw, n - 1);
      EpisodeTotalInUnit(env, draw, n, prev.table, prev.t, prev.t, env.reset(prev.t));
    }
  }

  /**
   * One decision of an episode: choose the action in state `s`, step the
   * environment and apply the learning rule to the table in place.
   */
  method Decide(q: QTable, env: Env, draw: (nat, nat) -> real, episode: nat, t0: nat, t: nat, s: State)
    returns (tr: Transition)
    requires q.Valid() && q.nStates == NumStates && q.nActions == NumActions && episode >= 1 && t0 <= t
    modifies q, q.data
    ensures q.Valid()
    ensures var a := Choice(draw, episode, old(q.cells), t, s);
            tr == LimitedStep(env, t0, t, s, a) && q.cells == Learn(old(q.cells), s, a, tr)
  {
    var a := SelectAction(q.Row(s), Draws(draw, t), episode);
    tr := LimitedStep(env, t0, t, s, a);
    var target := Target(tr.reward, DiscountFactor, q.Row(tr.next));
    q.Update(s, a, target, LearningRate);
  }

  /**
   * One pass of the episode loop: decide and learn, then add the step reward
   * to the episode total and move to the successor state. The rest of the
   * episode before the pass is the rest after it, or the end of the episode
   * when the step was terminal.
   */
  method Advance(q: QTable, env: Env, draw: (nat, nat) -> real, episode: nat, t0: nat, t: nat, s: State, total: real)
    returns (done: bool, next: State, total': real)
    requires q.Valid() && q.nStates == NumStates && q.nActions == NumActions && episode >= 1
    requires t0 <= t < t0 + TimeLimit
    modifies q, q.data
    ensures q.Valid()
    ensures !done ==> t + 1 < t0 + TimeLimit
    ensures var r := Episode(env, draw, episode, old(q.cells), t0, t, s, total);
            if done then r == EpisodeResult(q.cells, t + 1, total')
            else r == Episode(env, draw, episode, q.cells, t0, t + 1, next, total')
  {
    var tr := Decide(q, env, draw, episode, t0, t, s);
    done, next, total' := tr.done, tr.next, total + tr.reward;
  }

  /**
   * One episode (the body of the episode loop): reset, then decide, step and
   * learn until the step is terminal.
   */
  method RunEpisode(q: QTable, env: Env, draw: (nat, nat) -> real, episode: nat, t0: nat)
    returns (total: real, t: nat)
    requires q.Valid() && q.nStates == NumStates && q.nActions == NumActions && episode >= 1
    modifies q, q.data
    ensures q.Valid()
    ensures var r := Episode(env, draw, episode, old(q.cells), t0, t0, env.reset(t0), 0.0);
            q.cells == r.table && t == r.t && total == r.total
  {
    var s := env.reset(t0);
    total, t := 0.0, t0;
    var done := false;
    ghost var goal := Episode(env, draw, episode, q.cells, t0, t0, s, 0.0);
    while !done
      invariant q.Valid() && t0 <= t <= t0 + TimeLimit
      invariant !done ==> t < t0 + TimeLimit && Episode(env, draw, episode, q.cells, t0, t, s, total) == goal
      invariant done ==> goal == EpisodeResult(q.cells, t, total)
      decreases t0 + TimeLimit - t
    {
      done, s, total := Advance(q, env, draw, episode, t0, t, s, total);
      t := t + 1;
    }
  }

  /**
   * The whole training run: NumEpisodes episodes from the all-zero table, a
   * report after every ReportInterval-th episode and a final one tagged -1.
   * The table and the reward history are those of Run, and the reports are
   * those of ScheduledCalls, in order, each of them defined; the program's
   * own report is defined at each of those calls too.
   */
  method Train(env: Env, draw: (nat, nat) -> real)
    returns (q: QTable, rewards: seq<real>, reports: seq<Summary>)
    ensures fresh(q) && q.Valid() && q.nStates == NumStates && q.nActions == NumActions
    ensures |rewards| == NumEpisodes
    ensures q.cells == Run(env, draw, NumEpisodes).table
    ensures rewards == Run(env, draw, NumEpisodes).rewards
    ensures AllDefined(ScheduledCalls(rewards)) && reports == Summaries(ScheduledCalls(rewards))
    ensures forall i :: 0 <= i < |ScheduledCalls(rewards)| ==>
              Report(ScheduledCalls(rewards)[i].history, ScheduledCalls(rewards)[i].episode).Success?
  {
    q := new QTable(NumStates, NumActions);
    rewards, reports := [], [];
    var t := 0;
    var episode := 1;
    while episode <= NumEpisodes
      invariant 1 <= episode <= NumEpisodes + 1 && |rewards| == episode - 1
      invariant fresh(q) && fresh(q.data) && q.Valid()
      invariant q.nStates == NumStates && q.nActions == NumActions
      invariant q.cells == Run(env, draw, episode - 1).table
      invariant rewards == Run(env, draw, episode - 1).rewards
      invariant t == Run(env, draw, episode - 1).t
      invariant AllDefined(PeriodicCalls(rewards)) && reports == Summaries(PeriodicCalls(rewards))
    {
      var total;
      total, t := RunEpisode(q, env, draw, episode, t);
      RunStep(env, draw, episode);
      rewards := rewards + [total];
      reports := ReportIfDue(rewards, episode, reports);
      episode := episode + 1;
    }
    reports := FinalReport(rewards, reports);
    ScheduledProgramReportsDefined(rewards);
  }
}
