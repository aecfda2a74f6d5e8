# Q-learning agent for FrozenLake, modelled in Dafny

The program trains a tabular Q-learning agent on the 4x4 FrozenLake grid
game. It plays 4000 episodes. The action-value table (16 states x 4 actions)
starts at zero. Each step picks the action with the largest estimate after
noise is added: one draw in [0, 1) per action, divided by episode². It then
steps the game and moves the chosen cell toward the target
`reward + 0.8 * max(Q[next])` with learning rate 0.9. Each episode's total
reward is appended to a history. From that history a progress report is
computed:

- after every 500th episode;
- once more after the loop, tagged -1.

A report has three figures:

- the mean of the latest 100 rewards;
- the best mean of a 100-wide window of rewards;
- the mean of the whole history.

The model has five modules, one per file:

- `valuetable.dfy` (`ValueTable`) holds:
  - the table as a value (`Table`) and as an in-place two-dimensional array (class `QTable`);
  - numpy's first-maximum `argmax` and `max`;
  - the learning rule.
- `policy.dfy` (`Policy`) holds the noisy greedy action selection.
- `statistics.dfy` (`Statistics`) holds the three report figures and the report's error case.
- `schedule.dfy` (`Schedule`) holds which reports are made, when and on what history.
- `training.dfy` (`Training`) holds the constants and the episode and training loops:
  - the loops as methods (`RunEpisode`, `Train`) over the in-place table;
  - each method proved equal to a ghost specification function (`Episode`, `Run`);
  - the properties proved about those functions.

The game and the random source are not modelled. Both are parameters, given as oracles:

- `env.reset(t)` gives the start state of an episode that begins after `t` steps of the run;
- `env.step(t, s, a)` gives the transition of step `t`;
- `draw(t, j)` gives the draw for action `j` at step `t`.

A seeded run is a function of exactly this history.

## Model

| member | source | states |
|---|---|---|
| ValueTable.Zeros | frozenlake.py:73 | the table of the given shape (16 x 4 in `Training.Run`) with every estimate 0.0 |
| ValueTable.QTable.constructor | frozenlake.py:73 | a fresh array of the given dimensions whose contents are the all-zero table |
| ValueTable.ArgMax | frozenlake.py:85 | `np.argmax` of a non-empty row: an index of the row. `ValueTable.ArgMaxIsFirstMaximum` and `ValueTable.ArgMaxIsUnique` state which index it is |
| ValueTable.ArgMaxIsFirstMaximum | frozenlake.py:85 | argmax returns an index no entry exceeds, and every earlier entry is strictly smaller (numpy's first-maximum tie-break) |
| ValueTable.ArgMaxIsUnique | frozenlake.py:85 | an index that is a maximum with only smaller entries before it is exactly what argmax returns |
| ValueTable.ArgMaxOfConstantRow | frozenlake.py:85 | on a row of equal entries (the all-zero start) argmax picks action 0 |
| ValueTable.MaxValue | frozenlake.py:91 | `np.max` of a non-empty row. Its meaning is stated by `ValueTable.MaxValueIsMaximum` |
| ValueTable.MaxValueIsMaximum | frozenlake.py:91 | `np.max` of a row is one of its entries and no entry exceeds it |
| ValueTable.Blend | frozenlake.py:94-95 | the right-hand side `(1 - lr) * current + lr * target`. Its meaning is stated by `ValueTable.BlendIsConvex` |
| ValueTable.BlendIsConvex | frozenlake.py:94-95 | with a rate in [0, 1] the updated value lies between the old value and the target; rate 1 gives the target, rate 0 the old value |
| ValueTable.Updated | frozenlake.py:94-95 | the table after the assignment to cell (s, a). What changes is stated by `ValueTable.UpdatedChangesOneCell` |
| ValueTable.UpdatedChangesOneCell | frozenlake.py:94-95 | the update keeps the table's shape, sets cell (s, a) to the blend and leaves every other cell unchanged |
| ValueTable.UpdatedKeepsBound | frozenlake.py:94-95 | an update toward a target in [lo, hi] keeps every estimate in [lo, hi] |
| ValueTable.QTable.Update | frozenlake.py:94-95 | the in-place array update writes the blend into cell (s, a), leaves every other element as it was, and the table's value becomes the updated table |
| ValueTable.QTable.Row | frozenlake.py:85 | the slice `Q[s, :]` read from the array is row s of the table's value |
| Policy.NoiseScale | frozenlake.py:82 | the scale 1 / episode² is in (0, 1] |
| Policy.NoisyRow | frozenlake.py:82-85 | `Q[s, :] + noise`: a row of the same length. How far the noise moves each entry is stated by `Policy.NoiseBelowScale` |
| Policy.SelectAction | frozenlake.py:82-85 | the chosen action is an index of the row; no entry of the noisy row exceeds the chosen one, and every entry before it is strictly smaller |
| Policy.NoiseBelowScale | frozenlake.py:82 | with draws in [0, 1) the noise raises each estimate by at least 0 and by less than 1 / episode² |
| Policy.NoiseScaleDecreases | frozenlake.py:82 | the noise bound strictly shrinks from any episode to any later one |
| Policy.NoiseCannotOvertakeLeader | frozenlake.py:82-85 | an action ahead of every other by at least 1 / episode² is chosen, whatever the draws |
| Policy.UniformRowPicksFirstAction | frozenlake.py:82-85 | with equal estimates and equal draws the chosen action is 0 |
| Training.LimitedStep | frozenlake.py:88 | the game's step under the 100-step time limit: the same successor and reward, and terminal exactly when the game's step is terminal or it is the episode's 100th step |
| Training.Target | frozenlake.py:91 | `reward + discount * max(Q[next, :])`. Its bound is stated by `Training.TargetInBound` |
| Training.ValueBoundFixedPoint | frozenlake.py:91 | the bound B = 1 / (1 - discount) is at least 1 and satisfies 1 + discount * B = B |
| Training.TargetInBound | frozenlake.py:91 | a reward in [0, 1] and a successor row in [0, B] give a target in [0, B] |
| Training.ProgramValueBound | frozenlake.py:36 | with the discount factor 0.8 the bound is 5 |
| Training.Learn | frozenlake.py:91-95 | one learning step keeps the 16 x 4 shape of the table |
| Training.Episode | frozenlake.py:78-101 | the rest of an episode ends with a table of the grid's shape |
| Training.Run | frozenlake.py:73-104 | after n episodes the table has the grid's shape and the history has exactly n entries |
| Training.RunExtends | frozenlake.py:104 | the history is append-only: the first m entries after n episodes are the history after m episodes |
| Training.EpisodeKeepsBound | frozenlake.py:91-95 | an episode started with every estimate in [0, B] ends with every estimate in [0, B] |
| Training.RunKeepsBound | frozenlake.py:73-104 | from the zero table, after any number of episodes every estimate is in [0, 5] |
| Training.EpisodeTotalInUnit | frozenlake.py:79-98 | when the game pays only on the terminal step, an episode's total is in [0, 1] |
| Training.RunRewardsInUnit | frozenlake.py:98-104 | when the game pays only on the terminal step, every entry of the history is in [0, 1] |
| Training.Decide | frozenlake.py:82-95 | one decision: the action is the noisy argmax of the current row, the transition is the environment's step, and the table becomes the learning rule's result |
| Training.Advance | frozenlake.py:82-101 | one pass of the episode loop advances the specification of the episode by one step, or ends it when the step is terminal |
| Training.RunEpisode | frozenlake.py:78-104 | the episode loop ends with the table, the step count and the total that the specification `Episode` gives from the reset state |
| Training.Train | frozenlake.py:70-108 | the training loop gives 4000 rewards equal to `Run`'s history, the table of `Run`, and the (corrected) reports of the schedule, each of them defined; the program's own report is defined at every one of those calls |
| Schedule.PeriodicCalls | frozenlake.py:105-106 | the periodic report calls of a history. They are characterised by `Schedule.PeriodicCallsAreMultiples` and `Schedule.PeriodicCallsListed` |
| Schedule.ScheduledCalls | frozenlake.py:105-108 | the periodic calls, then the final call tagged -1 on the whole history. Its lines are listed by `Schedule.ScheduledSummariesListed` |
| Schedule.Summaries | frozenlake.py:105-108 | one report line per call, in order. `Schedule.ScheduledSummariesListed` says which line is which |
| Schedule.PeriodicCallsAreMultiples | frozenlake.py:105-106 | a periodic report follows episode e exactly when 500 divides e; it sees the first e rewards; the reports come in episode order |
| Schedule.PeriodicCallsListed | frozenlake.py:105-106 | after n episodes there are n / 500 periodic reports, and report i follows episode 500 * (i + 1) and sees the first 500 * (i + 1) rewards |
| Schedule.ScheduledSummariesListed | frozenlake.py:105-108 | a run of n >= 100 episodes has n / 500 + 1 report lines; line i before the last is tagged 500 * (i + 1) and is the (corrected) report on the first 500 * (i + 1) rewards; the last is tagged -1 and is the report on all of them |
| Schedule.PeriodicReportsDefined | frozenlake.py:105-106 | no periodic (corrected) report fails, because each one sees at least 500 rewards |
| Schedule.ScheduledReportsDefined | frozenlake.py:105-108 | with at least 100 episodes every (corrected) report, the final one included, is defined |
| Schedule.ScheduledProgramReportsDefined | frozenlake.py:105-108 | with more than 100 episodes the program's own report is defined at every call, the final one included; with exactly 100 the final `print_report` raises (`Statistics.Report`) |
| Schedule.ScheduledReportsInUnit | frozenlake.py:54-58 | for rewards in [0, 1] every figure of every report of the run is in [0, 1] |
| Schedule.ReportIfDue | frozenlake.py:105-106 | after episode e the report list grows by one exactly when 500 divides e, and stays the schedule's list for the new history |
| Schedule.FinalReport | frozenlake.py:108 | the final report is appended with episode tag -1 and completes the schedule's list |
| Statistics.Mean | frozenlake.py:55-57 | `np.mean` of a non-empty sequence, the sum divided by the length. Its bounds are stated by `Statistics.MeanInUnit` |
| Statistics.RecentRewards | frozenlake.py:55 | `rewards[-100:]`: min(100, len) entries. Which entries is stated by `Statistics.RecentRewardsAreLatest` |
| Statistics.MeanInUnit | frozenlake.py:55-57 | the mean of values in [0, 1] is in [0, 1] |
| Statistics.RecentRewardsAreLatest | frozenlake.py:55 | `rewards[-100:]` is the last min(100, len) entries of the history, in order |
| Statistics.MaxWindowMeanIsMaximum | frozenlake.py:56 | the running maximum over window starts 0..n-1 is the mean of one such window, and no such window's mean exceeds it |
| Statistics.BestWindowMean | frozenlake.py:56 | the program's best 100-episode average over the window starts `range(len - 100)`. Its meaning is stated by `Statistics.BestWindowIsMaximum` |
| Statistics.BestWindowMeanAll | frozenlake.py:56 | the corrected best 100-episode average over every window. Its meaning is stated by `Statistics.BestWindowIsMaximum` |
| Statistics.BestWindowIsMaximum | frozenlake.py:56 | the report's best average is the largest mean over the window starts `range(len - 100)` and is attained by one of them; the same holds for the corrected best average over every window |
| Statistics.Report | frozenlake.py:54-58 | the report fails (max of an empty list) exactly when there are at most 100 rewards, and is otherwise tagged with its episode |
| Statistics.ReportInUnit | frozenlake.py:54-58 | for rewards in [0, 1] each figure of a defined report is in [0, 1] |
| Statistics.FiveEpisodeHistory | frozenlake.py:54-58 | the history 1, 0, 1, 1, 0 has mean 0.6, but a report on it fails |
| Statistics.BestWindowMissesLatestWindow | frozenlake.py:56 | on one loss followed by 100 wins the report's best average is 0.99, below its latest average of 1.0 |
| Statistics.BestWindowCoversRecent | frozenlake.py:55-56 | the best average over every window is at least the latest 100-episode average and at least the report's figure |
| Statistics.IntendedReport | frozenlake.py:54-58 | the corrected report fails exactly when there are fewer than 100 rewards, and is otherwise tagged with its episode |
| Statistics.IntendedReportCoversRecent | frozenlake.py:55-56 | the corrected report's best average is at least its latest 100-episode average and at least the best average the program computes |
| Statistics.IntendedReportInUnit | frozenlake.py:54-58 | for rewards in [0, 1] each figure of a defined corrected report is in [0, 1] |

## Left out

- The game's dynamics (the FrozenLake grid, slipperiness, holes, the goal) are not modelled. The environment is an oracle (`Env`). Two properties are assumed of it. Every reward is in [0, 1], because the game pays 0.0 or 1.0 (frozenlake.py:15); this is built into the type `Reward` of `Transition.reward`, and `Training.EpisodeKeepsBound` and `Training.RunKeepsBound` rely on it. That only the terminal step pays is stated where it is used (`PaysOnlyAtEnd`).
- The game's time limit of 100 steps per episode comes from the gym environment's registration, not from frozenlake.py. The model states it explicitly (`TimeLimit`, `LimitedStep`), which also makes every episode finite.
- The sizes 16 and 4 come from `env.observation_space.n` and `env.action_space.n`. They are fixed constants of the 4x4 map.
- Seeding (`random.seed`, `np.random.seed`, `env.seed`) is not modelled. The random source is the oracle `draw`. Draws in [0, 1) are assumed only in the lemmas that need them.
- Floating point is modelled as exact reals. Rounding in `episode**2.`, the division, the blend and the means is not captured.
- Printing and the `%.2f` formatting of the report line are not modelled. A report is the record of its three figures and its episode tag. The ValueError that `max` raises on an empty list is the `Failure` result. After 4000 episodes neither the program's report nor the corrected one fails at any call (`Schedule.ScheduledProgramReportsDefined`, `Schedule.ScheduledReportsDefined`), so `Train` needs no error path.
- The `__main__` guard and the results recorded in the comments at the end of the file are not modelled. Neither is any claim about convergence.
- The code does not validate its configuration (episode count, rates). The model does not either: the constants are fixed.
- A report on at most 100 rewards raises in the code: the list of window means at frozenlake.py:56 is empty and `max` fails. The model's `Statistics.Report` returns `Failure` there. `Statistics.FiveEpisodeHistory` is an example: five rewards with mean 0.6 and no report.
- Training.Learn: its own contract states only that the table keeps its shape. What the step does is stated by `Training.Decide`, which is proved equal to it, and by `ValueTable.UpdatedChangesOneCell`.
- Training.Episode: its own contract states only the table's shape. What it computes is stated by `Training.EpisodeKeepsBound` and `Training.EpisodeTotalInUnit`, and by `Training.RunEpisode`, which is proved equal to it.
- Training.Run: its own contract states only the table's shape and the history's length. What it computes is stated by `Training.RunExtends`, `Training.RunKeepsBound` and `Training.RunRewardsInUnit`, and by `Training.Train`, which is proved equal to it.

## Findings

| source | as written | input that shows it | evidently intended | confidence | as-written member | corrected member |
|---|---|---|---|---|---|---|
| frozenlake.py:56 | the best 100-episode average ranges over window starts `range(len(rewards) - 100)`, which leaves out the window of the latest 100 rewards and fails for exactly 100 rewards | one loss then 100 wins: best average 0.99, latest average 1.0 | every window `range(len(rewards) - 99)`, so the best average is at least the latest one | not executed | Statistics.BestWindowMissesLatestWindow | Statistics.IntendedReportCoversRecent |

`Statistics.Report` follows the code as written. The corrected figure is
`Statistics.BestWindowMeanAll`, and the corrected report is
`Statistics.IntendedReport`. It is defined from 100 rewards on, and it never
shows a best average below the latest one (`Statistics.IntendedReportCoversRecent`,
`Statistics.BestWindowCoversRecent`). The schedule and `Training.Train` use
the corrected report. Every report they make, except the final one, sees at least 500 rewards.
After more than 100 episodes both versions are defined at every call
(`Schedule.ScheduledReportsDefined`, `Schedule.ScheduledProgramReportsDefined`). The two versions differ only in the best
average.
