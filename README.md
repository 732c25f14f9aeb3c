# Multi-armed bandit engine, modelled in Dafny

This project models the core of a small multi-armed bandit simulator. The environment is a set
of Bernoulli arms: arm `a` pays 1 with probability `probs[a]` and 0 otherwise. Two agents learn
which arm to play by keeping an estimate `Q` and a pull count `N` per arm:

- the epsilon-greedy agent explores uniformly with probability `epsilon` and otherwise exploits
  an arm of largest `Q`;
- the UCB agent first tries every arm once and then plays an arm of largest
  `Q + c * sqrt(log t / N)`.

A runner plays one trial of `n_steps` select, pull and update rounds. Another runner repeats this
over many fresh trials and averages the reward and the share of optimal-arm plays at every step.
The analysis functions then derive the cumulative regret, the convergence step, a summary of
statistics and the best parameter of a sweep.

The project has one module per concern:

| file | module | what it holds | form |
|---|---|---|---|
| `results.dfy` | `Results` | the error cases, `Result` and `Option` | values |
| `vectors.dfy` | `Vectors` | the numpy operations the code relies on: sum, max, argmax, flatnonzero, cumsum | functions on `seq<real>` |
| `random.dfy` | `Random` | a random draw as an explicit value in [0, 1); `randint` and `choice` read off such a draw | functions |
| `bandit.dfy` | `Bandits` | the bandit; it never changes after construction | a `datatype` with functions |
| `agents.dfy` | `Agents` | the two agents | `class`es whose `Q` and `N` are arrays updated in place |
| `experiments.dfy` | `Experiments` | the two runners | methods with loops |
| `metrics.dfy` | `Metrics` | the analysis functions | pure functions and lemmas |

Randomness is a parameter. Every `np.random.random()`, `randint` and `choice` call consumes one
`Draw`, a real in [0, 1) supplied by the caller. A trial takes one `StepDraws(explore, pick, pull)` per step,
and `run_multiple_experiments` takes one such sequence per experiment. Each agent carries a ghost
`Rewards` history. Its invariant says that `N[a]` is the number of rewards arm `a` was given and
`Q[a]` is their mean. So the incremental update `Q += (r - Q) / N` is proved to be the sample
mean.

`Experiments.Choose` gives a policy's selection as a function of the counts, the rewards so far,
the UCB step counter and the step's draws, with each estimate the mean of its arm's rewards.
`Experiments.NextChoice` applies it after replaying a trial's earlier steps. The runners' contracts
say that every action they record is that choice.

## Model

| member | source | states |
|---|---|---|
| Bandits.MakeBandit | bandit.py:21-35 | construction fails exactly when there are no arms (numpy's argmax/max raise); otherwise the bandit keeps the probabilities, `n_arms` is their number, `optimal_arm` is the first index of a largest probability and `optimal_prob` is at least every probability |
| Bandits.Bandit.GetOptimalArm | bandit.py:60-67 | the optimal arm is in range, its probability is at least every other, and every earlier arm's is strictly lower |
| Bandits.Bandit.GetOptimalProb | bandit.py:69-76 | the optimal probability is one of the probabilities, at least all of them, and equals their maximum |
| Bandits.Bandit.GetArmProb | bandit.py:78-88 | numpy indexing: fails exactly outside [-n_arms, n_arms); a negative index counts from the end |
| Bandits.Bandit.Pull | bandit.py:37-58 | fails with InvalidAction exactly when the action is outside [0, n_arms); otherwise the reward is 0 or 1, and 1 exactly when the draw is below the arm's probability |
| Bandits.PullCertainArms | bandit.py:53-58 | an arm of probability 0 never pays and an arm of probability 1 always pays |
| Random.Pick | agents.py:53 | `randint(n)` gives an index in [0, n) |
| Random.PickReachesEvery | agents.py:53 | every index in [0, n) is the pick of some draw |
| Random.Choice | agents.py:58 | `choice(xs)` gives a member of `xs` |
| Agents.ChoiceReachesEvery | agents.py:153-154 | every member of a tie set is the choice of some draw, so no tied arm is excluded |
| Vectors.Max | bandit.py:35 | the maximum is an entry and at least every entry |
| Vectors.Sum | utils.py:194 | `np.sum`: the sum of the entries, 0 for none; `SumAppend` states that appending an entry adds it |
| Vectors.ArgMax | bandit.py:34 | argmax is an index of a largest entry, and no earlier entry is as large |
| Vectors.Where | agents.py:57 | flatnonzero holds exactly the indices of the true entries, strictly increasing |
| Vectors.WhereLeast | utils.py:158-162 | the first index flatnonzero reports is the least of them |
| Vectors.Maximisers | agents.py:55-57 | the tie set is non-empty and holds exactly the indices where the maximum is reached |
| Vectors.FirstMaximiserIsArgMax | agents.py:55-57 | the first member of the tie set is argmax |
| Vectors.CumSum | utils.py:128 | entry t of cumsum is the sum of the first t + 1 entries |
| Agents.IncrementalMean | agents.py:73-75 | the update `Q += (r - Q) / N` turns the mean of the earlier rewards into the mean of all of them |
| Agents.RunningMean | agents.py:69-71 | the average reward of an arm: 0 before any reward, otherwise the number of rewards times the mean is their sum |
| Agents.Untried | agents.py:143 | the untried arms are exactly those with count 0 |
| Agents.UcbScores | agents.py:149 | the vector of UCB values, one per arm: entry a is `Q[a] + c * bonus(t, N[a])` |
| Agents.EpsilonGreedyAgent.constructor | agents.py:20-38 | every estimate and count starts at zero and no reward has been seen |
| Agents.EpsilonGreedyAgent.SelectAction | agents.py:40-58 | fails exactly with no arms; a draw below epsilon gives `randint(n_actions)`, otherwise a tie-broken arm of largest Q (with epsilon <= 0 always one of largest Q) |
| Agents.EpsilonGreedyAgent.Update | agents.py:60-75 | the arm's count grows by one, the reward joins its history and its estimate becomes the new sample mean; nothing else changes |
| Agents.EpsilonGreedyAgent.GetQValues | agents.py:77-79 | a copy of the estimates, each the mean of its arm's rewards |
| Agents.EpsilonGreedyAgent.GetActionCounts | agents.py:81-83 | a copy of the counts, each the number of rewards its arm received |
| Agents.UCBAgent.constructor | agents.py:99-118 | every estimate, count and the step counter start at zero; c defaults to 2.0 |
| Agents.UCBAgent.SelectAction | agents.py:120-154 | t grows by one; while an arm is untried it picks the draw's choice among the untried arms; afterwards every count is at least one and it picks the draw's choice among the arms of largest `Q + c * bonus(t, N)`; fails exactly with no arms |
| Agents.ConsistentMeans | agents.py:60-75 | while the agent's invariant holds, its estimates are exactly the means of the rewards each arm has received |
| Agents.UCBAgent.Update | agents.py:156-172 | the same incremental sample mean as the epsilon-greedy agent; nothing else changes |
| Agents.UCBAgent.GetQValues | agents.py:174-176 | a copy of the estimates, each the mean of its arm's rewards |
| Agents.UCBAgent.GetActionCounts | agents.py:178-180 | a copy of the counts, each the number of rewards its arm received |
| Agents.UCBAgent.GetUcbValues | agents.py:182-199 | all zeros before the first step; afterwards infinite exactly for an untried arm and `Q + c * bonus(t, N)` for a tried one |
| Agents.UCBAgent.ScoreOf | agents.py:194-197 | one arm's UCB value: infinite exactly when the arm is untried, otherwise `Q[a] + c * bonus(t, N[a])` |
| Experiments.ChooseExploits | agents.py:51-58 | as epsilon-greedy chooses: a draw of at least epsilon, or an epsilon of at most 0, gives an arm of largest mean reward |
| Experiments.ChooseUcb | agents.py:140-154 | as UCB chooses: an untried arm while one exists, and once every arm is tried an arm of largest `Q + c * bonus(t, N)` with the means as Q |
| Experiments.Choose | agents.py:51-58 | the selection of either policy as a function of counts, rewards, step counter and draws; always an arm. Epsilon-greedy explores with `randint` below epsilon and otherwise takes the draw's choice among the arms of largest mean (lines 51-58); UCB takes the draw's choice among the untried arms while one exists and then among the arms of largest `Q + c * bonus(t, N)` (agents.py lines 140-154) |
| Experiments.SelectAction | utils.py:37-38 | either policy's selection is what Choose gives for the counts and rewards before it (the estimates being the rewards' means) and the step counter after it; counts and rewards are unchanged; a UCB agent counts the step and picks an untried arm while one exists |
| Experiments.NextChoice | utils.py:37 | the action `agent.select_action()` returns at a step of a trial: Choose for the counts and rewards replayed from the trial's start, the step counter advanced once per earlier step and the step's own draws; always an arm |
| Experiments.Update | utils.py:43-44 | either policy's update adds one to the arm's count and appends the reward to its history |
| Experiments.Step | utils.py:35-47 | one round: succeeds whenever the agent has at least one and at most n_arms actions; the action is the policy's choice (NextChoice) for the counts and rewards replayed from the trial's start and the step counter advanced once per step; the reward is the outcome of pulling it, and counts and history advance by exactly that step |
| Experiments.AllChosenStep | utils.py:35-47 | a step whose action is the policy's next choice extends the record of choices (AllChosen) by that step |
| Experiments.ChosenEach | utils.py:35-47 | the record of choices gives, for every step, that its action is the policy's choice after the steps before it |
| Experiments.ColdStartHasUntried | agents.py:142-145 | in the UCB cold start, fewer steps than arms leave an untried arm |
| Experiments.ColdStartCovers | agents.py:142-149 | in the UCB cold start, as many steps as arms have pulled every arm once |
| Experiments.RunSteps | utils.py:35-47 | the loop keeps the counts and history equal to a replay of the steps so far, each step's action the policy's choice after the earlier steps and each reward recorded, the count total growing by one per step |
| Experiments.RunSingleExperiment | utils.py:18-49 | one action and one reward per step; every action is an arm and the policy's choice for the counts and rewards of the earlier steps, with the step counter advanced once per step (stated per step and as the record AllChosen); every reward is the outcome of pulling that arm with that step's draw; the counts' total grows by `n_steps`; each arm's history gains exactly the rewards the trial got on that arm; a UCB agent starting untried plays every arm once, in distinct steps, before it repeats one |
| Experiments.ResolvePolicy | utils.py:83-88 | "epsilon-greedy" needs an epsilon (missing gives MissingParameter) and resolves to that epsilon, "ucb" to c with default 2.0 and the bonus, and any other name gives UnknownAgentType |
| Experiments.NewAgent | utils.py:83-86 | a fresh agent of the given policy over the arms, with that policy's epsilon or c, of the matching kind; for either policy every count is zero, no reward has been seen and the step counter is zero |
| Experiments.RunFresh | utils.py:81-91 | a fresh bandit and agent play a trial that cannot fail, since the agent has as many actions as the bandit has arms; every action is the fresh policy's choice after the earlier steps, and a UCB trial plays every arm once before it repeats one |
| Experiments.RunAll | utils.py:79-96 | after the loop, total_rewards and optimal_actions are the per-step column sums of the trials' rewards and optimal-arm hits |
| Experiments.RunMultipleExperiments | utils.py:52-106 | errors: no arms, then zero experiments, then the policy error. On success each experiment is a played trial: every action is the resolved policy's choice after the earlier steps, and with "ucb" every arm is tried once before any repeats; `all_rewards` holds their rewards, the average reward is the column sum over the experiment count, the optimal-action percentage is the hit count over the experiment count times 100, and both lie in [0, 1] and [0, 100] |
| Experiments.ColumnTotalBounds | utils.py:94 | rewards in [0, 1] sum, column by column, to at most the number of experiments |
| Experiments.HitsBound | utils.py:95 | at most every experiment hits the optimal arm at a step |
| Experiments.AddRewards | utils.py:94 | `total_rewards += rewards`: the running column totals keep their length, entry s gaining the trial's reward at step s |
| Experiments.AddHits | utils.py:95 | `optimal_actions += (actions == optimal_arm)`: the hit counts keep their length, entry s gaining one exactly when the trial played the optimal arm at step s |
| Metrics.CumulativeRegret | utils.py:113-129 | entry t is `(t + 1) * optimal` minus the sum of the first t + 1 rewards |
| Metrics.Regrets | utils.py:127 | `optimal_reward - rewards`: one regret per step, entry i being the optimal reward minus reward i |
| Metrics.SumRegrets | utils.py:127-128 | the regrets of the first k steps sum to `k * optimal` minus their rewards |
| Metrics.RegretStep | utils.py:127-128 | each step adds exactly its own regret to the running total |
| Metrics.RegretFirst | utils.py:127-128 | the cumulative regret of the first step is that step's own regret |
| Metrics.RegretNondecreasing | utils.py:113-129 | when no reward exceeds the optimal one, the cumulative regret is never negative and never decreases |
| Metrics.ConvergenceStep | utils.py:132-164 | fails exactly for a window of no positive length; a curve shorter than the window gives its length; otherwise either the end of the first window whose mean reaches `threshold * optimal` (all earlier windows below it) or the length of the curve when no window reaches it |
| Metrics.MovingAverage | utils.py:155 | `np.convolve` with a box filter of width w in 'valid' mode: one entry per complete window, `|rewards| - w + 1` of them, each the mean of its w rewards |
| Metrics.MovingAverageBounds | utils.py:155 | each window mean lies within any bounds of the rewards it averages |
| Metrics.FirstReaching | utils.py:158-162 | the first index that reaches the target; every earlier one is below it |
| Metrics.ConvergesAtFirstWindow | utils.py:148-162 | a curve at the optimal reward converges at the first window |
| Metrics.CalculateStatistics | utils.py:167-202 | fails exactly on an empty reward or percentage curve. Otherwise: the total is the sum, the per-step average is the total over the length, the cumulative regret is that of the reward curve, the final regret is its last entry, which equals `length * optimal - total`, the convergence step is that of the curve and at most its length, and the final percentage is the mean of the last 100 entries or, on shorter curves, the last entry |
| Metrics.StatisticsBounds | utils.py:191-195 | with rewards in [0, 1] and percentages in [0, 100], the per-step average lies in [0, 1] and the final percentage in [0, 100] |
| Metrics.FindBestParameter | utils.py:256-275 | fails on an empty sweep and on a metric that is not a scalar statistic, and succeeds otherwise. The key returned is that of the first entry with the least metric (final_regret, convergence_step) or the greatest (all others) |

## Left out

- Randomness: every draw is a parameter, so the model states what is chosen for each draw and makes no claim about distributions or expected regret.
- Floating point: estimates, rewards and averages are exact reals. IEEE rounding, infinities and NaN are not modelled, except the infinite UCB value of an untried arm, which is its own `Score` case.
- `np.sqrt(np.log(t) / N)`: the bonus is an abstract function of the step and the count, defined whenever the count is at least one. Its value is never needed.
- Agents.EpsilonGreedyAgent.Update and Agents.UCBAgent.Update: they require an action in [0, n_actions). numpy would also accept a negative index counting from the end; the runner only passes actions that `pull` accepted.
- Counts are unbounded naturals. The source's `int32` counts could only wrap after 2^31 pulls of one arm.
- Experiments.RunSingleExperiment: the source preallocates `actions` and `rewards` arrays. The model appends each step to a sequence, which holds the same values once the loop ends. `actions` is `int32` in the source; actions stay below the number of arms here.
- Experiments.RunMultipleExperiments: with zero experiments and at least one step, the source divides by zero and returns NaN arrays, with no exception. The model returns `NoExperiments` instead, because reals have no NaN. With zero steps as well it returns the empty result, as the source does. The unknown-policy check happens once before the loop; the source reaches it on the first experiment, with the same outcome.
- Experiments.RunMultipleExperiments: the elementwise `+=` on `total_rewards` and `optimal_actions`, and the row write into `all_rewards`, are reassignments of whole sequences rather than updates in place. The trials themselves are returned as a ghost record.
- Metrics.FindBestParameter: array-valued entries of the statistics dictionary are rejected as `UnknownMetric`. Python would return the only key of a one-entry sweep even for such a metric, and of a larger sweep whose curves have one entry each, since a one-element numpy comparison has a truth value; it raises a comparison error for larger sweeps whose curves have more than one entry.
- Metrics.CalculateStatistics: `n_steps` is accepted and ignored, as calculate_statistics does.
- Plotting, printing, the parameter-sweep drivers, file paths and the `__str__`/`__repr__` methods are not part of this model.
