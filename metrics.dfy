/** The analysis functions: cumulative regret, the convergence step of a reward curve, the
    summary statistics of a run, and the choice of the best parameter of a sweep. */
module Metrics {
  import opened Results
  import opened Vectors
  import opened Experiments

  /** calculate_cumulative_regret: the running sum of optimal_reward - reward. */
  function CumulativeRegret(rewards: seq<real>, optimal: real): (r: seq<real>)
    ensures |r| == |rewards|
    ensures forall t :: 0 <= t < |r| ==> r[t] == ((t + 1) as real) * optimal - Sum(rewards[..t + 1])
  {
    var g := Regrets(rewards, optimal, |rewards|);
    var r := CumSum(g);
    forall t | 0 <= t < |r|
      ensures r[t] == ((t + 1) as real) * optimal - Sum(rewards[..t + 1])
    {
      assert r[t] == Sum(g[..t + 1]);
      RegretPrefix(rewards, optimal, t);
    }
    r
  }

  /** The regrets of the first t + 1 steps sum to (t + 1) * optimal minus their rewards. */
  lemma RegretPrefix(rewards: seq<real>, optimal: real, t: nat)
    requires t < |rewards|
    ensures Sum(Regrets(rewards, optimal, |rewards|)[..t + 1]) == ((t + 1) as real) * optimal - Sum(rewards[..t + 1])
  {
    RegretsPrefix(rewards, optimal, |rewards|, t + 1);
    SumRegrets(rewards, optimal, t + 1);
  }

  /** The first j regrets of a longer run are the regrets of its first j steps. */
  lemma RegretsPrefix(rewards: seq<real>, optimal: real, k: nat, j: nat)
    requires j <= k <= |rewards|
    ensures Regrets(rewards, optimal, k)[..j] == Regrets(rewards, optimal, j)
  {
  }

  /** optimal_reward - reward for each of the first k steps. */
  function Regrets(rewards: seq<real>, optimal: real, k: nat): (g: seq<real>)
    requires k <= |rewards|
    ensures |g| == k && forall i :: 0 <= i < k ==> g[i] == optimal - rewards[i]
  {
    seq(k, i requires 0 <= i < k => optimal - rewards[i])
  }

  lemma SumRegrets(rewards: seq<real>, optimal: real, k: nat)
    requires k <= |rewards|
    ensures Sum(Regrets(rewards, optimal, k)) == (k as real) * optimal - Sum(rewards[..k])
  {
    var g := Regrets(rewards, optimal, k);
    var front := rewards[..k];
    var full := seq(k, i => optimal);
    SumPointwise(g, front, full);
    SumConstant(full, optimal);
  }

  /** One more step adds that step's regret. */
  lemma RegretStep(rewards: seq<real>, optimal: real, t: nat)
    requires t + 1 < |rewards|
    ensures CumulativeRegret(rewards, optimal)[t + 1]
         == CumulativeRegret(rewards, optimal)[t] + (optimal - rewards[t + 1])
  {
    assert rewards[..t + 2] == rewards[..t + 1] + [rewards[t + 1]];
    SumAppend(rewards[..t + 1], rewards[t + 1]);
  }

  /** When no step earns more than the optimal reward, the cumulative regret never
      decreases and never drops below zero. */
  lemma {:induction false} RegretNondecreasing(rewards: seq<real>, optimal: real)
    requires forall i :: 0 <= i < |rewards| ==> rewards[i] <= optimal
    ensures forall t :: 0 <= t < |rewards| ==> CumulativeRegret(rewards, optimal)[t] >= 0.0
    ensures forall s, t :: 0 <= s <= t < |rewards| ==>
              CumulativeRegret(rewards, optimal)[s] <= CumulativeRegret(rewards, optimal)[t]
  {
    var r := CumulativeRegret(rewards, optimal);
    forall s, t | 0 <= s <= t < |rewards|
      ensures r[s] <= r[t]
    {
      RegretMonotone(rewards, optimal, s, t);
    }
    if |rewards| > 0 {
      RegretFirst(rewards, optimal);
      forall t | 0 <= t < |rewards|
        ensures r[t] >= 0.0
      {
        RegretMonotone(rewards, optimal, 0, t);
      }
    }
  }

  /** The first step's cumulative regret is its own regret. */
  lemma RegretFirst(rewards: seq<real>, optimal: real)
    requires |rewards| > 0
    ensures CumulativeRegret(rewards, optimal)[0] == optimal - rewards[0]
  {
    assert rewards[..1] == [] + [rewards[0]];
    SumAppend([], rewards[0]);
  }

  lemma {:induction false} RegretMonotone(rewards: seq<real>, optimal: real, s: nat, t: nat)
    requires forall i :: 0 <= i < |rewards| ==> rewards[i] <= optimal
    requires s <= t < |rewards|
    ensures CumulativeRegret(rewards, optimal)[s] <= CumulativeRegret(rewards, optimal)[t]
    decreases t - s
  {
    if s < t {
      RegretMonotone(rewards, optimal, s, t - 1);
      RegretStep(rewards, optimal, t - 1);
    }
  }

  /** The mean of each window of w consecutive rewards, as np.convolve with a box filter of
      width w in 'valid' mode gives it. */
  function MovingAverage(rewards: seq<real>, w: nat): (m: seq<real>)
    requires 1 <= w <= |rewards|
    ensures |m| == |rewards| - w + 1
  {
    seq(|rewards| - w + 1, i requires 0 <= i <= |rewards| - w => Sum(rewards[i..i + w]) / (w as real))
  }

  /** Each window mean lies within the bounds of the rewards it averages. */
  lemma MovingAverageBounds(rewards: seq<real>, w: nat, lo: real, hi: real)
    requires 1 <= w <= |rewards|
    requires forall i :: 0 <= i < |rewards| ==> lo <= rewards[i] <= hi
    ensures forall i :: 0 <= i < |MovingAverage(rewards, w)| ==> lo <= MovingAverage(rewards, w)[i] <= hi
  {
    var m := MovingAverage(rewards, w);
    forall i | 0 <= i < |m|
      ensures lo <= m[i] <= hi
    {
      var window := rewards[i..i + w];
      assert |window| == w;
      MeanBounds(window, lo, hi);
    }
  }

  /** calculate_convergence_step: the end of the first window whose mean reaches
      threshold * optimal_reward, or the length of the curve if there is none or the curve is
      shorter than the window. A window of no positive length reaches numpy's error. */
  function ConvergenceStep(rewards: seq<real>, optimal: real, threshold: real := 0.95, window: int := 50)
    : (r: Result<nat>)
    ensures r.Failure? <==> window <= 0
    ensures r.Failure? ==> r.error == InvalidWindow(window)
    ensures r.Success? ==> r.value <= |rewards|
    ensures r.Success? && |rewards| < window ==> r.value == |rewards|
    ensures r.Success? && |rewards| >= window ==>
              var m := MovingAverage(rewards, window);
              || (&& window <= r.value <= |rewards|
                  && m[r.value - window] >= threshold * optimal
                  && forall i :: 0 <= i < r.value - window ==> m[i] < threshold * optimal)
              || (&& r.value == |rewards|
                  && forall i :: 0 <= i < |m| ==> m[i] < threshold * optimal)
  {
    if 0 < window && |rewards| < window then Success(|rewards|)
    else if window <= 0 then Failure(InvalidWindow(window))
    else
      var m := MovingAverage(rewards, window);
      var k := FirstReaching(m, threshold * optimal);
      if k < |m| then Success(k + window) else Success(|rewards|)
  }

  /** The first index of m whose entry reaches target, found with np.where; |m| when there is
      none. */
  function FirstReaching(m: seq<real>, target: real): (k: nat)
    ensures k <= |m|
    ensures k < |m| ==> m[k] >= target
    ensures forall i :: 0 <= i < k ==> m[i] < target
  {
    var reached := seq(|m|, i requires 0 <= i < |m| => m[i] >= target);
    var converged := Where(reached);
    if |converged| > 0 then
      WhereLeast(reached);
      var k := converged[0];
      assert k in converged && reached[k];
      assert forall i :: 0 <= i < k ==> m[i] < target by {
        forall i | 0 <= i < k
          ensures m[i] < target
        {
          assert i !in converged;
          assert !reached[i];
        }
      }
      k
    else
      assert forall i :: 0 <= i < |m| ==> m[i] < target by {
        forall i | 0 <= i < |m|
          ensures m[i] < target
        {
          assert i !in converged;
          assert !reached[i];
        }
      }
      |m|
  }

  /** A curve that earns the optimal reward at every step converges as soon as its first window
      is complete. */
  lemma ConvergesAtFirstWindow(rewards: seq<real>, optimal: real, threshold: real, window: int)
    requires optimal >= 0.0 && threshold <= 1.0
    requires 0 < window <= |rewards|
    requires forall i :: 0 <= i < |rewards| ==> rewards[i] == optimal
    ensures ConvergenceStep(rewards, optimal, threshold, window) == Success(window)
  {
    var m := MovingAverage(rewards, window);
    FirstWindowOfConstant(rewards, optimal, window);
    ScaleBelow(threshold, optimal);
    FirstReachingAtStart(m, threshold * optimal);
  }

  /** The first window of a constant curve averages to that constant. */
  lemma FirstWindowOfConstant(rewards: seq<real>, v: real, window: nat)
    requires 0 < window <= |rewards|
    requires forall i :: 0 <= i < |rewards| ==> rewards[i] == v
    ensures MovingAverage(rewards, window)[0] == v
  {
    var first := rewards[0..window];
    assert |first| == window;
    SumConstant(first, v);
    MulDivCancel(v, window as real);
    assert rewards[0..0 + window] == first;
  }

  /** A curve whose first entry reaches the target reaches it first there. */
  lemma FirstReachingAtStart(m: seq<real>, target: real)
    requires |m| > 0 && m[0] >= target
    ensures FirstReaching(m, target) == 0
  {
    var k := FirstReaching(m, target);
    assert m[0] >= target;
  }

  /** A fraction of at most one of a non-negative amount is at most that amount. */
  lemma ScaleBelow(f: real, x: real)
    requires f <= 1.0 && x >= 0.0
    ensures f * x <= x
  {
    assert (1.0 - f) * x >= 0.0;
  }

  /** The statistics calculate_statistics reports for one run. */
  datatype Statistics = Statistics(
    totalReward: real,
    avgRewardPerStep: real,
    finalRegret: real,
    convergenceStep: nat,
    finalOptimalPct: real,
    cumulativeRegret: seq<real>,
    avgRewards: seq<real>,
    optimalActionPct: seq<real>)

  /** calculate_statistics. The last entry of an empty curve does not exist, so an empty reward
      or optimal-action curve is an error; n_steps is not used. */
  function CalculateStatistics(results: RunResults, optimal: real, nSteps: nat): (r: Result<Statistics>)
    ensures r.Failure? <==> |results.avgRewards| == 0 || |results.optimalActionPct| == 0
    ensures r.Failure? ==> r.error == EmptyCurve
    ensures r.Success? ==>
              var avg, pct, st := results.avgRewards, results.optimalActionPct, r.value;
              && st.avgRewards == avg && st.optimalActionPct == pct
              && st.totalReward == Sum(avg)
              && st.avgRewardPerStep == st.totalReward / (|avg| as real)
              && st.cumulativeRegret == CumulativeRegret(avg, optimal)
              && |st.cumulativeRegret| == |avg|
              && st.finalRegret == st.cumulativeRegret[|avg| - 1]
              && st.finalRegret == (|avg| as real) * optimal - st.totalReward
              && ConvergenceStep(avg, optimal) == Success(st.convergenceStep)
              && st.convergenceStep <= |avg|
              && st.finalOptimalPct == (if |pct| >= 100 then Sum(pct[|pct| - 100..]) / 100.0 else pct[|pct| - 1])
  {
    var avg, pct := results.avgRewards, results.optimalActionPct;
    var regret := CumulativeRegret(avg, optimal);
    var convergence := ConvergenceStep(avg, optimal);
    if |pct| == 0 || |avg| == 0 then Failure(EmptyCurve)
    else
      var finalPct := if |pct| >= 100 then Sum(pct[|pct| - 100..]) / 100.0 else pct[|pct| - 1];
      assert avg[..|avg|] == avg;
      Success(Statistics(Sum(avg), Sum(avg) / (|avg| as real), regret[|avg| - 1],
                         convergence.value, finalPct, regret, avg, pct))
  }

  /** When every step's average reward lies in [0, 1] and every percentage in [0, 100], so do
      the average reward per step and the final percentage of optimal actions, and the
      convergence step is at most the number of steps. */
  lemma StatisticsBounds(results: RunResults, optimal: real, nSteps: nat)
    requires CalculateStatistics(results, optimal, nSteps).Success?
    requires forall t :: 0 <= t < |results.avgRewards| ==> 0.0 <= results.avgRewards[t] <= 1.0
    requires forall t :: 0 <= t < |results.optimalActionPct| ==> 0.0 <= results.optimalActionPct[t] <= 100.0
    ensures var st := CalculateStatistics(results, optimal, nSteps).value;
            && 0.0 <= st.avgRewardPerStep <= 1.0
            && 0.0 <= st.finalOptimalPct <= 100.0
  {
    MeanBounds(results.avgRewards, 0.0, 1.0);
    FinalPctBounds(results.optimalActionPct);
  }

  /** The final percentage of optimal actions of a curve of percentages is a percentage. */
  lemma FinalPctBounds(pct: seq<real>)
    requires |pct| > 0
    requires forall t :: 0 <= t < |pct| ==> 0.0 <= pct[t] <= 100.0
    ensures 0.0 <= (if |pct| >= 100 then Sum(pct[|pct| - 100..]) / 100.0 else pct[|pct| - 1]) <= 100.0
  {
    if |pct| >= 100 {
      MeanBounds(pct[|pct| - 100..], 0.0, 100.0);
    }
  }

  /** The metrics find_best_parameter can rank by: the scalar statistics. */
  predicate ScalarMetric(name: string)
  {
    name in {"total_reward", "avg_reward_per_step", "final_regret", "convergence_step", "final_optimal_pct"}
  }

  /** The statistic a scalar metric names. */
  function Metric(st: Statistics, name: string): real
    requires ScalarMetric(name)
  {
    match name
    case "total_reward" => st.totalReward
    case "avg_reward_per_step" => st.avgRewardPerStep
    case "final_regret" => st.finalRegret
    case "convergence_step" => st.convergenceStep as real
    case _ => st.finalOptimalPct
  }

  /** Regret and convergence step are better when lower; the other metrics when higher. */
  predicate LowerIsBetter(name: string)
  {
    name == "final_regret" || name == "convergence_step"
  }

  /** Entry k has the best metric of the sweep and no earlier entry has one as good. */
  predicate IsBest<K>(allResults: seq<(K, Statistics)>, metric: string, k: nat)
    requires ScalarMetric(metric) && k < |allResults|
  {
    var best := Metric(allResults[k].1, metric);
    if LowerIsBetter(metric) then
      && (forall i :: 0 <= i < |allResults| ==> best <= Metric(allResults[i].1, metric))
      && (forall i :: 0 <= i < k ==> Metric(allResults[i].1, metric) > best)
    else
      && (forall i :: 0 <= i < |allResults| ==> Metric(allResults[i].1, metric) <= best)
      && (forall i :: 0 <= i < k ==> Metric(allResults[i].1, metric) < best)
  }

  /** find_best_parameter over the entries of the sweep in insertion order: the key of the
      first entry whose metric is least (regret, convergence step) or greatest (otherwise), as
      Python's min and max return it. */
  function FindBestParameter<K>(allResults: seq<(K, Statistics)>, metric: string := "total_reward"): (r: Result<K>)
    ensures |allResults| == 0 ==> r == Failure(EmptyResults)
    ensures |allResults| > 0 && !ScalarMetric(metric) ==> r == Failure(UnknownMetric(metric))
    ensures r.Success? <==> |allResults| > 0 && ScalarMetric(metric)
    ensures r.Success? ==>
              exists k :: 0 <= k < |allResults| && r.value == allResults[k].0 && IsBest(allResults, metric, k)
  {
    if |allResults| == 0 then Failure(EmptyResults)
    else if !ScalarMetric(metric) then Failure(UnknownMetric(metric))
    else
      var values := seq(|allResults|, i requires 0 <= i < |allResults| => Metric(allResults[i].1, metric));
      assert forall i :: 0 <= i < |allResults| ==> values[i] == Metric(allResults[i].1, metric);
      if LowerIsBetter(metric) then
        var negated := seq(|values|, i requires 0 <= i < |values| => -values[i]);
        var k := ArgMax(negated);
        assert forall i :: 0 <= i < |values| ==> negated[i] <= negated[k] && values[i] == -negated[i];
        assert IsBest(allResults, metric, k);
        Success(allResults[k].0)
      else
        var k := ArgMax(values);
        assert IsBest(allResults, metric, k);
        Success(allResults[k].0)
  }
}
