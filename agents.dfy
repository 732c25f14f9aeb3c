/** The two learning agents. Both keep, per arm, a value estimate Q and a pull count N in
    arrays that update changes in place; the UCB agent also counts its steps in t. */
module Agents {
  import opened Results
  import opened Vectors
  import opened Random

  /** The estimate an agent holds for an arm: the mean of the rewards seen on it, and 0 before
      the first pull. */
  function RunningMean(rs: seq<real>): (m: real)
    ensures rs == [] ==> m == 0.0
    ensures rs != [] ==> (|rs| as real) * m == Sum(rs)
  {
    if rs == [] then 0.0 else Sum(rs) / (|rs| as real)
  }

  /** The incremental rule Q += (r - Q) / N, with N already counting the new reward, turns the
      mean of the earlier rewards into the mean of all of them. */
  lemma IncrementalMean(rs: seq<real>, r: real)
    ensures RunningMean(rs + [r])
         == RunningMean(rs) + (1.0 / ((|rs| + 1) as real)) * (r - RunningMean(rs))
  {
    SumAppend(rs, r);
    var k := |rs| as real;
    var s := Sum(rs);
    if rs != [] {
      var m := s / k;
      assert m * k == s;
      calc {
        m + (1.0 / (k + 1.0)) * (r - m);
        (m * (k + 1.0) + r - m) / (k + 1.0);
        (m * k + r) / (k + 1.0);
        (s + r) / (k + 1.0);
      }
    }
  }

  /** Per arm, the count is the number of rewards seen and the estimate is their mean. */
  ghost predicate Consistent(q: seq<real>, n: seq<nat>, rewards: seq<seq<real>>)
  {
    && |q| == |n| == |rewards|
    && forall a :: 0 <= a < |rewards| ==> n[a] == |rewards[a]| && q[a] == RunningMean(rewards[a])
  }

  /** The estimates the rewards determine: per arm, the mean of its rewards. */
  function Means(rewards: seq<seq<real>>): (q: seq<real>)
    ensures |q| == |rewards| && forall a :: 0 <= a < |rewards| ==> q[a] == RunningMean(rewards[a])
  {
    seq(|rewards|, a requires 0 <= a < |rewards| => RunningMean(rewards[a]))
  }

  /** Consistent estimates are the means of the rewards. */
  lemma ConsistentMeans(q: seq<real>, n: seq<nat>, rewards: seq<seq<real>>)
    requires Consistent(q, n, rewards)
    ensures q == Means(rewards)
  {
  }

  /** Arm a is a largest entry of s. */
  predicate IsMaximiser(s: seq<real>, a: nat)
  {
    a < |s| && forall b :: 0 <= b < |s| ==> s[b] <= s[a]
  }

  /** np.flatnonzero(N == 0): the arms that have never been pulled, in increasing order. */
  function Untried(n: seq<nat>): (r: seq<nat>)
    ensures forall a :: a in r <==> 0 <= a < |n| && n[a] == 0
  {
    Where(seq(|n|, a requires 0 <= a < |n| => n[a] == 0))
  }

  /** The confidence bonus sqrt(log(t) / n), left abstract: any function of the step and the
      count that is defined whenever the count is at least one. */
  type BonusFn = f: (nat, nat) --> real | forall t: nat, n: nat :: n >= 1 ==> f.requires(t, n)
    witness (t: nat, n: nat) => 0.0

  /** Q + c * sqrt(log(t) / N), arm by arm; used only once every arm has been pulled. */
  function UcbScores(q: seq<real>, n: seq<nat>, t: nat, c: real, bonus: BonusFn): (s: seq<real>)
    requires |q| == |n|
    requires forall a :: 0 <= a < |n| ==> n[a] >= 1
    ensures |s| == |q| && forall a :: 0 <= a < |q| ==> s[a] == q[a] + c * bonus(t, n[a])
  {
    seq(|q|, a requires 0 <= a < |q| => q[a] + c * bonus(t, n[a]))
  }

  /** A diagnostic UCB value: untried arms report positive infinity. */
  datatype Score = Finite(value: real) | Infinite

  class EpsilonGreedyAgent {
    const nActions: nat
    const epsilon: real
    const Q: array<real>
    const N: array<nat>
    /** The rewards update has been given, arm by arm, in order. */
    ghost var Rewards: seq<seq<real>>

    ghost predicate Valid()
      reads this, Q, N
    {
      Q.Length == nActions && N.Length == nActions && Consistent(Q[..], N[..], Rewards)
    }

    /** Every estimate and every count starts at zero. */
    constructor (nActions: nat, epsilon: real)
      ensures Valid() && fresh(Q) && fresh(N)
      ensures this.nActions == nActions && this.epsilon == epsilon
      ensures forall a :: 0 <= a < nActions ==> Q[a] == 0.0 && N[a] == 0
      ensures Rewards == seq(nActions, a => [])
    {
      this.nActions := nActions;
      this.epsilon := epsilon;
      Q := new real[nActions](a => 0.0);
      N := new nat[nActions](a => 0);
      Rewards := seq(nActions, a => []);
    }

    /** select_action: with a draw below epsilon explore uniformly (randint), otherwise exploit,
        choosing among all arms tied at max(Q). With no arms, randint and max both raise. */
    method SelectAction(explore: Draw, pick: Draw) returns (r: Result<nat>)
      requires Valid()
      ensures r.Failure? <==> nActions == 0
      ensures r.Failure? ==> r.error == EmptyArgument
      ensures r.Success? ==> r.value < nActions
      ensures r.Success? && explore < epsilon ==> r.value == Pick(pick, nActions)
      ensures r.Success? && explore >= epsilon ==> IsMaximiser(Q[..], r.value)
      ensures r.Success? && explore >= epsilon ==> r.value == Choice(Maximisers(Q[..]), pick)
      ensures r.Success? && epsilon <= 0.0 ==> IsMaximiser(Q[..], r.value)
    {
      if nActions == 0 {
        return Failure(EmptyArgument);
      }
      if explore < epsilon {
        r := Success(Pick(pick, nActions));
      } else {
        var best := Maximisers(Q[..]);
        r := Success(Choice(best, pick));
      }
    }

    /** update: one more pull of the arm, and its estimate moves to the new sample mean;
        nothing else changes. */
    method Update(action: nat, reward: real)
      requires Valid() && action < nActions
      modifies Q, N, this`Rewards
      ensures Valid()
      ensures Rewards == old(Rewards)[action := old(Rewards[action]) + [reward]]
      ensures N[..] == old(N[..])[action := old(N[action]) + 1]
      ensures Q[..] == old(Q[..])[action := RunningMean(Rewards[action])]
    {
      IncrementalMean(Rewards[action], reward);
      N[action] := N[action] + 1;
      var alpha := 1.0 / (N[action] as real);
      Q[action] := Q[action] + alpha * (reward - Q[action]);
      Rewards := Rewards[action := Rewards[action] + [reward]];
      assert Q[action] == RunningMean(Rewards[action]);
    }

    /** get_Q_values: a copy of the estimates, each the mean of its arm's rewards. */
    method GetQValues() returns (q: seq<real>)
      requires Valid()
      ensures |q| == nActions
      ensures forall a :: 0 <= a < nActions ==> q[a] == RunningMean(Rewards[a])
    {
      q := Q[..];
    }

    /** get_action_counts: a copy of the counts, each the number of updates of its arm. */
    method GetActionCounts() returns (n: seq<nat>)
      requires Valid()
      ensures |n| == nActions
      ensures forall a :: 0 <= a < nActions ==> n[a] == |Rewards[a]|
    {
      n := N[..];
    }
  }

  class UCBAgent {
    const nActions: nat
    const c: real
    const bonus: BonusFn
    const Q: array<real>
    const N: array<nat>
    var t: nat
    /** The rewards update has been given, arm by arm, in order. */
    ghost var Rewards: seq<seq<real>>

    ghost predicate Valid()
      reads this, Q, N
    {
      Q.Length == nActions && N.Length == nActions && Consistent(Q[..], N[..], Rewards)
    }

    /** Every estimate and count starts at zero and so does the step counter; c defaults to 2. */
    constructor (nActions: nat, bonus: BonusFn, c: real := 2.0)
      ensures Valid() && fresh(Q) && fresh(N)
      ensures this.nActions == nActions && this.c == c && this.bonus == bonus && t == 0
      ensures forall a :: 0 <= a < nActions ==> Q[a] == 0.0 && N[a] == 0
      ensures Rewards == seq(nActions, a => [])
    {
      this.nActions := nActions;
      this.c := c;
      this.bonus := bonus;
      Q := new real[nActions](a => 0.0);
      N := new nat[nActions](a => 0);
      t := 0;
      Rewards := seq(nActions, a => []);
    }

    /** select_action: advance t; while an arm is untried choose among the untried arms; after
        that choose among the arms tied at the largest Q + c * bonus(t, N). With no arms the
        maximum of an empty array raises. */
    method SelectAction(pick: Draw) returns (r: Result<nat>)
      requires Valid()
      modifies this`t
      ensures Valid() && t == old(t) + 1
      ensures r.Failure? <==> nActions == 0
      ensures r.Failure? ==> r.error == EmptyArgument
      ensures r.Success? ==> r.value < nActions
      ensures |Untried(N[..])| > 0 ==> r == Success(Choice(Untried(N[..]), pick))
      ensures |Untried(N[..])| > 0 ==> r.Success? && N[r.value] == 0
      ensures |Untried(N[..])| == 0 ==> forall a :: 0 <= a < nActions ==> N[a] >= 1
      ensures r.Success? && |Untried(N[..])| == 0 ==>
                IsMaximiser(UcbScores(Q[..], N[..], t, c, bonus), r.value)
      ensures r.Success? && |Untried(N[..])| == 0 ==>
                r.value == Choice(Maximisers(UcbScores(Q[..], N[..], t, c, bonus)), pick)
    {
      t := t + 1;
      var untried := Untried(N[..]);
      if |untried| > 0 {
        return Success(Choice(untried, pick));
      }
      if nActions == 0 {
        return Failure(EmptyArgument);
      }
      assert forall a :: 0 <= a < nActions ==> a !in untried;
      var scores := UcbScores(Q[..], N[..], t, c, bonus);
      var best := Maximisers(scores);
      r := Success(Choice(best, pick));
    }

    /** update: the same incremental sample mean as the epsilon-greedy agent. */
    method Update(action: nat, reward: real)
      requires Valid() && action < nActions
      modifies Q, N, this`Rewards
      ensures Valid()
      ensures Rewards == old(Rewards)[action := old(Rewards[action]) + [reward]]
      ensures N[..] == old(N[..])[action := old(N[action]) + 1]
      ensures Q[..] == old(Q[..])[action := RunningMean(Rewards[action])]
    {
      IncrementalMean(Rewards[action], reward);
      N[action] := N[action] + 1;
      var alpha := 1.0 / (N[action] as real);
      Q[action] := Q[action] + alpha * (reward - Q[action]);
      Rewards := Rewards[action := Rewards[action] + [reward]];
      assert Q[action] == RunningMean(Rewards[action]);
    }

    /** get_Q_values: a copy of the estimates, each the mean of its arm's rewards. */
    method GetQValues() returns (q: seq<real>)
      requires Valid()
      ensures |q| == nActions
      ensures forall a :: 0 <= a < nActions ==> q[a] == RunningMean(Rewards[a])
    {
      q := Q[..];
    }

    /** get_action_counts: a copy of the counts, each the number of updates of its arm. */
    method GetActionCounts() returns (n: seq<nat>)
      requires Valid()
      ensures |n| == nActions
      ensures forall a :: 0 <= a < nActions ==> n[a] == |Rewards[a]|
    {
      n := N[..];
    }

    /** The UCB value get_ucb_values reports for arm a once a step has been taken. */
    function ScoreOf(a: nat): (v: Score)
      reads this, Q, N
      requires a < Q.Length && a < N.Length
      ensures v.Infinite? <==> N[a] == 0
      ensures v.Finite? ==> v.value == Q[a] + c * bonus(t, N[a])
    {
      if N[a] == 0 then Infinite else Finite(Q[a] + c * bonus(t, N[a]))
    }

    /** get_ucb_values: all zeros before the first step; afterwards positive infinity for an
        untried arm and Q + c * bonus(t, N) for a tried one. */
    method GetUcbValues() returns (v: seq<Score>)
      requires Valid()
      ensures |v| == nActions
      ensures t == 0 ==> forall a :: 0 <= a < nActions ==> v[a] == Finite(0.0)
      ensures t > 0 ==> forall a :: 0 <= a < nActions ==> (v[a] == Infinite <==> N[a] == 0)
      ensures t > 0 ==> forall a :: 0 <= a < nActions && N[a] >= 1 ==>
                v[a] == Finite(Q[a] + c * bonus(t, N[a]))
    {
      if t == 0 {
        return seq(nActions, a => Finite(0.0));
      }
      var ucb := new Score[nActions](a => Finite(0.0));
      for a := 0 to nActions
        invariant forall b :: 0 <= b < a ==> ucb[b] == ScoreOf(b)
      {
        if N[a] == 0 {
          ucb[a] := Infinite;
        } else {
          ucb[a] := Finite(Q[a] + c * bonus(t, N[a]));
        }
      }
      v := ucb[..];
    }
  }

  /** Ties are broken fairly in reach: every arm of a tie set is the choice of some draw. */
  lemma ChoiceReachesEvery(xs: seq<nat>, x: nat)
    requires x in xs
    ensures exists u: Draw :: Choice(xs, u) == x
  {
    var i :| 0 <= i < |xs| && xs[i] == x;
    PickReachesEvery(|xs|, i);
    var u: Draw := (i as real) / (|xs| as real);
    assert Choice(xs, u) == x;
  }
}
