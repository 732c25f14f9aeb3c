/** The multi-armed bandit environment: a fixed set of Bernoulli arms. The environment never
    changes after it is built, so it is a value. */
module Bandits {
  import opened Results
  import opened Vectors
  import opened Random

  /** probs[a] is the success probability of arm a; the other fields are derived once at
      construction, exactly as the constructor stores them. */
  datatype Bandit = Bandit(probs: seq<real>, nArms: nat, optimalArm: nat, optimalProb: real)
  {
    /** What construction establishes: n_arms is the number of arms, optimal_arm is np.argmax of
        the probabilities and optimal_prob its probability. */
    predicate Valid()
    {
      && nArms == |probs|
      && nArms > 0
      && optimalArm == ArgMax(probs)
      && optimalProb == probs[optimalArm]
    }

    /** get_optimal_arm: an arm of largest probability, the lowest-numbered one on ties. */
    function GetOptimalArm(): (k: nat)
      requires Valid()
      ensures k < nArms
      ensures forall i :: 0 <= i < nArms ==> probs[i] <= probs[k]
      ensures forall i :: 0 <= i < k ==> probs[i] < probs[k]
    {
      optimalArm
    }

    /** get_optimal_prob: the largest success probability of any arm. */
    function GetOptimalProb(): (p: real)
      requires Valid()
      ensures p in probs
      ensures forall i :: 0 <= i < nArms ==> probs[i] <= p
      ensures p == Max(probs)
    {
      optimalProb
    }

    /** get_arm_prob: plain numpy indexing, so a negative index counts from the end and an
        index outside [-n_arms, n_arms) raises. */
    function GetArmProb(action: int): (r: Result<real>)
      requires Valid()
      ensures r.Failure? <==> action < -(nArms as int) || action >= nArms
      ensures r.Failure? ==> r.error == IndexOutOfRange(action)
      ensures 0 <= action < nArms ==> r == Success(probs[action])
      ensures -(nArms as int) <= action < 0 ==> r == Success(probs[nArms + action])
    {
      if action < -(nArms as int) || action >= nArms then Failure(IndexOutOfRange(action))
      else if action < 0 then Success(probs[nArms + action])
      else Success(probs[action])
    }

    /** pull: an action outside [0, n_arms) is rejected, never clamped or wrapped; otherwise
        the draw yields reward 1 exactly when it lies below the arm's probability. */
    function Pull(action: int, draw: Draw): (r: Result<int>)
      requires Valid()
      ensures r.Failure? <==> action < 0 || action >= nArms
      ensures r.Failure? ==> r.error == InvalidAction(action)
      ensures r.Success? ==> r.value == 0 || r.value == 1
      ensures r.Success? ==> (r.value == 1 <==> draw < probs[action])
    {
      if action < 0 || action >= nArms then Failure(InvalidAction(action))
      else if draw < probs[action] then Success(1)
      else Success(0)
    }
  }

  /** Bandit(probs): np.argmax and np.max of an empty sequence raise, so there is no bandit
      without arms. */
  function MakeBandit(probs: seq<real>): (r: Result<Bandit>)
    ensures r.Failure? <==> |probs| == 0
    ensures r.Failure? ==> r.error == EmptyArgument
    ensures r.Success? ==> r.value.Valid() && r.value.probs == probs && r.value.nArms == |probs|
    ensures r.Success? ==> r.value.optimalArm < |probs|
    ensures r.Success? ==> forall i :: 0 <= i < |probs| ==> probs[i] <= r.value.optimalProb
    ensures r.Success? ==> forall i :: 0 <= i < r.value.optimalArm ==> probs[i] < r.value.optimalProb
  {
    if |probs| == 0 then Failure(EmptyArgument)
    else
      var k := ArgMax(probs);
      Success(Bandit(probs, |probs|, k, probs[k]))
  }

  /** A draw lies in [0, 1), so an arm of probability 0 never pays and an arm of probability 1
      always pays. */
  lemma {:induction false} PullCertainArms(b: Bandit, action: int, draw: Draw)
    requires b.Valid() && 0 <= action < b.nArms
    ensures b.probs[action] <= 0.0 ==> b.Pull(action, draw) == Success(0)
    ensures b.probs[action] >= 1.0 ==> b.Pull(action, draw) == Success(1)
  {
  }
}
