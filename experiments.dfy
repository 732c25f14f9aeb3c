/** Running experiments: one trial of select, pull and update steps, and many fresh trials
    whose per-step rewards and optimal-action hits are summed and averaged. */
module Experiments {
  import opened Results
  import opened Vectors
  import opened Random
  import opened Bandits
  import opened Agents

  /** The draws one step consumes: select_action's explore and pick draws and pull's draw.
      The UCB agent ignores the explore draw. */
  datatype StepDraws = StepDraws(explore: Draw, pick: Draw, pull: Draw)

  /** An agent of either policy; run_single_experiment accepts both. */
  datatype Agent = EpsilonGreedy(eg: EpsilonGreedyAgent) | Ucb(ucb: UCBAgent)
  {
    /** The objects the agent's steps may change. */
    function Repr(): set<object>
    {
      match this
      case EpsilonGreedy(g) => {g, g.Q, g.N}
      case Ucb(u) => {u, u.Q, u.N}
    }

    ghost predicate Valid()
      reads Repr()
    {
      match this
      case EpsilonGreedy(g) => g.Valid()
      case Ucb(u) => u.Valid()
    }

    function NActions(): nat
    {
      match this
      case EpsilonGreedy(g) => g.nActions
      case Ucb(u) => u.nActions
    }

    /** The array of pull counts N. */
    function CountArray(): array<nat>
    {
      match this
      case EpsilonGreedy(g) => g.N
      case Ucb(u) => u.N
    }

    /** The pull counts N. */
    function Counts(): seq<nat>
      reads CountArray()
    {
      CountArray()[..]
    }

    /** The rewards the agent has been given, arm by arm. */
    ghost function History(): seq<seq<real>>
      reads Repr()
    {
      match this
      case EpsilonGreedy(g) => g.Rewards
      case Ucb(u) => u.Rewards
    }

    /** The step counter t of a UCB agent; the epsilon-greedy agent keeps none. */
    function Clock(): nat
      reads Repr()
    {
      match this
      case EpsilonGreedy(_) => 0
      case Ucb(u) => u.t
    }

    /** The policy and parameters the agent was built with. */
    function PolicyOf(): Policy
    {
      match this
      case EpsilonGreedy(g) => EpsilonGreedyPolicy(g.epsilon)
      case Ucb(u) => UcbPolicy(u.c, u.bonus)
    }
  }

  /** A selection policy with its parameters: epsilon for epsilon-greedy, and for UCB the
      exploration weight c with the confidence bonus. */
  datatype Policy = EpsilonGreedyPolicy(epsilon: real) | UcbPolicy(c: real, bonus: BonusFn)

  /** What select_action returns under the policy, given the counts and the rewards seen so far
      (the estimates are their means), the UCB step counter t after this step's increment, and
      the step's draws. */
  function Choose(policy: Policy, counts: seq<nat>, history: seq<seq<real>>, t: nat, d: StepDraws): (x: nat)
    requires |counts| == |history| > 0
    ensures x < |counts|
  {
    var q := Means(history);
    match policy
    case EpsilonGreedyPolicy(epsilon) =>
      if d.explore < epsilon then Pick(d.pick, |q|) else Choice(Maximisers(q), d.pick)
    case UcbPolicy(c, bonus) =>
      var untried := Untried(counts);
      if |untried| > 0 then Choice(untried, d.pick)
      else
        assert forall a :: 0 <= a < |counts| ==> a !in untried;
        Choice(Maximisers(UcbScores(q, counts, t, c, bonus)), d.pick)
  }

  /** Choose for epsilon-greedy, as the two branches of select_action. */
  lemma ChooseEpsilonGreedy(epsilon: real, counts: seq<nat>, history: seq<seq<real>>, t: nat, d: StepDraws)
    requires |counts| == |history| > 0
    ensures Choose(EpsilonGreedyPolicy(epsilon), counts, history, t, d)
         == if d.explore < epsilon then Pick(d.pick, |counts|) else Choice(Maximisers(Means(history)), d.pick)
  {
  }

  /** Choose for UCB, as the two branches of select_action. */
  lemma ChooseUcbCases(c: real, bonus: BonusFn, counts: seq<nat>, history: seq<seq<real>>, t: nat, d: StepDraws)
    requires |counts| == |history| > 0
    ensures |Untried(counts)| > 0 ==> Choose(UcbPolicy(c, bonus), counts, history, t, d) == Choice(Untried(counts), d.pick)
    ensures |Untried(counts)| == 0 ==>
              && (forall a :: 0 <= a < |counts| ==> counts[a] >= 1)
              && Choose(UcbPolicy(c, bonus), counts, history, t, d)
                 == Choice(Maximisers(UcbScores(Means(history), counts, t, c, bonus)), d.pick)
  {
  }

  /** The choice depends on the step counter only through its value. This states no property
      of the model; it hands the verifier an equality it would otherwise search for, which
      keeps SelectAction's proof cheap. */
  lemma ChooseSameClock(policy: Policy, counts: seq<nat>, history: seq<seq<real>>, t1: nat, t2: nat, d: StepDraws)
    requires |counts| == |history| > 0 && t1 == t2
    ensures Choose(policy, counts, history, t1, d) == Choose(policy, counts, history, t2, d)
  {
  }

  /** Epsilon-greedy exploits on a draw of at least epsilon, and always when epsilon <= 0: it
      picks an arm of largest mean reward. */
  lemma ChooseExploits(epsilon: real, counts: seq<nat>, history: seq<seq<real>>, t: nat, d: StepDraws)
    requires |counts| == |history| > 0 && (d.explore >= epsilon || epsilon <= 0.0)
    ensures IsMaximiser(Means(history), Choose(EpsilonGreedyPolicy(epsilon), counts, history, t, d))
  {
  }

  /** UCB picks an untried arm while one remains, and otherwise an arm of largest score. */
  lemma ChooseUcb(c: real, bonus: BonusFn, counts: seq<nat>, history: seq<seq<real>>, t: nat, d: StepDraws)
    requires |counts| == |history| > 0
    ensures var x := Choose(UcbPolicy(c, bonus), counts, history, t, d);
            && (|Untried(counts)| > 0 ==> counts[x] == 0)
            && ((forall a :: 0 <= a < |counts| ==> counts[a] >= 1) ==>
                  IsMaximiser(UcbScores(Means(history), counts, t, c, bonus), x))
  {
    var x := Choose(UcbPolicy(c, bonus), counts, history, t, d);
    if forall a :: 0 <= a < |counts| ==> counts[a] >= 1 {
      assert forall a :: 0 <= a < |counts| ==> a !in Untried(counts);
      assert |Untried(counts)| == 0;
    }
  }

  /** The record of one trial: the action and the reward of every step. */
  datatype Trial = Trial(actions: seq<nat>, rewards: seq<real>)

  /** The rewards a trial obtained on arm a, in the order it obtained them. */
  function RewardsOf(actions: seq<nat>, rewards: seq<real>, a: nat): seq<real>
    requires |actions| == |rewards|
  {
    if actions == [] then []
    else
      RewardsOf(actions[..|actions| - 1], rewards[..|rewards| - 1], a)
        + (if actions[|actions| - 1] == a then [rewards[|rewards| - 1]] else [])
  }

  lemma RewardsOfAppend(actions: seq<nat>, rewards: seq<real>, x: nat, r: real, a: nat)
    requires |actions| == |rewards|
    ensures RewardsOf(actions + [x], rewards + [r], a)
         == RewardsOf(actions, rewards, a) + (if x == a then [r] else [])
  {
    assert (actions + [x])[..|actions|] == actions;
    assert (rewards + [r])[..|rewards|] == rewards;
  }

  /** No action occurs twice. */
  predicate Distinct(s: seq<nat>)
  {
    forall i, j :: 0 <= i < j < |s| ==> s[i] != s[j]
  }

  /** The cold-start phase so far: distinct actions, and an arm's count is one exactly when it
      is among them. */
  ghost predicate ColdState(counts: seq<nat>, actions: seq<nat>)
  {
    && Distinct(actions)
    && forall a :: 0 <= a < |counts| ==> counts[a] == (if a in actions then 1 else 0)
  }

  /** While fewer steps than arms have been taken in the cold-start phase, an untried arm
      remains. */
  lemma ColdStartHasUntried(counts: seq<nat>, actions: seq<nat>)
    requires ColdState(counts, actions)
    requires Total(counts) == |actions| < |counts|
    ensures |Untried(counts)| > 0
  {
    if forall a :: 0 <= a < |counts| ==> counts[a] >= 1 {
      TotalAtLeastLength(counts);
      assert false;
    }
    var a :| 0 <= a < |counts| && counts[a] < 1;
    assert a in Untried(counts);
  }

  /** Pulling an untried arm extends the cold-start phase by one distinct action. */
  lemma ColdStartStep(counts: seq<nat>, actions: seq<nat>, x: nat)
    requires ColdState(counts, actions)
    requires x < |counts| && counts[x] == 0
    ensures ColdState(counts[x := 1], actions + [x])
  {
    assert x !in actions;
    var s := actions + [x];
    forall i, j | 0 <= i < j < |s|
      ensures s[i] != s[j]
    {
      if j == |actions| {
        assert s[i] in actions;
      }
    }
  }

  /** Once as many steps as arms have been taken in the cold-start phase, every arm has been
      pulled. */
  lemma ColdStartCovers(counts: seq<nat>, actions: seq<nat>)
    requires ColdState(counts, actions)
    requires Total(counts) == |counts|
    ensures forall a :: 0 <= a < |counts| ==> a in actions
  {
    forall a | 0 <= a < |counts|
      ensures a in actions
    {
      if a !in actions {
        TotalWithZero(counts, a);
      }
    }
  }

  /** A step pulled the action with its draw against a well-formed bandit and got the reward. */
  ghost predicate Recorded(bandit: Bandit, action: nat, draw: Draw, reward: real)
  {
    && bandit.Valid()
    && bandit.Pull(action, draw).Success?
    && reward == bandit.Pull(action, draw).value as real
  }

  /** select_action of either policy: the policy's choice for the counts and rewards so far,
      with t the UCB step counter after this step. Selecting changes neither the counts nor the
      rewards; a UCB agent counts the step. */
  method SelectAction(agent: Agent, d: StepDraws, ghost t: nat) returns (r: Result<nat>)
    requires agent.Valid() && (agent.Ucb? ==> t == agent.ucb.t + 1)
    modifies agent.Repr()
    ensures agent.Valid()
    ensures agent.Counts() == old(agent.Counts()) && agent.History() == old(agent.History())
    ensures r.Failure? <==> agent.NActions() == 0
    ensures r.Success? ==> r.value == Choose(agent.PolicyOf(), old(agent.Counts()), old(agent.History()), t, d)
    ensures r.Failure? ==> r.error == EmptyArgument
    ensures r.Success? ==> r.value < agent.NActions()
    ensures agent.Ucb? ==> agent.ucb.t == old(agent.ucb.t) + 1
    ensures r.Success? && agent.Ucb? && |Untried(old(agent.Counts()))| > 0 ==> old(agent.Counts())[r.value] == 0
  {
    match agent {
      case EpsilonGreedy(g) =>
        ConsistentMeans(g.Q[..], g.N[..], g.Rewards);
        if g.nActions > 0 {
          ChooseEpsilonGreedy(g.epsilon, g.N[..], g.Rewards, t, d);
        }
        r := g.SelectAction(d.explore, d.pick);
      case Ucb(u) =>
        ghost var counts, history, q := u.N[..], u.Rewards, u.Q[..];
        ConsistentMeans(q, counts, history);
        r := u.SelectAction(d.pick);
        assert u.N[..] == counts && u.Q[..] == q;
        if u.nActions > 0 {
          ChooseUcbCases(u.c, u.bonus, counts, history, u.t, d);
          ChooseSameClock(UcbPolicy(u.c, u.bonus), counts, history, u.t, t, d);
        }
    }
  }

  /** update of either policy: the arm's count grows by one and the reward joins its history. */
  method Update(agent: Agent, action: nat, reward: real)
    requires agent.Valid() && action < agent.NActions()
    modifies agent.Repr()
    ensures agent.Valid()
    ensures agent.Counts() == old(agent.Counts())[action := old(agent.Counts())[action] + 1]
    ensures agent.History() == old(agent.History())[action := old(agent.History())[action] + [reward]]
    ensures agent.Ucb? ==> agent.ucb.t == old(agent.ucb.t)
  {
    match agent {
      case EpsilonGreedy(g) =>
        g.Update(action, reward);
      case Ucb(u) =>
        u.Update(action, reward);
    }
  }

  /** One round of run_single_experiment: select an action, pull it and feed the reward back.
      The action is the policy's choice, and the effect on the counts and rewards is replayed,
      from the counts, rewards and UCB step counter t0 at the start of the trial; an arm picked
      while some arm is untried is an untried one. */
  method Step(bandit: Bandit, agent: Agent, draws: seq<StepDraws>, step: nat, ghost n: nat,
              ghost counts0: seq<nat>, ghost history0: seq<seq<real>>, ghost t0: nat,
              ghost acts: seq<nat>, ghost rews: seq<real>)
    returns (r: Result<(nat, real)>)
    requires bandit.Valid() && agent.Valid() && n == agent.NActions() && |counts0| == n && |history0| == n
    requires step == |acts| == |rews| && step < |draws|
    requires agent.Ucb? ==> agent.ucb.t == t0 + step
    requires agent.Counts() == CountsAfter(counts0, acts)
    requires agent.History() == HistoryAfter(history0, acts, rews)
    modifies agent.Repr()
    ensures agent.Valid()
    ensures 0 < n <= bandit.nArms ==> r.Success?
    ensures r.Failure? ==> r.error == EmptyArgument || r.error.InvalidAction?
    ensures r.Success? ==>
              && r.value.0 < n
              && r.value.0 == NextChoice(agent.PolicyOf(), draws, counts0, history0, t0, acts, rews)
              && Recorded(bandit, r.value.0, draws[step].pull, r.value.1)
              && agent.Counts() == CountsAfter(counts0, acts + [r.value.0])
              && agent.History() == HistoryAfter(history0, acts + [r.value.0], rews + [r.value.1])
    ensures r.Success? && agent.Ucb? ==> agent.ucb.t == old(agent.ucb.t) + 1
    ensures r.Success? && agent.Ucb? && |Untried(CountsAfter(counts0, acts))| > 0 ==>
              CountsAfter(counts0, acts)[r.value.0] == 0
  {
    var d := draws[step];
    if n > 0 {
      NextChoiceIs(agent.PolicyOf(), draws, counts0, history0, t0, acts, rews, d);
    }
    var selected := SelectAction(agent, d, StepClock(t0, acts));
    if selected.Failure? {
      return Failure(selected.error);
    }
    var action := selected.value;
    var pulled := bandit.Pull(action, d.pull);
    if pulled.Failure? {
      return Failure(pulled.error);
    }
    var reward := pulled.value as real;
    Update(agent, action, reward);
    ReplayStep(counts0, history0, acts, rews, action, reward);
    r := Success((action, reward));
  }

  /** The pull counts after the given actions, starting from counts0; an action outside the
      arms changes nothing. */
  function CountsAfter(counts0: seq<nat>, acts: seq<nat>): (c: seq<nat>)
    ensures |c| == |counts0|
  {
    if acts == [] then counts0
    else
      var c := CountsAfter(counts0, acts[..|acts| - 1]);
      var x := acts[|acts| - 1];
      if x < |c| then c[x := c[x] + 1] else c
  }

  /** The per-arm rewards after the given actions and rewards, starting from history0. */
  function HistoryAfter(history0: seq<seq<real>>, acts: seq<nat>, rews: seq<real>): (h: seq<seq<real>>)
    requires |acts| == |rews|
    ensures |h| == |history0|
  {
    if acts == [] then history0
    else
      var h := HistoryAfter(history0, acts[..|acts| - 1], rews[..|rews| - 1]);
      var x := acts[|acts| - 1];
      if x < |h| then h[x := h[x] + [rews[|rews| - 1]]] else h
  }

  /** Every recorded step pulled an arm below n with its draw and got the recorded reward. */
  ghost predicate AllRecorded(bandit: Bandit, draws: seq<StepDraws>, n: nat, acts: seq<nat>, rews: seq<real>)
  {
    && |acts| == |rews| <= |draws|
    && (acts != [] ==>
          && AllRecorded(bandit, draws, n, acts[..|acts| - 1], rews[..|rews| - 1])
          && acts[|acts| - 1] < n
          && Recorded(bandit, acts[|acts| - 1], draws[|acts| - 1].pull, rews[|rews| - 1]))
  }

  /** The policy's choice at the step after the given actions and rewards, in a trial that
      started from counts0, history0 and the UCB step counter t0: the counts and rewards are
      replayed, the counter has advanced once per step and once more for this one, and the
      step's draws are used. */
  function NextChoice(policy: Policy, draws: seq<StepDraws>, counts0: seq<nat>, history0: seq<seq<real>>,
                      t0: nat, acts: seq<nat>, rews: seq<real>): (x: nat)
    requires |counts0| == |history0| > 0 && |acts| == |rews| < |draws|
    ensures x < |counts0|
  {
    Choose(policy, CountsAfter(counts0, acts), HistoryAfter(history0, acts, rews), StepClock(t0, acts), draws[|acts|])
  }

  /** The UCB step counter during the step after the given actions, from t0 at the trial's
      start: select_action counts each step before it chooses. A named function rather than
      the sum itself, so that the verifier matches the counters of two steps by their action
      sequences instead of by arithmetic, which keeps the runner's proofs cheap. */
  function StepClock(t0: nat, acts: seq<nat>): (t: nat)
    ensures t == t0 + |acts| + 1
  {
    t0 + |acts| + 1
  }

  /** NextChoice is Choose with the step's draws. */
  lemma NextChoiceIs(policy: Policy, draws: seq<StepDraws>, counts0: seq<nat>, history0: seq<seq<real>>,
                     t0: nat, acts: seq<nat>, rews: seq<real>, d: StepDraws)
    requires |counts0| == |history0| > 0 && |acts| == |rews| < |draws|
    requires d == draws[|acts|]
    ensures NextChoice(policy, draws, counts0, history0, t0, acts, rews)
         == Choose(policy, CountsAfter(counts0, acts), HistoryAfter(history0, acts, rews), StepClock(t0, acts), d)
  {
  }

  /** Every recorded action is the policy's choice after the steps before it. */
  ghost predicate AllChosen(policy: Policy, draws: seq<StepDraws>, counts0: seq<nat>, history0: seq<seq<real>>,
                            t0: nat, acts: seq<nat>, rews: seq<real>)
  {
    && |acts| == |rews| <= |draws|
    && (acts != [] ==>
          var k := |acts| - 1;
          && AllChosen(policy, draws, counts0, history0, t0, acts[..k], rews[..k])
          && |counts0| == |history0| > 0
          && acts[k] == NextChoice(policy, draws, counts0, history0, t0, acts[..k], rews[..k]))
  }

  /** The cold-start phase of a UCB trial: its first n actions (or all of them, if fewer) are
      distinct, and once n steps are taken they cover every arm. */
  ghost predicate ColdPhase(n: nat, acts: seq<nat>)
  {
    && Distinct(acts[..if |acts| < n then |acts| else n])
    && (|acts| >= n ==> forall a :: 0 <= a < n ==> a in acts[..n])
  }

  lemma CountsAfterStep(counts0: seq<nat>, acts: seq<nat>, x: nat)
    ensures CountsAfter(counts0, acts + [x])
         == (var c := CountsAfter(counts0, acts); if x < |c| then c[x := c[x] + 1] else c)
  {
    var s := acts + [x];
    assert s != [] && s[|s| - 1] == x;
    assert s[..|s| - 1] == acts;
  }

  lemma HistoryAfterStep(history0: seq<seq<real>>, acts: seq<nat>, rews: seq<real>, x: nat, r: real)
    requires |acts| == |rews|
    ensures HistoryAfter(history0, acts + [x], rews + [r])
         == (var h := HistoryAfter(history0, acts, rews); if x < |h| then h[x := h[x] + [r]] else h)
  {
    assert (acts + [x])[..|acts|] == acts;
    assert (rews + [r])[..|rews|] == rews;
  }

  /** Replaying one more in-range action bumps its count and appends its reward. */
  lemma ReplayStep(counts0: seq<nat>, history0: seq<seq<real>>, acts: seq<nat>, rews: seq<real>, x: nat, r: real)
    requires |acts| == |rews| && x < |counts0| && x < |history0|
    ensures CountsAfter(counts0, acts + [x])
         == CountsAfter(counts0, acts)[x := CountsAfter(counts0, acts)[x] + 1]
    ensures HistoryAfter(history0, acts + [x], rews + [r])
         == HistoryAfter(history0, acts, rews)[x := HistoryAfter(history0, acts, rews)[x] + [r]]
  {
    CountsAfterStep(counts0, acts, x);
    HistoryAfterStep(history0, acts, rews, x, r);
  }

  lemma AllRecordedStep(bandit: Bandit, draws: seq<StepDraws>, n: nat, acts: seq<nat>, rews: seq<real>,
                        x: nat, r: real)
    requires AllRecorded(bandit, draws, n, acts, rews)
    requires |acts| < |draws| && x < n && Recorded(bandit, x, draws[|acts|].pull, r)
    ensures AllRecorded(bandit, draws, n, acts + [x], rews + [r])
  {
    assert (acts + [x])[..|acts|] == acts;
    assert (rews + [r])[..|rews|] == rews;
  }

  lemma AllChosenStep(policy: Policy, draws: seq<StepDraws>, counts0: seq<nat>, history0: seq<seq<real>>,
                      t0: nat, acts: seq<nat>, rews: seq<real>, x: nat, r: real)
    requires AllChosen(policy, draws, counts0, history0, t0, acts, rews)
    requires |acts| < |draws| && |counts0| == |history0| > 0
    requires x == NextChoice(policy, draws, counts0, history0, t0, acts, rews)
    ensures AllChosen(policy, draws, counts0, history0, t0, acts + [x], rews + [r])
  {
    FrontOfAppend(acts, x);
    FrontOfAppend(rews, r);
  }

  /** Dropping the last entry of s + [x] gives s back. */
  lemma FrontOfAppend<T>(s: seq<T>, x: T)
    ensures (s + [x])[..|s + [x]| - 1] == s && (s + [x])[|s + [x]| - 1] == x
  {
  }

  /** AllChosen, step by step. */
  lemma {:induction false} ChosenEach(policy: Policy, draws: seq<StepDraws>, counts0: seq<nat>,
                                      history0: seq<seq<real>>, t0: nat, acts: seq<nat>, rews: seq<real>)
    requires AllChosen(policy, draws, counts0, history0, t0, acts, rews)
    ensures forall s :: 0 <= s < |acts| ==>
              && |counts0| == |history0| > 0
              && acts[s] == NextChoice(policy, draws, counts0, history0, t0, acts[..s], rews[..s])
  {
    if acts != [] {
      var k := |acts| - 1;
      var front, rfront := acts[..k], rews[..k];
      ChosenEach(policy, draws, counts0, history0, t0, front, rfront);
      forall s | 0 <= s < |acts|
        ensures acts[s] == NextChoice(policy, draws, counts0, history0, t0, acts[..s], rews[..s])
      {
        if s < k {
          ChosenInFront(policy, draws, counts0, history0, t0, acts, rews, s);
        } else {
          assert acts[..s] == front && rews[..s] == rfront && acts[s] == acts[k];
        }
      }
    }
  }

  /** A step before the last is chosen in the trial as it was in the trial without the last
      step. */
  lemma ChosenInFront(policy: Policy, draws: seq<StepDraws>, counts0: seq<nat>, history0: seq<seq<real>>,
                      t0: nat, acts: seq<nat>, rews: seq<real>, s: nat)
    requires |counts0| == |history0| > 0 && |acts| == |rews| <= |draws| && s < |acts| - 1
    requires acts[..|acts| - 1][s]
          == NextChoice(policy, draws, counts0, history0, t0, acts[..|acts| - 1][..s], rews[..|rews| - 1][..s])
    ensures acts[s] == NextChoice(policy, draws, counts0, history0, t0, acts[..s], rews[..s])
  {
    assert acts[..|acts| - 1][..s] == acts[..s] && rews[..|rews| - 1][..s] == rews[..s];
  }

  /** Both records, step by step: every action is an arm, pulled with its step's draw for the
      recorded reward, and the policy's choice after the steps before it. */
  lemma TrialSteps(bandit: Bandit, policy: Policy, draws: seq<StepDraws>, n: nat, counts0: seq<nat>,
                   history0: seq<seq<real>>, t0: nat, acts: seq<nat>, rews: seq<real>)
    requires AllRecorded(bandit, draws, n, acts, rews)
    requires AllChosen(policy, draws, counts0, history0, t0, acts, rews)
    ensures forall s :: 0 <= s < |acts| ==>
              && acts[s] < n
              && bandit.Pull(acts[s], draws[s].pull).Success?
              && rews[s] == bandit.Pull(acts[s], draws[s].pull).value as real
              && |counts0| == |history0| > 0
              && acts[s] == NextChoice(policy, draws, counts0, history0, t0, acts[..s], rews[..s])
  {
    RecordedEach(bandit, draws, n, acts, rews);
    ChosenEach(policy, draws, counts0, history0, t0, acts, rews);
  }

  /** AllRecorded, step by step. */
  lemma {:induction false} RecordedEach(bandit: Bandit, draws: seq<StepDraws>, n: nat, acts: seq<nat>, rews: seq<real>)
    requires AllRecorded(bandit, draws, n, acts, rews)
    ensures forall s :: 0 <= s < |acts| ==> acts[s] < n && Recorded(bandit, acts[s], draws[s].pull, rews[s])
  {
    if acts != [] {
      var front, rfront := acts[..|acts| - 1], rews[..|rews| - 1];
      RecordedEach(bandit, draws, n, front, rfront);
      assert forall s :: 0 <= s < |front| ==> acts[s] == front[s] && rews[s] == rfront[s];
    }
  }

  /** Per arm, the replayed history is the starting history followed by the rewards the trial
      obtained on that arm. */
  lemma {:induction false} HistoryAfterArm(history0: seq<seq<real>>, acts: seq<nat>, rews: seq<real>, a: nat)
    requires |acts| == |rews| && a < |history0|
    ensures HistoryAfter(history0, acts, rews)[a] == history0[a] + RewardsOf(acts, rews, a)
  {
    if acts != [] {
      HistoryAfterArm(history0, acts[..|acts| - 1], rews[..|rews| - 1], a);
    }
  }

  /** From all-zero counts, distinct actions leave a count of one exactly on the arms among
      them. */
  lemma {:induction false} ColdCounts(counts0: seq<nat>, acts: seq<nat>)
    requires forall a :: 0 <= a < |counts0| ==> counts0[a] == 0
    requires Distinct(acts)
    ensures ColdState(CountsAfter(counts0, acts), acts)
  {
    if acts != [] {
      var front, x := acts[..|acts| - 1], acts[|acts| - 1];
      assert Distinct(front);
      ColdCounts(counts0, front);
      var c := CountsAfter(counts0, front);
      assert x !in front;
      assert acts == front + [x];
      if x < |c| {
        ColdStartStep(c, front, x);
      }
    }
  }

  /** The bookkeeping of one step of a trial: the counts' total grows by one and, in a cold
      start, the cold-start phase goes on. */
  lemma Advance(counts0: seq<nat>, n: nat, total0: nat, coldStart: bool, acts: seq<nat>, x: nat)
    requires |counts0| == n && x < n
    requires Total(CountsAfter(counts0, acts)) == total0 + |acts|
    requires coldStart ==> total0 == 0 && (forall a :: 0 <= a < n ==> counts0[a] == 0) && ColdPhase(n, acts)
    requires coldStart && |acts| < n ==> CountsAfter(counts0, acts)[x] == 0
    ensures Total(CountsAfter(counts0, acts + [x])) == total0 + |acts| + 1
    ensures coldStart ==> ColdPhase(n, acts + [x])
  {
    var c := CountsAfter(counts0, acts);
    CountsAfterStep(counts0, acts, x);
    TotalIncrement(c, x);
    if coldStart {
      if |acts| < n {
        ColdAdvance(counts0, n, acts, x);
      } else {
        ColdPhaseOver(n, acts, x);
      }
    }
  }

  /** After the cold-start phase, later steps leave it as it was. */
  lemma ColdPhaseOver(n: nat, acts: seq<nat>, x: nat)
    requires |acts| >= n && ColdPhase(n, acts)
    ensures ColdPhase(n, acts + [x])
  {
    assert (acts + [x])[..n] == acts[..n];
  }

  /** A cold-start step on an untried arm keeps the actions distinct, and the n-th covers every
      arm. */
  lemma ColdAdvance(counts0: seq<nat>, n: nat, acts: seq<nat>, x: nat)
    requires |counts0| == n && x < n && |acts| < n
    requires forall a :: 0 <= a < n ==> counts0[a] == 0
    requires Total(CountsAfter(counts0, acts)) == |acts|
    requires ColdPhase(n, acts) && CountsAfter(counts0, acts)[x] == 0
    ensures ColdPhase(n, acts + [x])
  {
    var c := CountsAfter(counts0, acts);
    assert acts[..|acts|] == acts;
    ColdCounts(counts0, acts);
    ColdStartStep(c, acts, x);
    if |acts| + 1 == n {
      ColdFull(c, acts, x);
    }
    ColdPhaseFrom(n, acts + [x]);
  }

  /** The n-th distinct cold-start action completes the cover of the n arms. */
  lemma ColdFull(c: seq<nat>, acts: seq<nat>, x: nat)
    requires x < |c| && c[x] == 0 && |acts| + 1 == |c| && Total(c) == |acts|
    requires ColdState(c[x := 1], acts + [x])
    ensures forall a :: 0 <= a < |c| ==> a in acts + [x]
  {
    TotalIncrement(c, x);
    assert c[x := c[x] + 1] == c[x := 1];
    ColdStartCovers(c[x := 1], acts + [x]);
  }

  lemma ColdPhaseFrom(n: nat, s: seq<nat>)
    requires |s| <= n && Distinct(s)
    requires |s| == n ==> forall a :: 0 <= a < n ==> a in s
    ensures ColdPhase(n, s)
  {
    assert s[..|s|] == s;
  }

  /** In a cold start, fewer steps than arms leave an untried arm. */
  lemma ColdUntried(counts0: seq<nat>, n: nat, acts: seq<nat>)
    requires |counts0| == n && (forall a :: 0 <= a < n ==> counts0[a] == 0)
    requires Total(CountsAfter(counts0, acts)) == |acts| < n
    requires ColdPhase(n, acts)
    ensures |Untried(CountsAfter(counts0, acts))| > 0
  {
    assert acts[..|acts|] == acts;
    ColdCounts(counts0, acts);
    ColdStartHasUntried(CountsAfter(counts0, acts), acts);
  }

  /** The pure part of what the loop of run_single_experiment keeps: the steps so far were each
      the policy's choice and recorded, the counts' total grew by one per step and, in a cold
      start, the cold-start phase goes on. */
  ghost predicate Progress(bandit: Bandit, policy: Policy, draws: seq<StepDraws>, n: nat, counts0: seq<nat>,
                           history0: seq<seq<real>>, t0: nat, total0: nat, coldStart: bool,
                           acts: seq<nat>, rews: seq<real>)
  {
    && |counts0| == n && |history0| == n && |acts| == |rews| <= |draws|
    && Total(CountsAfter(counts0, acts)) == total0 + |acts|
    && AllRecorded(bandit, draws, n, acts, rews)
    && AllChosen(policy, draws, counts0, history0, t0, acts, rews)
    && (coldStart ==> total0 == 0 && (forall a :: 0 <= a < n ==> counts0[a] == 0) && ColdPhase(n, acts))
  }

  /** A recorded step that is the policy's choice and, while the cold start lasts, picks an
      untried arm keeps the progress. */
  lemma ProgressStep(bandit: Bandit, policy: Policy, draws: seq<StepDraws>, n: nat, counts0: seq<nat>,
                     history0: seq<seq<real>>, t0: nat, total0: nat, coldStart: bool,
                     acts: seq<nat>, rews: seq<real>, x: nat, r: real)
    requires Progress(bandit, policy, draws, n, counts0, history0, t0, total0, coldStart, acts, rews)
    requires |acts| < |draws| && x < n && Recorded(bandit, x, draws[|acts|].pull, r)
    requires x == NextChoice(policy, draws, counts0, history0, t0, acts, rews)
    requires coldStart && |acts| < n ==> CountsAfter(counts0, acts)[x] == 0
    ensures Progress(bandit, policy, draws, n, counts0, history0, t0, total0, coldStart, acts + [x], rews + [r])
  {
    Advance(counts0, n, total0, coldStart, acts, x);
    AllRecordedStep(bandit, draws, n, acts, rews, x, r);
    AllChosenStep(policy, draws, counts0, history0, t0, acts, rews, x, r);
  }

  /** The loop of run_single_experiment: the rounds played so far, each the policy's choice,
      replayed from the agent's counts, history and UCB step counter at the start. */
  method RunSteps(bandit: Bandit, agent: Agent, nSteps: nat, draws: seq<StepDraws>, n: nat,
                  ghost counts0: seq<nat>, ghost history0: seq<seq<real>>, ghost total0: nat,
                  ghost coldStart: bool, ghost t0: nat)
    returns (r: Result<(seq<nat>, seq<real>)>)
    requires bandit.Valid() && agent.Valid() && n == agent.NActions() && |draws| == nSteps
    requires agent.Counts() == counts0 && agent.History() == history0 && Total(counts0) == total0
    requires coldStart ==> agent.Ucb? && total0 == 0 && forall a :: 0 <= a < n ==> counts0[a] == 0
    requires agent.Ucb? ==> agent.ucb.t == t0
    modifies agent.Repr()
    ensures agent.Valid()
    ensures 0 < n <= bandit.nArms ==> r.Success?
    ensures r.Failure? ==> nSteps > 0 && (r.error == EmptyArgument || r.error.InvalidAction?)
    ensures r.Success? ==>
              && |r.value.0| == nSteps
              && Progress(bandit, agent.PolicyOf(), draws, n, counts0, history0, t0, total0, coldStart, r.value.0, r.value.1)
              && agent.Counts() == CountsAfter(counts0, r.value.0)
              && agent.History() == HistoryAfter(history0, r.value.0, r.value.1)
              && (agent.Ucb? ==> agent.ucb.t == t0 + nSteps)
  {
    var actions: seq<nat> := [];
    var rewards: seq<real> := [];
    var step := 0;
    while step < nSteps
      invariant step <= nSteps && |actions| == step && |history0| == n
      invariant agent.Valid()
      invariant Progress(bandit, agent.PolicyOf(), draws, n, counts0, history0, t0, total0, coldStart, actions, rewards)
      invariant agent.Counts() == CountsAfter(counts0, actions)
      invariant agent.History() == HistoryAfter(history0, actions, rewards)
      invariant agent.Ucb? ==> agent.ucb.t == t0 + step
    {
      if coldStart && step < n {
        ColdUntried(counts0, n, actions);
      }
      var result := Step(bandit, agent, draws, step, n, counts0, history0, t0, actions, rewards);
      if result.Failure? {
        return Failure(result.error);
      }
      var (action, reward) := result.value;
      ProgressStep(bandit, agent.PolicyOf(), draws, n, counts0, history0, t0, total0, coldStart, actions, rewards,
                   action, reward);
      actions := actions + [action];
      rewards := rewards + [reward];
      step := step + 1;
    }
    r := Success((actions, rewards));
  }

  /** run_single_experiment: n_steps rounds of select, pull and update, recording each action
      and reward. Each action is the policy's choice for the counts and rewards so far. An
      exception from select_action or pull ends the trial, as it does in run_single_experiment. */
  method RunSingleExperiment(bandit: Bandit, agent: Agent, nSteps: nat, draws: seq<StepDraws>)
    returns (r: Result<Trial>)
    requires bandit.Valid() && agent.Valid()
    requires |draws| == nSteps
    modifies agent.Repr()
    ensures agent.Valid()
    ensures 0 < agent.NActions() <= bandit.nArms ==> r.Success?
    ensures r.Failure? ==> nSteps > 0 && (r.error == EmptyArgument || r.error.InvalidAction?)
    ensures r.Success? ==> |r.value.actions| == nSteps && |r.value.rewards| == nSteps
    ensures r.Success? ==> forall s :: 0 <= s < nSteps ==>
              && r.value.actions[s] < agent.NActions()
              && bandit.Pull(r.value.actions[s], draws[s].pull).Success?
              && r.value.rewards[s] == bandit.Pull(r.value.actions[s], draws[s].pull).value as real
              && r.value.actions[s]
                == NextChoice(agent.PolicyOf(), draws, old(agent.Counts()), old(agent.History()), old(agent.Clock()),
                              r.value.actions[..s], r.value.rewards[..s])
    ensures r.Success? ==>
              AllChosen(agent.PolicyOf(), draws, old(agent.Counts()), old(agent.History()), old(agent.Clock()),
                        r.value.actions, r.value.rewards)
    ensures r.Success? ==> |agent.Counts()| == agent.NActions()
    ensures r.Success? ==> Total(agent.Counts()) == old(Total(agent.Counts())) + nSteps
    ensures r.Success? ==> forall a :: 0 <= a < agent.NActions() ==>
              agent.History()[a] == old(agent.History()[a]) + RewardsOf(r.value.actions, r.value.rewards, a)
    ensures r.Success? && agent.Ucb? ==> agent.ucb.t == old(agent.ucb.t) + nSteps
    ensures r.Success? && agent.Ucb? && old(forall a :: 0 <= a < agent.NActions() ==> agent.ucb.N[a] == 0) ==>
              ColdPhase(agent.NActions(), r.value.actions)
  {
    var n := agent.NActions();
    ghost var counts0 := agent.Counts();
    ghost var history0 := agent.History();
    ghost var total0 := Total(counts0);
    ghost var t0 := agent.Clock();
    ghost var coldStart := agent.Ucb? && forall a :: 0 <= a < n ==> agent.ucb.N[a] == 0;
    if coldStart {
      TotalOfZeros(counts0);
    }
    var run := RunSteps(bandit, agent, nSteps, draws, n, counts0, history0, total0, coldStart, t0);
    if run.Failure? {
      return Failure(run.error);
    }
    var (actions, rewards) := run.value;
    TrialSteps(bandit, agent.PolicyOf(), draws, n, counts0, history0, t0, actions, rewards);
    forall a | 0 <= a < n
      ensures HistoryAfter(history0, actions, rewards)[a] == history0[a] + RewardsOf(actions, rewards, a)
    {
      HistoryAfterArm(history0, actions, rewards, a);
    }
    r := Success(Trial(actions, rewards));
  }

  /** What run_multiple_experiments returns: the reward and the percentage of optimal actions at
      each step, averaged over the experiments, and every experiment's rewards. */
  datatype RunResults = RunResults(avgRewards: seq<real>, optimalActionPct: seq<real>, allRewards: seq<seq<real>>)

  /** The keyword arguments run_multiple_experiments hands on to the agent; an absent one is None. */
  datatype AgentParams = AgentParams(epsilon: Option<real>, c: Option<real>)

  /** The agent_type dispatch of run_multiple_experiments: "epsilon-greedy" takes the epsilon
      keyword, which must be present, "ucb" takes the c keyword, 2.0 when absent, with the
      confidence bonus, and every other name is rejected. */
  function ResolvePolicy(agentType: string, params: AgentParams, bonus: BonusFn): (r: Result<Policy>)
    ensures r.Success? <==> agentType == "ucb" || (agentType == "epsilon-greedy" && params.epsilon.Some?)
    ensures r.Success? && agentType == "epsilon-greedy" ==> r.value == EpsilonGreedyPolicy(params.epsilon.value)
    ensures r.Success? && agentType == "ucb" ==>
              r.value == UcbPolicy(if params.c.Some? then params.c.value else 2.0, bonus)
    ensures r.Failure? && agentType == "epsilon-greedy" ==> r.error == MissingParameter("epsilon")
    ensures r.Failure? && agentType != "epsilon-greedy" ==> r.error == UnknownAgentType(agentType)
  {
    if agentType == "epsilon-greedy" then
      if params.epsilon.Some? then Success(EpsilonGreedyPolicy(params.epsilon.value))
      else Failure(MissingParameter("epsilon"))
    else if agentType == "ucb" then Success(UcbPolicy(if params.c.Some? then params.c.value else 2.0, bonus))
    else Failure(UnknownAgentType(agentType))
  }

  /** The counts of an agent over n arms that has not been updated yet. */
  function FreshCounts(n: nat): (c: seq<nat>)
    ensures |c| == n && forall a :: 0 <= a < n ==> c[a] == 0
  {
    seq(n, a => 0)
  }

  /** The rewards of an agent over n arms that has not been updated yet. */
  function FreshHistory(n: nat): (h: seq<seq<real>>)
    ensures |h| == n && forall a :: 0 <= a < n ==> h[a] == []
  {
    seq(n, a => [])
  }

  /** A fresh agent of the policy over n_actions arms: every estimate and count zero, nothing
      rewarded yet and, for UCB, no step taken. */
  method NewAgent(policy: Policy, nActions: nat) returns (agent: Agent)
    ensures fresh(agent.Repr()) && agent.Valid() && agent.NActions() == nActions
    ensures agent.PolicyOf() == policy
    ensures agent.EpsilonGreedy? <==> policy.EpsilonGreedyPolicy?
    ensures agent.Counts() == FreshCounts(nActions) && agent.History() == FreshHistory(nActions)
    ensures agent.Clock() == 0
    ensures agent.Ucb? ==> forall a :: 0 <= a < nActions ==> agent.ucb.N[a] == 0
  {
    match policy {
      case EpsilonGreedyPolicy(epsilon) =>
        var g := new EpsilonGreedyAgent(nActions, epsilon);
        agent := EpsilonGreedy(g);
      case UcbPolicy(c, bonus) =>
        var u := new UCBAgent(nActions, bonus, c);
        agent := Ucb(u);
    }
    assert agent.Counts() == FreshCounts(nActions);
  }

  /** The sum over experiments of their value at step s: what total_rewards[s] accumulates. */
  function ColumnTotal(rows: seq<seq<real>>, s: nat): real
    requires forall e :: 0 <= e < |rows| ==> s < |rows[e]|
  {
    if rows == [] then 0.0 else ColumnTotal(rows[..|rows| - 1], s) + rows[|rows| - 1][s]
  }

  /** The number of experiments whose action at step s is the arm: what optimal_actions[s]
      accumulates. */
  function Hits(actions: seq<seq<nat>>, arm: nat, s: nat): nat
    requires forall e :: 0 <= e < |actions| ==> s < |actions[e]|
  {
    if actions == [] then 0
    else Hits(actions[..|actions| - 1], arm, s) + (if actions[|actions| - 1][s] == arm then 1 else 0)
  }

  lemma ColumnTotalAppend(rows: seq<seq<real>>, row: seq<real>, s: nat)
    requires forall e :: 0 <= e < |rows| ==> s < |rows[e]|
    requires s < |row|
    ensures ColumnTotal(rows + [row], s) == ColumnTotal(rows, s) + row[s]
  {
    assert (rows + [row])[..|rows|] == rows;
  }

  lemma HitsAppend(actions: seq<seq<nat>>, row: seq<nat>, arm: nat, s: nat)
    requires forall e :: 0 <= e < |actions| ==> s < |actions[e]|
    requires s < |row|
    ensures Hits(actions + [row], arm, s) == Hits(actions, arm, s) + (if row[s] == arm then 1 else 0)
  {
    assert (actions + [row])[..|actions|] == actions;
  }

  /** Rewards of 0 or 1 sum, column by column, to at most the number of experiments. */
  lemma {:induction false} ColumnTotalBounds(rows: seq<seq<real>>, s: nat)
    requires forall e :: 0 <= e < |rows| ==> s < |rows[e]| && 0.0 <= rows[e][s] <= 1.0
    ensures 0.0 <= ColumnTotal(rows, s) <= |rows| as real
  {
    if rows != [] {
      ColumnTotalBounds(rows[..|rows| - 1], s);
    }
  }

  /** At most every experiment hits the arm at a step. */
  lemma {:induction false} HitsBound(actions: seq<seq<nat>>, arm: nat, s: nat)
    requires forall e :: 0 <= e < |actions| ==> s < |actions[e]|
    ensures Hits(actions, arm, s) <= |actions|
  {
    if actions != [] {
      HitsBound(actions[..|actions| - 1], arm, s);
    }
  }

  /** A count of at most n, divided by n, is a fraction in [0, 1]. */
  lemma FractionBounds(x: real, n: nat)
    requires n > 0 && 0.0 <= x <= n as real
    ensures 0.0 <= x / (n as real) <= 1.0
  {
    DivMonotone(0.0, x, n as real);
    DivMonotone(x, n as real, n as real);
  }

  /** The actions of every trial. */
  function ActionsOf(trials: seq<Trial>): (r: seq<seq<nat>>)
    ensures |r| == |trials| && forall e :: 0 <= e < |trials| ==> r[e] == trials[e].actions
  {
    seq(|trials|, e requires 0 <= e < |trials| => trials[e].actions)
  }

  /** A trial of n steps with the given draws, by a fresh agent of the policy against a fresh
      bandit over the probabilities: every action is the policy's choice given the trial so far,
      every reward the outcome of pulling it, and under UCB every arm is tried once first. */
  ghost predicate Played(probs: seq<real>, policy: Policy, draws: seq<StepDraws>, trial: Trial)
  {
    && |probs| > 0
    && |trial.actions| == |draws| && |trial.rewards| == |draws|
    && (forall s :: 0 <= s < |draws| ==>
          && trial.actions[s] < |probs|
          && Recorded(MakeBandit(probs).value, trial.actions[s], draws[s].pull, trial.rewards[s]))
    && AllChosen(policy, draws, FreshCounts(|probs|), FreshHistory(|probs|), 0, trial.actions, trial.rewards)
    && (policy.UcbPolicy? ==> ColdPhase(|probs|, trial.actions))
  }

  /** One experiment of run_multiple_experiments: a fresh bandit and a fresh agent, then a
      trial, which cannot fail since the agent has as many actions as the bandit has arms. */
  method RunFresh(probs: seq<real>, policy: Policy, draws: seq<StepDraws>)
    returns (trial: Trial)
    requires |probs| > 0
    ensures Played(probs, policy, draws, trial)
  {
    var bandit := MakeBandit(probs).value;
    var agent := NewAgent(policy, |probs|);
    var run := RunSingleExperiment(bandit, agent, |draws|, draws);
    trial := run.value;
  }

  /** total_rewards += rewards, entry by entry. */
  function AddRewards(totals: seq<real>, rewards: seq<real>): (r: seq<real>)
    requires |totals| == |rewards|
    ensures |r| == |totals|
    ensures forall s :: 0 <= s < |r| ==> r[s] - totals[s] == rewards[s]
  {
    seq(|totals|, s requires 0 <= s < |totals| => totals[s] + rewards[s])
  }

  /** optimal_actions += (actions == optimal_arm), entry by entry. */
  function AddHits(hits: seq<nat>, actions: seq<nat>, arm: nat): (r: seq<nat>)
    requires |hits| == |actions|
    ensures |r| == |hits|
    ensures forall s :: 0 <= s < |r| ==> hits[s] <= r[s] <= hits[s] + 1 && (r[s] == hits[s] + 1 <==> actions[s] == arm)
  {
    seq(|hits|, s requires 0 <= s < |hits| => hits[s] + if actions[s] == arm then 1 else 0)
  }

  /** What the accumulation loop of run_multiple_experiments keeps: the trials so far were
      played with their draws, all_rewards holds their rewards, and total_rewards and
      optimal_actions hold the column sums of the rewards and of the optimal-arm hits. */
  ghost predicate Tallied(probs: seq<real>, policy: Policy, draws: seq<seq<StepDraws>>, nSteps: nat, totals: seq<real>,
                          hits: seq<nat>, allRewards: seq<seq<real>>, trials: seq<Trial>)
  {
    && |probs| > 0
    && |trials| == |allRewards| <= |draws|
    && |totals| == nSteps && |hits| == nSteps
    && AllPlayed(probs, policy, draws, nSteps, allRewards, trials)
    && (forall s :: 0 <= s < nSteps ==> totals[s] == ColumnTotal(allRewards, s))
    && (forall s :: 0 <= s < nSteps ==> hits[s] == Hits(ActionsOf(trials), ArgMax(probs), s))
  }

  /** Every trial so far was played, n steps long, on its experiment's draws, and its rewards
      are recorded. */
  ghost predicate AllPlayed(probs: seq<real>, policy: Policy, draws: seq<seq<StepDraws>>, nSteps: nat,
                            allRewards: seq<seq<real>>, trials: seq<Trial>)
  {
    && |trials| == |allRewards| <= |draws|
    && forall e :: 0 <= e < |trials| ==>
         && Played(probs, policy, draws[e], trials[e]) && allRewards[e] == trials[e].rewards
         && |allRewards[e]| == nSteps && |trials[e].actions| == nSteps
  }

  /** An experiment's entry in AllPlayed depends on its draws, trial and rewards only through
      their values. This states no property of the model; it hands the verifier an equality
      it would otherwise search for, which keeps PlayedAppend's proof cheap. */
  lemma PlayedSame(probs: seq<real>, policy: Policy, nSteps: nat, draws1: seq<StepDraws>, draws2: seq<StepDraws>,
                   trial1: Trial, trial2: Trial, rewards1: seq<real>, rewards2: seq<real>)
    requires Played(probs, policy, draws1, trial1) && rewards1 == trial1.rewards
    requires |rewards1| == nSteps && |trial1.actions| == nSteps
    requires draws1 == draws2 && trial1 == trial2 && rewards1 == rewards2
    ensures Played(probs, policy, draws2, trial2) && rewards2 == trial2.rewards
    ensures |rewards2| == nSteps && |trial2.actions| == nSteps
  {
  }

  /** One more played trial keeps the tally. */
  lemma TalliedStep(probs: seq<real>, policy: Policy, draws: seq<seq<StepDraws>>, nSteps: nat, totals: seq<real>,
                    hits: seq<nat>, allRewards: seq<seq<real>>, trials: seq<Trial>, trial: Trial)
    requires Tallied(probs, policy, draws, nSteps, totals, hits, allRewards, trials) && |trials| < |draws|
    requires |draws[|trials|]| == nSteps && Played(probs, policy, draws[|trials|], trial)
    ensures Tallied(probs, policy, draws, nSteps, AddRewards(totals, trial.rewards),
                    AddHits(hits, trial.actions, ArgMax(probs)), allRewards + [trial.rewards], trials + [trial])
  {
    AccumulateStep(allRewards, trials, trial, ArgMax(probs), nSteps);
    PlayedAppend(probs, policy, draws, nSteps, allRewards, trials, trial);
  }

  /** One more played trial, on the next experiment's draws, keeps every experiment played. */
  lemma PlayedAppend(probs: seq<real>, policy: Policy, draws: seq<seq<StepDraws>>, nSteps: nat,
                     allRewards: seq<seq<real>>, trials: seq<Trial>, trial: Trial)
    requires AllPlayed(probs, policy, draws, nSteps, allRewards, trials) && |trials| < |draws|
    requires |draws[|trials|]| == nSteps && Played(probs, policy, draws[|trials|], trial)
    ensures AllPlayed(probs, policy, draws, nSteps, allRewards + [trial.rewards], trials + [trial])
  {
    var trials', allRewards' := trials + [trial], allRewards + [trial.rewards];
    forall e | 0 <= e < |trials'|
      ensures && Played(probs, policy, draws[e], trials'[e]) && allRewards'[e] == trials'[e].rewards
              && |allRewards'[e]| == nSteps && |trials'[e].actions| == nSteps
    {
      if e < |trials| {
        PlayedSame(probs, policy, nSteps, draws[e], draws[e], trials[e], trials'[e], allRewards[e], allRewards'[e]);
      } else {
        PlayedSame(probs, policy, nSteps, draws[|trials|], draws[e], trial, trials'[e], trial.rewards, allRewards'[e]);
      }
    }
  }

  /** The accumulation loop of run_multiple_experiments: one fresh trial per experiment. */
  method RunAll(probs: seq<real>, policy: Policy, nSteps: nat, draws: seq<seq<StepDraws>>)
    returns (totalRewards: seq<real>, optimalActions: seq<nat>, allRewards: seq<seq<real>>, ghost trials: seq<Trial>)
    requires |probs| > 0
    requires forall e :: 0 <= e < |draws| ==> |draws[e]| == nSteps
    ensures |trials| == |draws|
    ensures Tallied(probs, policy, draws, nSteps, totalRewards, optimalActions, allRewards, trials)
  {
    var optimalArm := ArgMax(probs);
    totalRewards := seq(nSteps, s => 0.0);
    optimalActions := seq(nSteps, s => 0);
    allRewards := [];
    trials := [];
    var e := 0;
    while e < |draws|
      invariant e <= |draws| && |trials| == e
      invariant Tallied(probs, policy, draws, nSteps, totalRewards, optimalActions, allRewards, trials)
    {
      var trial := RunFresh(probs, policy, draws[e]);
      TalliedStep(probs, policy, draws, nSteps, totalRewards, optimalActions, allRewards, trials, trial);
      totalRewards := AddRewards(totalRewards, trial.rewards);
      optimalActions := AddHits(optimalActions, trial.actions, optimalArm);
      allRewards := allRewards + [trial.rewards];
      trials := trials + [trial];
      e := e + 1;
    }
  }

  /** Adding one more trial adds its reward and its optimal-arm hit to every column. */
  lemma AccumulateStep(allRewards: seq<seq<real>>, trials: seq<Trial>, trial: Trial, arm: nat, nSteps: nat)
    requires |allRewards| == |trials|
    requires forall i :: 0 <= i < |trials| ==> |allRewards[i]| == nSteps && |trials[i].actions| == nSteps
    requires |trial.rewards| == nSteps && |trial.actions| == nSteps
    ensures forall s :: 0 <= s < nSteps ==>
              ColumnTotal(allRewards + [trial.rewards], s) == ColumnTotal(allRewards, s) + trial.rewards[s]
    ensures forall s :: 0 <= s < nSteps ==>
              Hits(ActionsOf(trials + [trial]), arm, s)
                == Hits(ActionsOf(trials), arm, s) + (if trial.actions[s] == arm then 1 else 0)
  {
    assert ActionsOf(trials + [trial]) == ActionsOf(trials) + [trial.actions];
    forall s | 0 <= s < nSteps
      ensures ColumnTotal(allRewards + [trial.rewards], s) == ColumnTotal(allRewards, s) + trial.rewards[s]
      ensures Hits(ActionsOf(trials + [trial]), arm, s)
                == Hits(ActionsOf(trials), arm, s) + (if trial.actions[s] == arm then 1 else 0)
    {
      ColumnTotalAppend(allRewards, trial.rewards, s);
      HitsAppend(ActionsOf(trials), trial.actions, arm, s);
    }
  }

  /** Every reward of a played trial is 0 or 1, so each column of them sums to at most the
      number of trials. */
  lemma PlayedColumnBounds(probs: seq<real>, policy: Policy, draws: seq<seq<StepDraws>>, trials: seq<Trial>,
                           allRewards: seq<seq<real>>, s: nat)
    requires |trials| == |draws| == |allRewards|
    requires forall e :: 0 <= e < |draws| ==> Played(probs, policy, draws[e], trials[e]) && allRewards[e] == trials[e].rewards
    requires forall e :: 0 <= e < |draws| ==> s < |draws[e]| && s < |allRewards[e]|
    ensures 0.0 <= ColumnTotal(allRewards, s) <= |allRewards| as real
  {
    forall e | 0 <= e < |allRewards|
      ensures s < |allRewards[e]| && 0.0 <= allRewards[e][s] <= 1.0
    {
      assert Played(probs, policy, draws[e], trials[e]);
      var b := MakeBandit(probs).value;
      assert Recorded(b, trials[e].actions[s], draws[e][s].pull, trials[e].rewards[s]);
    }
    ColumnTotalBounds(allRewards, s);
  }

  /** run_multiple_experiments: n_experiments trials, each with a fresh bandit over the
      probabilities and a fresh agent of the named type, whose rewards and optimal-arm hits are
      summed step by step and averaged. The trials are returned as a ghost record. */
  method RunMultipleExperiments(probs: seq<real>, agentType: string, nExperiments: nat, nSteps: nat,
                                params: AgentParams, bonus: BonusFn, draws: seq<seq<StepDraws>>)
    returns (r: Result<RunResults>, ghost trials: seq<Trial>)
    requires |draws| == nExperiments
    requires forall e :: 0 <= e < nExperiments ==> |draws[e]| == nSteps
    ensures |probs| == 0 ==> r == Failure(EmptyArgument)
    ensures |probs| > 0 && nExperiments == 0 ==>
              r == (if nSteps == 0 then Success(RunResults([], [], [])) else Failure(NoExperiments))
    ensures |probs| > 0 && nExperiments > 0 ==>
              (r.Failure? <==> ResolvePolicy(agentType, params, bonus).Failure?)
    ensures |probs| > 0 && nExperiments > 0 && r.Failure? ==> r.error == ResolvePolicy(agentType, params, bonus).error
    ensures r.Success? ==>
              && |r.value.avgRewards| == nSteps && |r.value.optimalActionPct| == nSteps
              && |r.value.allRewards| == nExperiments && |trials| == nExperiments
    ensures r.Success? && nExperiments > 0 ==> forall e :: 0 <= e < nExperiments ==>
              && Played(probs, ResolvePolicy(agentType, params, bonus).value, draws[e], trials[e])
              && r.value.allRewards[e] == trials[e].rewards
              && |trials[e].actions| == nSteps && |trials[e].rewards| == nSteps
    ensures r.Success? && agentType == "ucb" ==> forall e :: 0 <= e < nExperiments ==>
              ColdPhase(|probs|, trials[e].actions)
    ensures r.Success? ==> forall s :: 0 <= s < nSteps ==>
              r.value.avgRewards[s] == ColumnTotal(r.value.allRewards, s) / (nExperiments as real)
    ensures r.Success? ==> forall s :: 0 <= s < nSteps ==>
              r.value.optimalActionPct[s]
                == (Hits(ActionsOf(trials), ArgMax(probs), s) as real / (nExperiments as real)) * 100.0
    ensures r.Success? ==> forall s :: 0 <= s < nSteps ==>
              && 0.0 <= r.value.avgRewards[s] <= 1.0
              && 0.0 <= r.value.optimalActionPct[s] <= 100.0
  {
    trials := [];
    if |probs| == 0 {
      return Failure(EmptyArgument), trials;
    }
    var optimalArm := ArgMax(probs);
    if nExperiments == 0 {
      if nSteps == 0 {
        return Success(RunResults([], [], [])), trials;
      }
      return Failure(NoExperiments), trials;
    }
    var resolved := ResolvePolicy(agentType, params, bonus);
    if resolved.Failure? {
      return Failure(resolved.error), trials;
    }
    var policy := resolved.value;
    var totalRewards, optimalActions, allRewards;
    totalRewards, optimalActions, allRewards, trials := RunAll(probs, policy, nSteps, draws);
    var avgRewards := seq(nSteps, s requires 0 <= s < nSteps => totalRewards[s] / (nExperiments as real));
    var optimalActionPct := seq(nSteps, s requires 0 <= s < nSteps =>
                              (optimalActions[s] as real / (nExperiments as real)) * 100.0);
    forall s | 0 <= s < nSteps
      ensures 0.0 <= avgRewards[s] <= 1.0 && 0.0 <= optimalActionPct[s] <= 100.0
    {
      PlayedColumnBounds(probs, policy, draws, trials, allRewards, s);
      FractionBounds(totalRewards[s], nExperiments);
      HitsBound(ActionsOf(trials), optimalArm, s);
      FractionBounds(optimalActions[s] as real, nExperiments);
    }
    r := Success(RunResults(avgRewards, optimalActionPct, allRewards));
  }
}
