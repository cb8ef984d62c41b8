/** SARSA on the glass bridge: the action choice under the three exploration
    strategies, the on-policy update loop of one episode, and the training
    loop with its decaying exploration rate. */
module Sarsa {
  import opened Common
  import opened GlassBridge
  import opened Episode
  import opened QTable

  // ---------------------------------------------------------------------------
  // choose_action

  /** The action choose_action returns for a state whose row of Q is row.
      The coin, the uniform sample and the two exploration helpers come from
      the draws of the episode. */
  function ChooseAction(row: seq<real>, strategy: string, epsilon: real, d: Draws): (a: Action)
    requires |row| == NumActions
    ensures strategy == "epsilon-greedy" && d.coin < epsilon ==> a == d.first
    ensures strategy == "epsilon-greedy" && epsilon <= d.coin ==>
      (forall b: Action :: row[b] <= row[a]) && (a == ActionDiagonal ==> row[ActionRight] < row[ActionDiagonal])
    ensures strategy == "softmax" ==> a == d.softmax
    ensures strategy == "posterior-sampling" ==> a == d.posterior
    ensures strategy != "epsilon-greedy" && strategy != "softmax" && strategy != "posterior-sampling" ==> a == d.first
  {
    if strategy == "epsilon-greedy" then
      if d.coin < epsilon then d.first else Argmax(row)
    else if strategy == "softmax" then d.softmax
    else if strategy == "posterior-sampling" then d.posterior
    else d.first
  }

  /** With epsilon at most 0 the coin never falls below it: the choice is
      always the greedy one. */
  lemma NoExplorationIsGreedy(t: QValues, s: nat, epsilon: real, d: Draws)
    requires s < |t| && |t[s]| == NumActions && epsilon <= 0.0 && 0.0 <= d.coin
    ensures ChooseAction(t[s], "epsilon-greedy", epsilon, d) == Greedy(t, s)
  {
  }

  /** With epsilon at least 1 the coin, which lies below 1, always falls
      below it: the choice is always the uniform sample. */
  lemma FullExplorationIsUniform(row: seq<real>, epsilon: real, d: Draws)
    requires |row| == NumActions && 1.0 <= epsilon && d.coin < 1.0
    ensures ChooseAction(row, "epsilon-greedy", epsilon, d) == d.first
  {
  }

  // ---------------------------------------------------------------------------
  // The update

  /** The on-policy target r + gamma * Q[s', a']. */
  function SarsaTarget(t: QValues, tr: Transition, aPrime: Action, gamma: real): real
    requires Shaped(t, |t|) && tr.next < |t|
  {
    tr.reward + gamma * t[tr.next][aPrime]
  }

  /** Q[s, a] += alpha * (r + gamma * Q[s', a'] - Q[s, a]). */
  function SarsaStep(t: QValues, s: nat, a: Action, tr: Transition, aPrime: Action, alpha: real, gamma: real): (u: QValues)
    requires Shaped(t, |t|) && s < |t| && tr.next < |t|
    ensures Shaped(u, |t|)
    ensures u[s][a] == (1.0 - alpha) * t[s][a] + alpha * SarsaTarget(t, tr, aPrime, gamma)
  {
    Set(t, s, a, Blend(t[s][a], SarsaTarget(t, tr, aPrime, gamma), alpha))
  }

  /** An update changes Q[s, a] and no other entry; with alpha in [0, 1] the
      new value lies between the old one and the target. */
  lemma SarsaStepTouchesOneEntry(t: QValues, s: nat, a: Action, tr: Transition, aPrime: Action, alpha: real, gamma: real, q: nat, b: Action)
    requires Shaped(t, |t|) && s < |t| && tr.next < |t| && q < |t|
    ensures q != s || b != a ==> SarsaStep(t, s, a, tr, aPrime, alpha, gamma)[q][b] == t[q][b]
    ensures 0.0 <= alpha <= 1.0 ==>
      MinReal(t[s][a], SarsaTarget(t, tr, aPrime, gamma)) <= SarsaStep(t, s, a, tr, aPrime, alpha, gamma)[s][a]
        <= MaxReal(t[s][a], SarsaTarget(t, tr, aPrime, gamma))
  {
    if 0.0 <= alpha <= 1.0 {
      BlendBetween(t[s][a], SarsaTarget(t, tr, aPrime, gamma), alpha);
    }
  }

  /** What run_sarsa leaves in Q, from state s at step i with action a chosen:
      step draws an entry, a' is a uniform sample, Q[s, a] moves towards
      r + gamma * Q[s', a'], and the loop goes on from (s', a') until step
      reports done. */
  function SarsaEpisode(env: Env, t: QValues, s: nat, a: Action, i: nat, d: Draws, alpha: real, gamma: real): (u: QValues)
    requires Valid(env) && LastColumnTerminal(env.grid) && Shaped(t, NumStates(env.grid))
    requires s < NumStates(env.grid) && !TerminalAt(env.grid, s)
    ensures Shaped(u, NumStates(env.grid))
    decreases NumCols(env.grid) - ColOf(NumCols(env.grid), s)
  {
    var tr := Step(env, s, a, d.pick(i));
    StepAdvances(env, s, a, d.pick(i));
    var aPrime := d.sample(i);
    var next := SarsaStep(t, s, a, tr, aPrime, alpha, gamma);
    if tr.done then next else SarsaEpisode(env, next, tr.next, aPrime, i + 1, d, alpha, gamma)
  }

  /** The first action of an episode: choose_action on the row of the start state. */
  function FirstAction(t: QValues, strategy: string, epsilon: real, d: Draws): (a: Action)
    requires d.start < |t| && |t[d.start]| == NumActions
    ensures strategy == "epsilon-greedy" && epsilon <= d.coin ==> a == Greedy(t, d.start)
    ensures strategy == "epsilon-greedy" && d.coin < epsilon ==> a == d.first
  {
    ChooseAction(t[d.start], strategy, epsilon, d)
  }

  /** run_sarsa: one episode, updating Q in place. */
  method RunSarsa(env: Env, Q: array2<real>, alpha: real, gamma: real, strategy: string, epsilon: real, d: Draws, ghost t0: QValues)
    requires Valid(env) && LastColumnTerminal(env.grid) && DrawsFit(env, d)
    requires Holds(Q, t0) && |t0| == NumStates(env.grid)
    modifies Q
    ensures Holds(Q, SarsaEpisode(env, t0, d.start, FirstAction(t0, strategy, epsilon, d), 0, d, alpha, gamma))
  {
    var s: nat := d.start;
    var row := [Q[s, 0], Q[s, 1]];
    assert row == t0[s];
    var a := ChooseAction(row, strategy, epsilon, d);
    var done := false;
    var i: nat := 0;
    ghost var t := t0;
    ghost var goal := SarsaEpisode(env, t0, d.start, a, 0, d, alpha, gamma);
    while !done
      invariant Holds(Q, t) && |t| == NumStates(env.grid)
      invariant !done ==> s < NumStates(env.grid) && !TerminalAt(env.grid, s) &&
                          SarsaEpisode(env, t, s, a, i, d, alpha, gamma) == goal
      invariant done ==> t == goal
      decreases if done then 0 else NumCols(env.grid) - ColOf(NumCols(env.grid), s) + 1
    {
      var tr := Step(env, s, a, d.pick(i));
      StepAdvances(env, s, a, d.pick(i));
      done := tr.done;
      var aPrime := d.sample(i);
      SarsaLearnStep(Q, s, a, tr, aPrime, alpha, gamma, t);
      t := SarsaStep(t, s, a, tr, aPrime, alpha, gamma);
      s := tr.next;
      a := aPrime;
      i := i + 1;
    }
  }

  /** The body of the loop: Q[s, a] += alpha * (r + gamma * Q[s', a'] - Q[s, a]). */
  method SarsaLearnStep(Q: array2<real>, s: nat, a: Action, tr: Transition, aPrime: Action, alpha: real, gamma: real, ghost t: QValues)
    requires Holds(Q, t) && s < |t| && tr.next < |t|
    modifies Q
    ensures Holds(Q, SarsaStep(t, s, a, tr, aPrime, alpha, gamma))
  {
    ghost var u := SarsaStep(t, s, a, tr, aPrime, alpha, gamma);
    var updated := Q[s, a] + alpha * (tr.reward + gamma * Q[tr.next, aPrime] - Q[s, a]);
    assert updated == u[s][a];
    label before:
    Q[s, a] := updated;
    forall q, b | 0 <= q < |u| && 0 <= b < NumActions
      ensures Q[q, b] == u[q][b]
    {
      if q != s || b != a {
        SarsaStepTouchesOneEntry(t, s, a, tr, aPrime, alpha, gamma, q, b);
        assert Q[q, b] == old@before(Q[q, b]) == t[q][b];
      }
    }
  }

  // ---------------------------------------------------------------------------
  // The exploration schedule

  /** After each episode: if epsilon > 0.05, epsilon *= 0.98. */
  function Decay(e: real): (d: real)
    ensures e > 0.05 ==> 0.049 < d < e
    ensures e <= 0.05 ==> d == e
  {
    if e > 0.05 then e * 0.98 else e
  }

  /** The epsilon episode k runs with: 1.0 for the first, decayed after each. */
  function EpsilonAt(k: nat): (e: real)
    ensures 0.049 <= e <= 1.0
  {
    if k == 0 then 1.0 else Decay(EpsilonAt(k - 1))
  }

  function Pow(x: real, k: nat): real {
    if k == 0 then 1.0 else x * Pow(x, k - 1)
  }

  /** The schedule never rises, never exceeds 1 and never falls below
      0.049, the most one decay can take off a value just above 0.05. */
  lemma {:induction false} EpsilonBounds(k: nat)
    ensures 0.049 <= EpsilonAt(k + 1) <= EpsilonAt(k) <= 1.0
  {
    if k > 0 {
      EpsilonBounds(k - 1);
    }
  }

  /** While epsilon is above 0.05 it is 0.98 to the power of the episode number. */
  lemma {:induction false} EpsilonIsGeometric(k: nat)
    requires EpsilonAt(k) > 0.05
    ensures EpsilonAt(k) == Pow(0.98, k)
  {
    if k > 0 {
      EpsilonBounds(k - 1);
      EpsilonIsGeometric(k - 1);
    }
  }

  /** Once epsilon is at most 0.05 it stays where it is for good. */
  lemma {:induction false} EpsilonFreezes(k: nat, m: nat)
    requires EpsilonAt(k) <= 0.05
    ensures EpsilonAt(k + m) == EpsilonAt(k)
  {
    if m > 0 {
      EpsilonFreezes(k, m - 1);
      assert EpsilonAt(k + m) == Decay(EpsilonAt(k + (m - 1)));
    }
  }

  /** The test is made before the multiplication, so the last decay can take
      epsilon below 0.05 rather than to it. */
  lemma DecayUndershoots(e: real)
    requires 0.05 < e < 0.05 / 0.98
    ensures Decay(e) < 0.05
  {
  }

  // ---------------------------------------------------------------------------
  // Training

  /** The table after the first k training episodes, episode e using draws(e)
      and exploration rate EpsilonAt(e). */
  function SarsaTrain(env: Env, t: QValues, draws: nat -> Draws, strategy: string, k: nat, alpha: real, gamma: real): (u: QValues)
    requires Valid(env) && LastColumnTerminal(env.grid) && Shaped(t, NumStates(env.grid))
    requires forall e :: DrawsFit(env, draws(e))
    ensures Shaped(u, NumStates(env.grid))
  {
    if k == 0 then t
    else
      var d := draws(k - 1);
      var before := SarsaTrain(env, t, draws, strategy, k - 1, alpha, gamma);
      SarsaEpisode(env, before, d.start, FirstAction(before, strategy, EpsilonAt(k - 1), d), 0, d, alpha, gamma)
  }

  /** train_sarsa_agent: a zero table and epsilon = 1.0, then one run_sarsa per
      episode followed by the decay. */
  method TrainSarsa(env: Env, episodes: nat, alpha: real, gamma: real, strategy: string, draws: nat -> Draws) returns (Q: array2<real>)
    requires Valid(env) && LastColumnTerminal(env.grid)
    requires forall e :: DrawsFit(env, draws(e))
    ensures fresh(Q)
    ensures Holds(Q, SarsaTrain(env, Zeros(NumStates(env.grid)), draws, strategy, episodes, alpha, gamma))
  {
    var n := NumStates(env.grid);
    Q := new real[n, NumActions]((_, _) => 0.0);
    ghost var zero := Zeros(n);
    var epsilon := 1.0;
    for e := 0 to episodes
      invariant epsilon == EpsilonAt(e)
      invariant Holds(Q, SarsaTrain(env, zero, draws, strategy, e, alpha, gamma))
    {
      TrainEpisode(env, Q, alpha, gamma, strategy, epsilon, draws, e, zero);
      if epsilon > 0.05 {
        epsilon := epsilon * 0.98;
      }
    }
  }

  /** Training episode e: run_sarsa with the exploration rate of episode e
      takes the table of the first e episodes to that of the first e + 1. */
  method TrainEpisode(env: Env, Q: array2<real>, alpha: real, gamma: real, strategy: string, epsilon: real,
                      draws: nat -> Draws, e: nat, ghost zero: QValues)
    requires Valid(env) && LastColumnTerminal(env.grid) && Shaped(zero, NumStates(env.grid))
    requires forall e :: DrawsFit(env, draws(e))
    requires epsilon == EpsilonAt(e) && Holds(Q, SarsaTrain(env, zero, draws, strategy, e, alpha, gamma))
    modifies Q
    ensures Holds(Q, SarsaTrain(env, zero, draws, strategy, e + 1, alpha, gamma))
  {
    ghost var before := SarsaTrain(env, zero, draws, strategy, e, alpha, gamma);
    RunSarsa(env, Q, alpha, gamma, strategy, epsilon, draws(e), before);
  }

  // ---------------------------------------------------------------------------
  // Bounds

  /** From a state that is not terminal the target lies in [0, 1]: reward 1
      ends the episode on a terminal cell, whose row is zero. */
  lemma SarsaTargetInUnit(env: Env, t: QValues, s: nat, a: Action, k: nat, aPrime: Action, gamma: real)
    requires Valid(env) && Shaped(t, NumStates(env.grid)) && InUnit(t) && TerminalRowsZero(env.grid, t)
    requires s < NumStates(env.grid) && !TerminalAt(env.grid, s) && 0.0 <= gamma <= 1.0
    ensures 0.0 <= SarsaTarget(t, Step(env, s, a, k), aPrime, gamma) <= 1.0
  {
    var tr := Step(env, s, a, k);
    var v := t[tr.next][aPrime];
    assert 0.0 <= v <= 1.0;
    if tr.reward == 1.0 {
      assert TerminalAt(env.grid, tr.next);
      assert v == 0.0;
      assert SarsaTarget(t, tr, aPrime, gamma) == 1.0 + gamma * 0.0;
    } else {
      assert tr.reward == 0.0;
      assert SarsaTarget(t, tr, aPrime, gamma) == gamma * v;
      ProductInUnit(gamma, v);
    }
  }

  lemma {:induction false} SarsaEpisodeKeepsBounds(env: Env, t: QValues, s: nat, a: Action, i: nat, d: Draws, alpha: real, gamma: real)
    requires Valid(env) && LastColumnTerminal(env.grid) && Shaped(t, NumStates(env.grid))
    requires s < NumStates(env.grid) && !TerminalAt(env.grid, s)
    requires InUnit(t) && TerminalRowsZero(env.grid, t) && 0.0 <= alpha <= 1.0 && 0.0 <= gamma <= 1.0
    ensures var u := SarsaEpisode(env, t, s, a, i, d, alpha, gamma);
      InUnit(u) && TerminalRowsZero(env.grid, u)
    decreases NumCols(env.grid) - ColOf(NumCols(env.grid), s)
  {
    var tr := Step(env, s, a, d.pick(i));
    StepAdvances(env, s, a, d.pick(i));
    var aPrime := d.sample(i);
    SarsaTargetInUnit(env, t, s, a, d.pick(i), aPrime, gamma);
    UpdateKeepsBounds(env.grid, t, s, a, SarsaTarget(t, tr, aPrime, gamma), alpha);
    var next := SarsaStep(t, s, a, tr, aPrime, alpha, gamma);
    if !tr.done {
      SarsaEpisodeKeepsBounds(env, next, tr.next, aPrime, i + 1, d, alpha, gamma);
    }
  }

  lemma {:induction false} SarsaTrainKeepsBounds(env: Env, t: QValues, draws: nat -> Draws, strategy: string, k: nat, alpha: real, gamma: real)
    requires Valid(env) && LastColumnTerminal(env.grid) && Shaped(t, NumStates(env.grid))
    requires forall e :: DrawsFit(env, draws(e))
    requires InUnit(t) && TerminalRowsZero(env.grid, t) && 0.0 <= alpha <= 1.0 && 0.0 <= gamma <= 1.0
    ensures var u := SarsaTrain(env, t, draws, strategy, k, alpha, gamma);
      InUnit(u) && TerminalRowsZero(env.grid, u)
  {
    if k > 0 {
      SarsaTrainKeepsBounds(env, t, draws, strategy, k - 1, alpha, gamma);
      var d := draws(k - 1);
      var before := SarsaTrain(env, t, draws, strategy, k - 1, alpha, gamma);
      SarsaEpisodeKeepsBounds(env, before, d.start, FirstAction(before, strategy, EpsilonAt(k - 1), d), 0, d, alpha, gamma);
    }
  }

  /** Whatever the strategy and the draws, the trained table has every value
      in [0, 1] and zero rows on thin glass and on the goal. */
  lemma SarsaTrainedTableIsBounded(env: Env, draws: nat -> Draws, strategy: string, k: nat, alpha: real, gamma: real)
    requires Valid(env) && LastColumnTerminal(env.grid)
    requires forall e :: DrawsFit(env, draws(e))
    requires 0.0 <= alpha <= 1.0 && 0.0 <= gamma <= 1.0
    ensures var u := SarsaTrain(env, Zeros(NumStates(env.grid)), draws, strategy, k, alpha, gamma);
      InUnit(u) && TerminalRowsZero(env.grid, u)
  {
    ZerosAreBounded(env.grid);
    SarsaTrainKeepsBounds(env, Zeros(NumStates(env.grid)), draws, strategy, k, alpha, gamma);
  }

  // ---------------------------------------------------------------------------
  // The episode as a fold over its trajectory

  /** The behaviour policy of run_sarsa from step i0 with first action a0:
      a0 at step i0, then at step j the sample drawn at step j - 1. The
      strategy is consulted once, for a0. */
  function SarsaAct(a0: Action, i0: nat, d: Draws): (nat, nat) -> Action {
    (j: nat, q: nat) => var b: Action := if j <= i0 then a0 else d.sample(j - 1); b
  }

  /** A trajectory depends on the policy only from its first step on. */
  lemma {:induction false} RolloutAgrees(env: Env, s: nat, i: nat, act1: (nat, nat) -> Action, act2: (nat, nat) -> Action, pick: nat -> nat)
    requires Valid(env) && LastColumnTerminal(env.grid)
    requires s < NumStates(env.grid) && !TerminalAt(env.grid, s)
    requires forall j: nat, q: nat :: j >= i ==> act1(j, q) == act2(j, q)
    ensures Rollout(env, s, i, act1, pick) == Rollout(env, s, i, act2, pick)
    decreases NumCols(env.grid) - ColOf(NumCols(env.grid), s)
  {
    var a := act1(i, s);
    var tr := Step(env, s, a, pick(i));
    StepAdvances(env, s, a, pick(i));
    if !tr.done {
      RolloutAgrees(env, tr.next, i + 1, act1, act2, pick);
    }
  }

  /** The updates along a list of moves, move k bootstrapping from the sample
      drawn at step i + k. */
  function FoldSarsa(t: QValues, ms: seq<Move>, i: nat, d: Draws, alpha: real, gamma: real): (u: QValues)
    requires Shaped(t, |t|)
    requires forall k :: 0 <= k < |ms| ==> ms[k].s < |t| && ms[k].tr.next < |t|
    ensures Shaped(u, |t|)
    decreases |ms|
  {
    if ms == [] then t
    else FoldSarsa(SarsaStep(t, ms[0].s, ms[0].a, ms[0].tr, d.sample(i), alpha, gamma), ms[1..], i + 1, d, alpha, gamma)
  }

  /** run_sarsa applies exactly the updates of the trajectory that its first
      action, the uniform samples and step's draws produce. */
  lemma {:induction false} SarsaEpisodeIsFold(env: Env, t: QValues, s: nat, a: Action, i: nat, d: Draws, alpha: real, gamma: real)
    requires Valid(env) && LastColumnTerminal(env.grid) && Shaped(t, NumStates(env.grid))
    requires s < NumStates(env.grid) && !TerminalAt(env.grid, s)
    ensures SarsaEpisode(env, t, s, a, i, d, alpha, gamma) == FoldSarsa(t, Rollout(env, s, i, SarsaAct(a, i, d), d.pick), i, d, alpha, gamma)
    decreases NumCols(env.grid) - ColOf(NumCols(env.grid), s)
  {
    var ms := Rollout(env, s, i, SarsaAct(a, i, d), d.pick);
    var tr := Step(env, s, a, d.pick(i));
    StepAdvances(env, s, a, d.pick(i));
    assert ms[0] == Move(s, a, tr);
    var aPrime := d.sample(i);
    var next := SarsaStep(t, s, a, tr, aPrime, alpha, gamma);
    if tr.done {
      assert ms[1..] == [];
    } else {
      SarsaEpisodeIsFold(env, next, tr.next, aPrime, i + 1, d, alpha, gamma);
      RolloutAgrees(env, tr.next, i + 1, SarsaAct(a, i, d), SarsaAct(aPrime, i + 1, d), d.pick);
      assert ms[1..] == Rollout(env, tr.next, i + 1, SarsaAct(a, i, d), d.pick);
    }
  }

  /** On-policy: the action a' that the update of move k bootstraps from is
      the action that move k + 1 takes. */
  lemma BootstrapIsNextAction(env: Env, s: nat, a: Action, i: nat, d: Draws, k: nat)
    requires Valid(env) && LastColumnTerminal(env.grid)
    requires s < NumStates(env.grid) && !TerminalAt(env.grid, s)
    requires k + 1 < |Rollout(env, s, i, SarsaAct(a, i, d), d.pick)|
    ensures Rollout(env, s, i, SarsaAct(a, i, d), d.pick)[k + 1].a == d.sample(i + k)
  {
    var act := SarsaAct(a, i, d);
    RolloutActionAt(env, s, i, act, d.pick, k + 1);
  }
}
