/** Tabular Q-learning on the glass bridge: the in-place update loop of one
    episode, the training loop over episodes, and the rescaling of the
    learned table. */
module QLearning {
  import opened Common
  import opened GlassBridge
  import opened Episode
  import opened QTable

  /** The bootstrap target r + gamma * max(Q[s', :]). */
  function QTarget(t: QValues, tr: Transition, gamma: real): real
    requires Shaped(t, |t|) && tr.next < |t|
  {
    tr.reward + gamma * RowMax(t[tr.next])
  }

  /** Q[s, a] += alpha * (r + gamma * np.max(Q[s', :]) - Q[s, a]). */
  function QLearnStep(t: QValues, s: nat, a: Action, tr: Transition, alpha: real, gamma: real): (u: QValues)
    requires Shaped(t, |t|) && s < |t| && tr.next < |t|
    ensures Shaped(u, |t|)
    ensures u[s][a] == (1.0 - alpha) * t[s][a] + alpha * QTarget(t, tr, gamma)
  {
    Set(t, s, a, Blend(t[s][a], QTarget(t, tr, gamma), alpha))
  }

  /** The update as the loop computes it, from the value held for (s, a)
      and the row of s' read from the array. */
  lemma UpdateFromRow(t: QValues, s: nat, a: Action, tr: Transition, alpha: real, gamma: real, cur: real, row: seq<real>)
    requires Shaped(t, |t|) && s < |t| && tr.next < |t|
    requires cur == t[s][a] && |row| == NumActions && row[0] == t[tr.next][0] && row[1] == t[tr.next][1]
    ensures QLearnStep(t, s, a, tr, alpha, gamma)[s][a] == cur + alpha * (tr.reward + gamma * RowMax(row) - cur)
  {
    assert row == t[tr.next];
  }

  /** An update changes Q[s, a] and no other entry. */
  lemma QLearnStepTouchesOneEntry(t: QValues, s: nat, a: Action, tr: Transition, alpha: real, gamma: real, q: nat, b: Action)
    requires Shaped(t, |t|) && s < |t| && tr.next < |t| && q < |t|
    ensures q != s || b != a ==> QLearnStep(t, s, a, tr, alpha, gamma)[q][b] == t[q][b]
    ensures 0.0 <= alpha <= 1.0 ==>
      MinReal(t[s][a], QTarget(t, tr, gamma)) <= QLearnStep(t, s, a, tr, alpha, gamma)[s][a] <= MaxReal(t[s][a], QTarget(t, tr, gamma))
  {
    if 0.0 <= alpha <= 1.0 {
      BlendBetween(t[s][a], QTarget(t, tr, gamma), alpha);
    }
  }

  /** What run_q_learning leaves in Q, from state s at step i of the episode
      on: a uniform sample is taken, step draws an entry, Q[s, a] is updated,
      and the loop goes on from s' until step reports done. */
  function QEpisode(env: Env, t: QValues, s: nat, i: nat, d: Draws, alpha: real, gamma: real): (u: QValues)
    requires Valid(env) && LastColumnTerminal(env.grid) && Shaped(t, NumStates(env.grid))
    requires s < NumStates(env.grid) && !TerminalAt(env.grid, s)
    ensures Shaped(u, NumStates(env.grid))
    decreases NumCols(env.grid) - ColOf(NumCols(env.grid), s)
  {
    var a := d.sample(i);
    var tr := Step(env, s, a, d.pick(i));
    StepAdvances(env, s, a, d.pick(i));
    var next := QLearnStep(t, s, a, tr, alpha, gamma);
    if tr.done then next else QEpisode(env, next, tr.next, i + 1, d, alpha, gamma)
  }

  /** run_q_learning: one episode, updating Q in place. */
  method RunQLearning(env: Env, Q: array2<real>, alpha: real, gamma: real, d: Draws, ghost t0: QValues)
    requires Valid(env) && LastColumnTerminal(env.grid) && DrawsFit(env, d)
    requires Holds(Q, t0) && |t0| == NumStates(env.grid)
    modifies Q
    ensures Holds(Q, QEpisode(env, t0, d.start, 0, d, alpha, gamma))
  {
    var s: nat := d.start;
    var done := false;
    var i: nat := 0;
    ghost var t := t0;
    ghost var goal := QEpisode(env, t0, d.start, 0, d, alpha, gamma);
    while !done
      invariant Holds(Q, t) && |t| == NumStates(env.grid)
      invariant !done ==> s < NumStates(env.grid) && !TerminalAt(env.grid, s) &&
                          QEpisode(env, t, s, i, d, alpha, gamma) == goal
      invariant done ==> t == goal
      decreases if done then 0 else NumCols(env.grid) - ColOf(NumCols(env.grid), s) + 1
    {
      var a := d.sample(i);
      var tr := Step(env, s, a, d.pick(i));
      StepAdvances(env, s, a, d.pick(i));
      done := tr.done;
      LearnStep(Q, s, a, tr, alpha, gamma, t);
      t := QLearnStep(t, s, a, tr, alpha, gamma);
      s := tr.next;
      i := i + 1;
    }
  }

  /** The body of the loop: Q[s, a] += alpha * (r + gamma * np.max(Q[s', :]) - Q[s, a]). */
  method LearnStep(Q: array2<real>, s: nat, a: Action, tr: Transition, alpha: real, gamma: real, ghost t: QValues)
    requires Holds(Q, t) && s < |t| && tr.next < |t|
    modifies Q
    ensures Holds(Q, QLearnStep(t, s, a, tr, alpha, gamma))
  {
    var sPrime, r := tr.next, tr.reward;
    var row := [Q[sPrime, 0], Q[sPrime, 1]];
    ghost var u := QLearnStep(t, s, a, tr, alpha, gamma);
    var updated := Q[s, a] + alpha * (r + gamma * RowMax(row) - Q[s, a]);
    UpdateFromRow(t, s, a, tr, alpha, gamma, Q[s, a], row);
    label before:
    Q[s, a] := updated;
    forall q, b | 0 <= q < |u| && 0 <= b < NumActions
      ensures Q[q, b] == u[q][b]
    {
      if q != s || b != a {
        QLearnStepTouchesOneEntry(t, s, a, tr, alpha, gamma, q, b);
        assert Q[q, b] == old@before(Q[q, b]) == t[q][b];
      }
    }
  }

  /** The table after the first k training episodes, episode e using draws(e). */
  function QTrain(env: Env, t: QValues, draws: nat -> Draws, k: nat, alpha: real, gamma: real): (u: QValues)
    requires Valid(env) && LastColumnTerminal(env.grid) && Shaped(t, NumStates(env.grid))
    requires forall e :: DrawsFit(env, draws(e))
    ensures Shaped(u, NumStates(env.grid))
  {
    if k == 0 then t
    else
      var d := draws(k - 1);
      QEpisode(env, QTrain(env, t, draws, k - 1, alpha, gamma), d.start, 0, d, alpha, gamma)
  }

  /** train_q_learning_agent: a zero table, then one run_q_learning per episode. */
  method TrainQLearning(env: Env, episodes: nat, alpha: real, gamma: real, draws: nat -> Draws) returns (Q: array2<real>)
    requires Valid(env) && LastColumnTerminal(env.grid)
    requires forall e :: DrawsFit(env, draws(e))
    ensures fresh(Q)
    ensures Holds(Q, QTrain(env, Zeros(NumStates(env.grid)), draws, episodes, alpha, gamma))
  {
    var n := NumStates(env.grid);
    Q := new real[n, NumActions]((_, _) => 0.0);
    ghost var zero := Zeros(n);
    for e := 0 to episodes
      invariant Holds(Q, QTrain(env, zero, draws, e, alpha, gamma))
    {
      RunQLearning(env, Q, alpha, gamma, draws(e), QTrain(env, zero, draws, e, alpha, gamma));
    }
  }

  // ---------------------------------------------------------------------------
  // Bounds: rewards are 0 or 1, so with alpha and gamma in [0, 1] every value
  // stays in [0, 1], and terminal rows are never written.

  /** From a state that is not terminal the target lies in [0, 1]: reward 1
      ends the episode on a terminal cell, whose row is zero. */
  lemma TargetInUnit(env: Env, t: QValues, s: nat, a: Action, k: nat, gamma: real)
    requires Valid(env) && Shaped(t, NumStates(env.grid)) && InUnit(t) && TerminalRowsZero(env.grid, t)
    requires s < NumStates(env.grid) && !TerminalAt(env.grid, s) && 0.0 <= gamma <= 1.0
    ensures 0.0 <= QTarget(t, Step(env, s, a, k), gamma) <= 1.0
  {
    var tr := Step(env, s, a, k);
    var row := t[tr.next];
    assert 0.0 <= row[0] <= 1.0 && 0.0 <= row[1] <= 1.0;
    var m := RowMax(row);
    if tr.reward == 1.0 {
      assert TerminalAt(env.grid, tr.next);
      assert row[0] == 0.0 && row[1] == 0.0;
      assert QTarget(t, tr, gamma) == 1.0 + gamma * 0.0;
    } else {
      assert tr.reward == 0.0;
      assert QTarget(t, tr, gamma) == gamma * m;
      ProductInUnit(gamma, m);
    }
  }

  lemma {:induction false} QEpisodeKeepsBounds(env: Env, t: QValues, s: nat, i: nat, d: Draws, alpha: real, gamma: real)
    requires Valid(env) && LastColumnTerminal(env.grid) && Shaped(t, NumStates(env.grid))
    requires s < NumStates(env.grid) && !TerminalAt(env.grid, s)
    requires InUnit(t) && TerminalRowsZero(env.grid, t) && 0.0 <= alpha <= 1.0 && 0.0 <= gamma <= 1.0
    ensures var u := QEpisode(env, t, s, i, d, alpha, gamma);
      InUnit(u) && TerminalRowsZero(env.grid, u)
    decreases NumCols(env.grid) - ColOf(NumCols(env.grid), s)
  {
    var a := d.sample(i);
    var tr := Step(env, s, a, d.pick(i));
    StepAdvances(env, s, a, d.pick(i));
    TargetInUnit(env, t, s, a, d.pick(i), gamma);
    UpdateKeepsBounds(env.grid, t, s, a, QTarget(t, tr, gamma), alpha);
    var next := QLearnStep(t, s, a, tr, alpha, gamma);
    if !tr.done {
      QEpisodeKeepsBounds(env, next, tr.next, i + 1, d, alpha, gamma);
    }
  }

  lemma {:induction false} QTrainKeepsBounds(env: Env, t: QValues, draws: nat -> Draws, k: nat, alpha: real, gamma: real)
    requires Valid(env) && LastColumnTerminal(env.grid) && Shaped(t, NumStates(env.grid))
    requires forall e :: DrawsFit(env, draws(e))
    requires InUnit(t) && TerminalRowsZero(env.grid, t) && 0.0 <= alpha <= 1.0 && 0.0 <= gamma <= 1.0
    ensures var u := QTrain(env, t, draws, k, alpha, gamma);
      InUnit(u) && TerminalRowsZero(env.grid, u)
  {
    if k > 0 {
      QTrainKeepsBounds(env, t, draws, k - 1, alpha, gamma);
      var d := draws(k - 1);
      QEpisodeKeepsBounds(env, QTrain(env, t, draws, k - 1, alpha, gamma), d.start, 0, d, alpha, gamma);
    }
  }

  /** Whatever the draws, the trained table has every value in [0, 1] and
      zero rows on thin glass and on the goal. */
  lemma TrainedTableIsBounded(env: Env, draws: nat -> Draws, k: nat, alpha: real, gamma: real)
    requires Valid(env) && LastColumnTerminal(env.grid)
    requires forall e :: DrawsFit(env, draws(e))
    requires 0.0 <= alpha <= 1.0 && 0.0 <= gamma <= 1.0
    ensures var u := QTrain(env, Zeros(NumStates(env.grid)), draws, k, alpha, gamma);
      InUnit(u) && TerminalRowsZero(env.grid, u)
  {
    ZerosAreBounded(env.grid);
    QTrainKeepsBounds(env, Zeros(NumStates(env.grid)), draws, k, alpha, gamma);
  }

  // ---------------------------------------------------------------------------
  // The episode as a fold over its trajectory

  /** The uniform-sample policy of run_q_learning: the action at step j is the
      j-th sample, whatever the state and whatever Q holds. */
  function SampleAct(d: Draws): (nat, nat) -> Action {
    (j: nat, q: nat) => d.sample(j)
  }

  /** The updates along a list of moves, applied in order. */
  function FoldQ(t: QValues, ms: seq<Move>, alpha: real, gamma: real): (u: QValues)
    requires Shaped(t, |t|)
    requires forall k :: 0 <= k < |ms| ==> ms[k].s < |t| && ms[k].tr.next < |t|
    ensures Shaped(u, |t|)
    decreases |ms|
  {
    if ms == [] then t
    else FoldQ(QLearnStep(t, ms[0].s, ms[0].a, ms[0].tr, alpha, gamma), ms[1..], alpha, gamma)
  }

  /** run_q_learning applies exactly the updates of the trajectory that the
      uniform samples and step's draws produce; Q never influences where the
      episode goes. */
  lemma {:induction false} QEpisodeIsFold(env: Env, t: QValues, s: nat, i: nat, d: Draws, alpha: real, gamma: real)
    requires Valid(env) && LastColumnTerminal(env.grid) && Shaped(t, NumStates(env.grid))
    requires s < NumStates(env.grid) && !TerminalAt(env.grid, s)
    ensures QEpisode(env, t, s, i, d, alpha, gamma) == FoldQ(t, Rollout(env, s, i, SampleAct(d), d.pick), alpha, gamma)
    decreases NumCols(env.grid) - ColOf(NumCols(env.grid), s)
  {
    var ms := Rollout(env, s, i, SampleAct(d), d.pick);
    var a := d.sample(i);
    var tr := Step(env, s, a, d.pick(i));
    StepAdvances(env, s, a, d.pick(i));
    assert ms[0] == Move(s, a, tr);
    var next := QLearnStep(t, s, a, tr, alpha, gamma);
    if tr.done {
      assert ms[1..] == [];
    } else {
      QEpisodeIsFold(env, next, tr.next, i + 1, d, alpha, gamma);
      assert ms[1..] == Rollout(env, tr.next, i + 1, SampleAct(d), d.pick);
    }
  }

  // ---------------------------------------------------------------------------
  // normalize

  /** np.max(Q): the largest value in the table. */
  function TableMax(t: QValues): (m: real)
    requires |t| > 0 && Shaped(t, |t|)
    ensures forall s, a :: 0 <= s < |t| && 0 <= a < NumActions ==> t[s][a] <= m
    ensures exists s, a :: 0 <= s < |t| && 0 <= a < NumActions && t[s][a] == m
  {
    if |t| == 1 then RowMax(t[0])
    else
      var rest := TableMax(t[..|t| - 1]);
      var last := RowMax(t[|t| - 1]);
      if last > rest then last else rest
  }

  /** normalize: divide every value by the largest one when that is positive;
      otherwise hand the table back unchanged. */
  function Normalize(t: QValues): (u: QValues)
    requires |t| > 0 && Shaped(t, |t|)
    ensures Shaped(u, |t|)
  {
    var m := TableMax(t);
    if m > 0.0 then seq(|t|, s requires 0 <= s < |t| => seq(NumActions, a requires 0 <= a < NumActions => t[s][a] / m))
    else t
  }

  /** A value that bounds every entry and is one of them is the maximum. */
  lemma MaxIsUnique(t: QValues, v: real, s0: nat, a0: Action)
    requires |t| > 0 && Shaped(t, |t|) && s0 < |t| && t[s0][a0] == v
    requires forall s, a :: 0 <= s < |t| && 0 <= a < NumActions ==> t[s][a] <= v
    ensures TableMax(t) == v
  {
  }

  lemma DivideByMax(x: real, y: real, m: real)
    requires m > 0.0
    ensures x <= y <==> x / m <= y / m
    ensures m / m == 1.0
  {
  }

  /** When the maximum is positive the normalized table's maximum is 1. */
  lemma NormalizeMaxIsOne(t: QValues)
    requires |t| > 0 && Shaped(t, |t|) && TableMax(t) > 0.0
    ensures TableMax(Normalize(t)) == 1.0
  {
    var m := TableMax(t);
    var u := Normalize(t);
    var s0, a0 :| 0 <= s0 < |t| && 0 <= a0 < NumActions && t[s0][a0] == m;
    forall s, a | 0 <= s < |t| && 0 <= a < NumActions
      ensures u[s][a] <= 1.0
    {
      assert u[s][a] == t[s][a] / m;
      DivideByMax(t[s][a], m, m);
    }
    assert u[s0][a0] == m / m;
    DivideByMax(m, m, m);
    MaxIsUnique(u, 1.0, s0, a0);
  }

  /** Normalizing keeps the order of any two values. */
  lemma NormalizeKeepsOrder(t: QValues, s: nat, a: Action, q: nat, b: Action)
    requires |t| > 0 && Shaped(t, |t|) && s < |t| && q < |t|
    ensures t[s][a] <= t[q][b] <==> Normalize(t)[s][a] <= Normalize(t)[q][b]
  {
    if TableMax(t) > 0.0 {
      DivideByMax(t[s][a], t[q][b], TableMax(t));
    }
  }

  /** A table whose maximum is not positive is returned as it is. */
  lemma NormalizeKeepsNonPositive(t: QValues)
    requires |t| > 0 && Shaped(t, |t|) && TableMax(t) <= 0.0
    ensures Normalize(t) == t
  {
  }

  /** normalize is idempotent. */
  lemma NormalizeIdempotent(t: QValues)
    requires |t| > 0 && Shaped(t, |t|)
    ensures Normalize(Normalize(t)) == Normalize(t)
  {
    var u := Normalize(t);
    if TableMax(t) > 0.0 {
      NormalizeMaxIsOne(t);
      var v := Normalize(u);
      assert |v| == |u|;
      forall s | 0 <= s < |u|
        ensures v[s] == u[s]
      {
        assert v[s][0] == u[s][0] / 1.0;
        assert v[s][1] == u[s][1] / 1.0;
      }
    }
  }
}
