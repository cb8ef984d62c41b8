/** The parts of gym's DiscreteEnv that the learners and the evaluation use,
    with their randomness made explicit: reset returns a start state, step
    picks one recorded entry of T[s][a], action_space.sample returns an
    arbitrary action. On top of that, the trajectory of one episode. */
module Episode {
  import opened Common
  import opened GlassBridge

  /** The random draws one episode consumes. */
  datatype Draws = Draws(
    start: nat,             // the state reset() returns
    coin: real,             // np.random.random() in choose_action
    first: Action,          // action_space.sample() in choose_action
    softmax: Action,        // what softmax_exploration returns
    posterior: Action,      // what posterior_sampling_exploration returns
    sample: nat -> Action,  // action_space.sample() at step i of the episode loop
    pick: nat -> nat)       // which entry of T[s][a] step i draws (past the end: the last one)

  predicate IsStart(env: Env, s: nat)
    requires Valid(env)
  {
    s < NumStates(env.grid) && LetterAt(env.grid, s) == 'S'
  }

  /** Draws that the real generators could produce: reset lands on a start
      cell and np.random.random() lies in [0, 1). */
  predicate DrawsFit(env: Env, d: Draws)
    requires Valid(env)
  {
    IsStart(env, d.start) && 0.0 <= d.coin < 1.0
  }

  /** step(a) from state s: the entry of T[s][a] that draw k selects. */
  function Step(env: Env, s: nat, a: Action, k: nat): (tr: Transition)
    requires Valid(env) && s < NumStates(env.grid)
    ensures tr.next < NumStates(env.grid)
    ensures tr.reward == 0.0 || tr.reward == 1.0
    ensures tr.reward == 1.0 ==> tr.done
    ensures !TerminalAt(env.grid, s) ==> (tr.done <==> TerminalAt(env.grid, tr.next))
  {
    var ts := env.T[s][a];
    TableEntries(env.grid, env.T, s, a);
    var j := Min(k, |ts| - 1);
    EntriesAreSound(env.grid, env.T, s, a, j);
    ts[j]
  }

  /** On thin glass and on the goal, step stays put, pays nothing and reports done. */
  lemma StepFromTerminal(env: Env, s: nat, a: Action, k: nat)
    requires Valid(env) && s < NumStates(env.grid) && TerminalAt(env.grid, s)
    ensures Step(env, s, a, k) == Transition(1.0, s, 0.0, true)
  {
    TerminalCellsLoop(env.grid, env.T, s, a);
  }

  /** From any other cell, step pays 1 exactly when it lands on the goal. */
  lemma StepPaysOnGoal(env: Env, s: nat, a: Action, k: nat)
    requires Valid(env) && s < NumStates(env.grid) && !TerminalAt(env.grid, s)
    ensures Step(env, s, a, k).reward == 1.0 <==> LetterAt(env.grid, Step(env, s, a, k).next) == 'G'
  {
    var ts := env.T[s][a];
    TableEntries(env.grid, env.T, s, a);
    EntriesAreSound(env.grid, env.T, s, a, Min(k, |ts| - 1));
  }

  /** When the last column is terminal, a step from any other cell moves one
      column to the right. */
  lemma StepAdvances(env: Env, s: nat, a: Action, k: nat)
    requires Valid(env) && LastColumnTerminal(env.grid) && s < NumStates(env.grid) && !TerminalAt(env.grid, s)
    ensures ColOf(NumCols(env.grid), Step(env, s, a, k).next) == ColOf(NumCols(env.grid), s) + 1
  {
    var ts := env.T[s][a];
    TableEntries(env.grid, env.T, s, a);
    NonTerminalMovesAdvance(env.grid, env.T, s, a, Min(k, |ts| - 1));
  }

  /** What step returns is one of the entries the constructor recorded for
      (s, a), with positive probability. */
  lemma StepIsRecorded(env: Env, s: nat, a: Action, k: nat)
    requires Valid(env) && s < NumStates(env.grid)
    ensures Step(env, s, a, k) in env.T[s][a]
    ensures Step(env, s, a, k).prob > 0.0
  {
    TableEntries(env.grid, env.T, s, a);
  }

  /** One step of an episode: the state, the action taken and the entry drawn. */
  datatype Move = Move(s: nat, a: Action, tr: Transition)

  /** The moves of an episode from state s at step i, up to and including the
      first step that reports done; act(j, q) is the action taken at step j in
      state q. On a map whose last column is terminal every episode ends, and
      it ends within as many steps as there are columns left. */
  function Rollout(env: Env, s: nat, i: nat, act: (nat, nat) -> Action, pick: nat -> nat): (ms: seq<Move>)
    requires Valid(env) && LastColumnTerminal(env.grid)
    requires s < NumStates(env.grid) && !TerminalAt(env.grid, s)
    ensures 1 <= |ms| <= NumCols(env.grid) - ColOf(NumCols(env.grid), s)
    ensures ms[0] == Move(s, act(i, s), Step(env, s, act(i, s), pick(i)))
    ensures forall k :: 0 <= k < |ms| ==> ms[k].s < NumStates(env.grid) && ms[k].tr.next < NumStates(env.grid)
    decreases NumCols(env.grid) - ColOf(NumCols(env.grid), s)
  {
    var a := act(i, s);
    var tr := Step(env, s, a, pick(i));
    StepAdvances(env, s, a, pick(i));
    if tr.done then
      [Move(s, a, tr)]
    else
      [Move(s, a, tr)] + Rollout(env, tr.next, i + 1, act, pick)
  }

  /** Move m is step j of an episode under act and pick: it starts from a
      state that is not terminal, takes the action act chooses there and
      records the entry step draws. */
  predicate Follows(env: Env, m: Move, j: nat, act: (nat, nat) -> Action, pick: nat -> nat)
    requires Valid(env)
  {
    m.s < NumStates(env.grid) && !TerminalAt(env.grid, m.s) &&
    m.a == act(j, m.s) && m.tr == Step(env, m.s, m.a, pick(j))
  }

  /** Every move of ms follows the policy and the draws, the first one as
      step i. */
  predicate AllFollow(env: Env, ms: seq<Move>, i: nat, act: (nat, nat) -> Action, pick: nat -> nat)
    requires Valid(env)
    decreases |ms|
  {
    ms == [] || (Follows(env, ms[0], i, act, pick) && AllFollow(env, ms[1..], i + 1, act, pick))
  }

  /** AllFollow read position by position: move k is step i + k. */
  lemma {:induction false} AllFollowAt(env: Env, ms: seq<Move>, i: nat, act: (nat, nat) -> Action, pick: nat -> nat, k: nat)
    requires Valid(env) && AllFollow(env, ms, i, act, pick) && k < |ms|
    ensures Follows(env, ms[k], i + k, act, pick)
  {
    if k > 0 {
      AllFollowAt(env, ms[1..], i + 1, act, pick, k - 1);
      assert ms[1..][k - 1] == ms[k] && (i + 1) + (k - 1) == i + k;
    }
  }

  /** Every move of the trajectory follows the policy and the draws. */
  lemma {:induction false} RolloutFollowsPolicy(env: Env, s: nat, i: nat, act: (nat, nat) -> Action, pick: nat -> nat)
    requires Valid(env) && LastColumnTerminal(env.grid)
    requires s < NumStates(env.grid) && !TerminalAt(env.grid, s)
    ensures AllFollow(env, Rollout(env, s, i, act, pick), i, act, pick)
    decreases NumCols(env.grid) - ColOf(NumCols(env.grid), s)
  {
    var ms := Rollout(env, s, i, act, pick);
    assert Follows(env, ms[0], i, act, pick);
    var tr := ms[0].tr;
    StepAdvances(env, s, act(i, s), pick(i));
    if tr.done {
      assert ms[1..] == [];
    } else {
      var rest := Rollout(env, tr.next, i + 1, act, pick);
      RolloutFollowsPolicy(env, tr.next, i + 1, act, pick);
      assert ms[1..] == rest;
    }
  }

  /** Move k of the trajectory takes the action the policy chooses at step
      i + k in the state it starts from. */
  lemma RolloutActionAt(env: Env, s: nat, i: nat, act: (nat, nat) -> Action, pick: nat -> nat, k: nat)
    requires Valid(env) && LastColumnTerminal(env.grid)
    requires s < NumStates(env.grid) && !TerminalAt(env.grid, s)
    requires k < |Rollout(env, s, i, act, pick)|
    ensures var m := Rollout(env, s, i, act, pick)[k]; m.a == act(i + k, m.s)
  {
    var ms := Rollout(env, s, i, act, pick);
    RolloutFollowsPolicy(env, s, i, act, pick);
    AllFollowAt(env, ms, i, act, pick, k);
  }

  /** Each move starts where the previous one ended, no move before the last
      reports done, and the last one does. */
  lemma {:induction false} RolloutChains(env: Env, s: nat, i: nat, act: (nat, nat) -> Action, pick: nat -> nat)
    requires Valid(env) && LastColumnTerminal(env.grid)
    requires s < NumStates(env.grid) && !TerminalAt(env.grid, s)
    ensures var ms := Rollout(env, s, i, act, pick);
      (forall k :: 0 <= k < |ms| - 1 ==> !ms[k].tr.done && ms[k + 1].s == ms[k].tr.next) &&
      ms[|ms| - 1].tr.done
    decreases NumCols(env.grid) - ColOf(NumCols(env.grid), s)
  {
    var ms := Rollout(env, s, i, act, pick);
    var tr := ms[0].tr;
    StepAdvances(env, s, act(i, s), pick(i));
    if !tr.done {
      var rest := Rollout(env, tr.next, i + 1, act, pick);
      RolloutChains(env, tr.next, i + 1, act, pick);
      assert ms == [ms[0]] + rest;
      forall k | 0 <= k < |ms| - 1
        ensures !ms[k].tr.done && ms[k + 1].s == ms[k].tr.next
      {
        assert ms[k + 1] == rest[k];
        if k > 0 {
          assert ms[k] == rest[k - 1];
        }
      }
      assert ms[|ms| - 1] == rest[|rest| - 1];
    }
  }
}
