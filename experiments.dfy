/** The evaluation of a learned table: one episode under the greedy or the
    baseline policy, and the bookkeeping over a series of trial episodes
    that hands the bridge to the next player after every fall. */
module Experiments {
  import opened Common
  import opened GlassBridge
  import opened Episode
  import opened QTable

  // ---------------------------------------------------------------------------
  // The policy

  /** Python's substring test `pat in s`. */
  function Contains(s: string, pat: string): (b: bool)
    ensures pat == [] ==> b
    ensures b ==> |pat| <= |s|
    ensures pat == s ==> b
    decreases |s|
  {
    if |s| < |pat| then false
    else if s[..|pat|] == pat then true
    else Contains(s[1..], pat)
  }

  /** pat occurs in s at offset k. */
  predicate OccursAt(s: string, pat: string, k: nat) {
    k + |pat| <= |s| && s[k..k + |pat|] == pat
  }

  /** Contains holds exactly when pat occurs in s at some offset. */
  lemma {:induction false} ContainsIffOccurs(s: string, pat: string)
    ensures Contains(s, pat) <==> exists k: nat :: OccursAt(s, pat, k)
    decreases |s|
  {
    if |s| < |pat| {
    } else if s[..|pat|] == pat {
      assert OccursAt(s, pat, 0);
    } else {
      ContainsIffOccurs(s[1..], pat);
      if Contains(s[1..], pat) {
        var k: nat :| OccursAt(s[1..], pat, k);
        assert s[k + 1..k + 1 + |pat|] == s[1..][k..k + |pat|];
        assert OccursAt(s, pat, k + 1);
      }
      if k: nat :| OccursAt(s, pat, k) {
        assert k != 0;
        assert s[1..][k - 1..k - 1 + |pat|] == s[k..k + |pat|];
        assert OccursAt(s[1..], pat, k - 1);
      }
    }
  }

  /** A pattern whose first letter does not appear in s does not occur in s. */
  lemma {:induction false} FirstLetterMissing(s: string, pat: string)
    requires |pat| > 0 && pat[0] !in s
    ensures !Contains(s, pat)
    decreases |s|
  {
    if |pat| <= |s| {
      assert s[..|pat|][0] == s[0];
      FirstLetterMissing(s[1..], pat);
    }
  }

  /** Of the policy names the evaluations use, the ones spelt with "baseline"
      act at random; "q_random" and "sarsa_random" act greedily on tables
      trained with random actions. */
  lemma BaselinePolicies()
    ensures Contains("q_baseline", "baseline") && Contains("baseline", "baseline")
    ensures !Contains("q_random", "baseline") && !Contains("sarsa_random", "baseline")
  {
    assert "q_baseline"[2..] == "baseline";
    FirstLetterMissing("q_random", "baseline");
    FirstLetterMissing("sarsa_random", "baseline");
  }

  /** The action run_episode takes at step j in state q: a uniform sample for
      a baseline policy, np.argmax(Q[q, :]) for any other. */
  function EvalAct(t: QValues, policy: string, d: Draws): (act: (nat, nat) -> Action)
    requires Shaped(t, |t|)
    ensures Contains(policy, "baseline") ==> forall j: nat, q: nat :: act(j, q) == d.sample(j)
    ensures !Contains(policy, "baseline") ==> forall j: nat, q: nat :: q < |t| ==> act(j, q) == Greedy(t, q)
  {
    (j: nat, q: nat) =>
      var b: Action := if Contains(policy, "baseline") then d.sample(j) else if q < |t| then Greedy(t, q) else ActionRight;
      b
  }

  // ---------------------------------------------------------------------------
  // run_episode

  /** The rewards run_episode adds up from state s at step i on. Reward 1
      ends the episode, so the return is 0 or 1. */
  function EpisodeReturn(env: Env, act: (nat, nat) -> Action, s: nat, i: nat, pick: nat -> nat): (r: real)
    requires Valid(env) && LastColumnTerminal(env.grid)
    requires s < NumStates(env.grid) && !TerminalAt(env.grid, s)
    ensures r == 0.0 || r == 1.0
    decreases NumCols(env.grid) - ColOf(NumCols(env.grid), s)
  {
    var a := act(i, s);
    var tr := Step(env, s, a, pick(i));
    StepAdvances(env, s, a, pick(i));
    if tr.done then tr.reward else tr.reward + EpisodeReturn(env, act, tr.next, i + 1, pick)
  }

  /** run_episode: from the state reset returns, act, step, add the reward and
      move on until step reports done. Q is only read. */
  method RunEpisode(env: Env, Q: array2<real>, policy: string, d: Draws, ghost t: QValues) returns (total: real)
    requires Valid(env) && LastColumnTerminal(env.grid) && DrawsFit(env, d)
    requires Holds(Q, t) && |t| == NumStates(env.grid)
    ensures total == EpisodeReturn(env, EvalAct(t, policy, d), d.start, 0, d.pick)
  {
    var state: nat := d.start;
    var done := false;
    total := 0.0;
    var i: nat := 0;
    ghost var act := EvalAct(t, policy, d);
    ghost var goal := EpisodeReturn(env, act, d.start, 0, d.pick);
    while !done
      invariant !done ==> state < NumStates(env.grid) && !TerminalAt(env.grid, state) &&
                          total + EpisodeReturn(env, act, state, i, d.pick) == goal
      invariant done ==> total == goal
      decreases if done then 0 else NumCols(env.grid) - ColOf(NumCols(env.grid), state) + 1
    {
      var action: Action;
      if Contains(policy, "baseline") {
        action := d.sample(i);
      } else {
        var row := [Q[state, 0], Q[state, 1]];
        assert row == t[state];
        action := Argmax(row);
      }
      assert action == act(i, state);
      var tr := Step(env, state, action, d.pick(i));
      StepAdvances(env, state, action, d.pick(i));
      total := total + tr.reward;
      state := tr.next;
      done := tr.done;
      i := i + 1;
    }
  }

  /** The rewards along a list of moves. */
  function SumRewards(ms: seq<Move>): real
    decreases |ms|
  {
    if ms == [] then 0.0 else ms[0].tr.reward + SumRewards(ms[1..])
  }

  /** The return is the sum of the rewards of the trajectory the policy and
      the draws produce. */
  lemma {:induction false} ReturnIsSumOfRewards(env: Env, act: (nat, nat) -> Action, s: nat, i: nat, pick: nat -> nat)
    requires Valid(env) && LastColumnTerminal(env.grid)
    requires s < NumStates(env.grid) && !TerminalAt(env.grid, s)
    ensures EpisodeReturn(env, act, s, i, pick) == SumRewards(Rollout(env, s, i, act, pick))
    decreases NumCols(env.grid) - ColOf(NumCols(env.grid), s)
  {
    var ms := Rollout(env, s, i, act, pick);
    var tr := ms[0].tr;
    StepAdvances(env, s, act(i, s), pick(i));
    if tr.done {
      assert ms[1..] == [];
    } else {
      ReturnIsSumOfRewards(env, act, tr.next, i + 1, pick);
      assert ms[1..] == Rollout(env, tr.next, i + 1, act, pick);
    }
  }

  /** An episode returns 1 exactly when its last step lands on the goal. */
  lemma {:induction false} WinIffGoal(env: Env, act: (nat, nat) -> Action, s: nat, i: nat, pick: nat -> nat)
    requires Valid(env) && LastColumnTerminal(env.grid)
    requires s < NumStates(env.grid) && !TerminalAt(env.grid, s)
    ensures var ms := Rollout(env, s, i, act, pick);
      EpisodeReturn(env, act, s, i, pick) == 1.0 <==> LetterAt(env.grid, ms[|ms| - 1].tr.next) == 'G'
    decreases NumCols(env.grid) - ColOf(NumCols(env.grid), s)
  {
    var ms := Rollout(env, s, i, act, pick);
    var tr := ms[0].tr;
    StepAdvances(env, s, act(i, s), pick(i));
    if tr.done {
      assert ms == [ms[0]];
      StepPaysOnGoal(env, s, act(i, s), pick(i));
    } else {
      WinIffGoal(env, act, tr.next, i + 1, pick);
      var rest := Rollout(env, tr.next, i + 1, act, pick);
      assert ms == [ms[0]] + rest;
      assert ms[|ms| - 1] == rest[|rest| - 1];
    }
  }

  // ---------------------------------------------------------------------------
  // The bookkeeping over trial episodes

  /** position_wins, curr_pos and total_reward. */
  datatype Tally = Tally(wins: seq<nat>, pos: nat, total: real)

  /** Before the first trial: no wins for any player, player 0 on the bridge. */
  function NewTally(numPlayers: nat): Tally {
    Tally(seq(numPlayers, _ => 0), 0, 0.0)
  }

  /** One trial's outcome: a win is credited to the player on the bridge and
      the next trial starts again from player 0; after a fall the next player
      goes, and after the last player the rotation starts over. */
  function Record(t: Tally, reward: real, numPlayers: nat): (u: Tally)
    requires t.pos < |t.wins| == numPlayers
    ensures |u.wins| == numPlayers && u.pos < numPlayers
    ensures reward != 0.0 ==> u.pos == 0 && u.wins == t.wins[t.pos := t.wins[t.pos] + 1]
    ensures reward == 0.0 ==> u.wins == t.wins && u.pos == (t.pos + 1) % numPlayers
    ensures u.total == t.total + reward
  {
    if reward != 0.0 then Tally(t.wins[t.pos := t.wins[t.pos] + 1], 0, t.total + reward)
    else if t.pos >= numPlayers - 1 then Tally(t.wins, 0, t.total + reward)
    else Tally(t.wins, t.pos + 1, t.total + reward)
  }

  /** The tally after the given trial outcomes, in order. */
  function TallyOf(rewards: seq<real>, numPlayers: nat): (t: Tally)
    requires numPlayers >= 1
    ensures |t.wins| == numPlayers && t.pos < numPlayers
  {
    if rewards == [] then NewTally(numPlayers)
    else Record(TallyOf(rewards[..|rewards| - 1], numPlayers), rewards[|rewards| - 1], numPlayers)
  }

  /** Every win is credited to exactly one player and every reward is added
      to the total. */
  lemma {:induction false} TallyCounts(rewards: seq<real>, numPlayers: nat)
    requires numPlayers >= 1
    ensures SumNat(TallyOf(rewards, numPlayers).wins) == CountNonZero(rewards)
    ensures TallyOf(rewards, numPlayers).total == Sum(rewards)
  {
    if rewards == [] {
      SumNatZeros(numPlayers);
    } else {
      var before := TallyOf(rewards[..|rewards| - 1], numPlayers);
      TallyCounts(rewards[..|rewards| - 1], numPlayers);
      if rewards[|rewards| - 1] != 0.0 {
        SumNatIncrement(before.wins, before.pos);
      }
    }
  }

  /** With rewards of 0 or 1 the total is the number of wins, which is at
      most the number of trials. */
  lemma {:induction false} ZeroOneSumCounts(rewards: seq<real>)
    requires forall k :: 0 <= k < |rewards| ==> rewards[k] == 0.0 || rewards[k] == 1.0
    ensures Sum(rewards) == CountNonZero(rewards) as real
    ensures CountNonZero(rewards) <= |rewards|
  {
    if rewards != [] {
      ZeroOneSumCounts(rewards[..|rewards| - 1]);
    }
  }

  /** The wins credited to the players add up to the total reward. */
  lemma WinsMatchTotal(rewards: seq<real>, numPlayers: nat)
    requires numPlayers >= 1
    requires forall k :: 0 <= k < |rewards| ==> rewards[k] == 0.0 || rewards[k] == 1.0
    ensures var t := TallyOf(rewards, numPlayers);
      SumNat(t.wins) as real == t.total && 0.0 <= t.total <= |rewards| as real
  {
    TallyCounts(rewards, numPlayers);
    ZeroOneSumCounts(rewards);
  }

  /** total_reward / trial_episodes * 100: a total between 0 and the number
      of trials gives a percentage in [0, 100], 0 for no win and 100 for a
      win in every trial. */
  function Percentage(total: real, trials: nat): (p: real)
    requires trials > 0
    ensures 0.0 <= total <= trials as real ==> 0.0 <= p <= 100.0
    ensures total == 0.0 ==> p == 0.0
    ensures total == trials as real ==> p == 100.0
  {
    var n := trials as real;
    assert (total / n) * n == total;
    total / n * 100.0
  }

  /** The returns of trial episodes 0 .. n - 1, episode e using draws(e). */
  function Returns(env: Env, t: QValues, policy: string, draws: nat -> Draws, n: nat): (rs: seq<real>)
    requires Valid(env) && LastColumnTerminal(env.grid) && Shaped(t, NumStates(env.grid))
    requires forall e :: DrawsFit(env, draws(e))
    ensures |rs| == n
    ensures forall e :: 0 <= e < n ==> rs[e] == 0.0 || rs[e] == 1.0
  {
    if n == 0 then []
    else
      var d := draws(n - 1);
      Returns(env, t, policy, draws, n - 1) + [EpisodeReturn(env, EvalAct(t, policy, d), d.start, 0, d.pick)]
  }

  /** The trial loop of the evaluation: run one episode per trial and record
      its outcome. */
  method Evaluate(env: Env, Q: array2<real>, policy: string, trials: nat, numPlayers: nat, draws: nat -> Draws, ghost t: QValues)
    returns (tally: Tally)
    requires Valid(env) && LastColumnTerminal(env.grid) && forall e :: DrawsFit(env, draws(e))
    requires Holds(Q, t) && |t| == NumStates(env.grid) && numPlayers >= 1
    ensures tally == TallyOf(Returns(env, t, policy, draws, trials), numPlayers)
  {
    var wins: seq<nat> := seq(numPlayers, _ => 0);
    var total := 0.0;
    var pos: nat := 0;
    for ep := 0 to trials
      invariant Tally(wins, pos, total) == TallyOf(Returns(env, t, policy, draws, ep), numPlayers)
    {
      ghost var before := Returns(env, t, policy, draws, ep);
      var r := RunEpisode(env, Q, policy, draws(ep), t);
      assert Returns(env, t, policy, draws, ep + 1)[..ep] == before;
      wins, pos, total := RecordTrial(wins, pos, total, r, numPlayers);
    }
    tally := Tally(wins, pos, total);
  }

  /** The bookkeeping after one trial, on position_wins, curr_pos and total_reward. */
  method RecordTrial(wins: seq<nat>, pos: nat, total: real, r: real, numPlayers: nat)
    returns (wins': seq<nat>, pos': nat, total': real)
    requires pos < |wins| == numPlayers
    ensures Tally(wins', pos', total') == Record(Tally(wins, pos, total), r, numPlayers)
  {
    wins', pos' := wins, pos;
    if r != 0.0 {
      wins' := wins'[pos := wins'[pos] + 1];
      pos' := 0;
    } else if pos' >= numPlayers - 1 {
      pos' := 0;
    } else {
      pos' := pos' + 1;
    }
    total' := total + r;
  }
}
