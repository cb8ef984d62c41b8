/** The hyperparameter sweep: for every (alpha, gamma) of the grid and every
    policy, the evaluation's success ratio is compared with the best one so
    far, and the first grid point reaching the best ratio is remembered
    together with its wins per player. */
module Optimize {
  import opened Common
  import opened Experiments

  /** success_ratio, max_alpha, max_gamma and positions of one policy. Before
      any improvement positions holds the placeholder 0, modelled as None. */
  datatype Best = Best(ratio: real, alpha: real, gamma: real, positions: Option<seq<nat>>)

  /** Every policy's entries start at 0. */
  const Unset := Best(0.0, 0.0, 0.0, None)

  /** One evaluated grid point of one policy. */
  datatype Point = Point(alpha: real, gamma: real, ratio: real, wins: seq<nat>)

  /** ratio = total_reward / trial_episodes * 100, with the wins per player. */
  function PointOf(alpha: real, gamma: real, t: Tally, trials: nat): (pt: Point)
    requires trials > 0
    ensures pt.alpha == alpha && pt.gamma == gamma && pt.wins == t.wins
    ensures 0.0 <= t.total <= trials as real ==> 0.0 <= pt.ratio <= 100.0
  {
    Point(alpha, gamma, Percentage(t.total, trials), t.wins)
  }

  /** `if ratio > success_ratio[policy]`: only a strictly better ratio replaces
      the entries. */
  function Consider(b: Best, pt: Point): (c: Best)
    ensures c.ratio == MaxReal(b.ratio, pt.ratio)
    ensures c == b || c == Best(pt.ratio, pt.alpha, pt.gamma, Some(pt.wins))
    ensures pt.ratio <= b.ratio ==> c == b
  {
    if pt.ratio > b.ratio then Best(pt.ratio, pt.alpha, pt.gamma, Some(pt.wins)) else b
  }

  /** The entries after the points, in order. */
  function BestOver(ps: seq<Point>): (b: Best)
    ensures 0.0 <= b.ratio
    ensures b == Unset || (b.positions.Some? && 0.0 < b.ratio)
  {
    if ps == [] then Unset else Consider(BestOver(ps[..|ps| - 1]), ps[|ps| - 1])
  }

  /** The best ratio is at least 0 and at least every point's ratio, and it is
      0 or the ratio of one of the points. */
  lemma {:induction false} BestIsMaximum(ps: seq<Point>)
    ensures var b := BestOver(ps);
      0.0 <= b.ratio && (forall k :: 0 <= k < |ps| ==> ps[k].ratio <= b.ratio) &&
      (b.ratio == 0.0 || exists k :: 0 <= k < |ps| && ps[k].ratio == b.ratio)
  {
    if ps != [] {
      var init := ps[..|ps| - 1];
      BestIsMaximum(init);
      forall k | 0 <= k < |ps| - 1
        ensures ps[k].ratio <= BestOver(ps).ratio
      {
        assert ps[k] == init[k];
      }
      if BestOver(ps).ratio != BestOver(init).ratio {
        assert BestOver(ps).ratio == ps[|ps| - 1].ratio;
      } else if BestOver(init).ratio != 0.0 {
        var k :| 0 <= k < |init| && init[k].ratio == BestOver(init).ratio;
        assert ps[k] == init[k];
      }
    }
  }

  /** The entries are untouched exactly when no point has a positive ratio;
      otherwise they come from the first point that reaches the best ratio. */
  lemma {:induction false} BestIsFirst(ps: seq<Point>)
    ensures var b := BestOver(ps);
      (b == Unset <==> forall k :: 0 <= k < |ps| ==> ps[k].ratio <= 0.0) &&
      (b != Unset ==> exists k :: 0 <= k < |ps| && b == Best(ps[k].ratio, ps[k].alpha, ps[k].gamma, Some(ps[k].wins)) &&
                                  forall j :: 0 <= j < k ==> ps[j].ratio < ps[k].ratio)
  {
    if ps != [] {
      var init := ps[..|ps| - 1];
      var last := ps[|ps| - 1];
      BestIsFirst(init);
      BestIsMaximum(init);
      var b0 := BestOver(init);
      forall k | 0 <= k < |ps| - 1
        ensures ps[k] == init[k]
      {
      }
      if last.ratio > b0.ratio {
        var n := |ps| - 1;
        assert BestOver(ps) == Best(ps[n].ratio, ps[n].alpha, ps[n].gamma, Some(ps[n].wins));
        assert forall j :: 0 <= j < n ==> ps[j].ratio < ps[n].ratio;
      } else if b0 != Unset {
        var k :| 0 <= k < |init| && b0 == Best(init[k].ratio, init[k].alpha, init[k].gamma, Some(init[k].wins)) &&
                 forall j :: 0 <= j < k ==> init[j].ratio < init[k].ratio;
        assert ps[k] == init[k];
      }
    }
  }

  /** success_ratio never decreases over the sweep. */
  lemma {:induction false} BestNeverDecreases(ps: seq<Point>, k: nat)
    requires k <= |ps|
    ensures BestOver(ps[..k]).ratio <= BestOver(ps).ratio
    decreases |ps|
  {
    if k < |ps| {
      var init := ps[..|ps| - 1];
      assert ps[..k] == init[..k];
      BestNeverDecreases(init, k);
    } else {
      assert ps[..k] == ps;
    }
  }

  /** With every ratio a percentage, so is the best one. */
  lemma BestRatioInRange(ps: seq<Point>)
    requires forall k :: 0 <= k < |ps| ==> 0.0 <= ps[k].ratio <= 100.0
    ensures 0.0 <= BestOver(ps).ratio <= 100.0
  {
    BestIsMaximum(ps);
  }

  /** The ratio of an evaluation with 0/1 rewards lies in [0, 100]. */
  lemma PointRatioInRange(alpha: real, gamma: real, rewards: seq<real>, numPlayers: nat)
    requires numPlayers >= 1 && |rewards| > 0
    requires forall k :: 0 <= k < |rewards| ==> rewards[k] == 0.0 || rewards[k] == 1.0
    ensures 0.0 <= PointOf(alpha, gamma, TallyOf(rewards, numPlayers), |rewards|).ratio <= 100.0
  {
    WinsMatchTotal(rewards, numPlayers);
  }

  // ---------------------------------------------------------------------------
  // The sweep

  /** The points of one policy along a row of the grid, for one alpha and the
      gammas in order; run gives the tally of evaluating that policy after
      training with alpha and gamma. */
  function RowPoints(alpha: real, gammas: seq<real>, policy: string, trials: nat, run: (real, real, string) -> Tally): (ps: seq<Point>)
    requires trials > 0
    ensures |ps| == |gammas|
  {
    if gammas == [] then []
    else
      var gamma := gammas[|gammas| - 1];
      RowPoints(alpha, gammas[..|gammas| - 1], policy, trials, run) + [PointOf(alpha, gamma, run(alpha, gamma, policy), trials)]
  }

  /** The points of one policy over the whole grid, alpha in the outer loop. */
  function SweepPoints(alphas: seq<real>, gammas: seq<real>, policy: string, trials: nat, run: (real, real, string) -> Tally): seq<Point>
    requires trials > 0
  {
    if alphas == [] then []
    else SweepPoints(alphas[..|alphas| - 1], gammas, policy, trials, run) + RowPoints(alphas[|alphas| - 1], gammas, policy, trials, run)
  }

  /** A fold over a list extended by one point takes one more step. */
  lemma BestOverSnoc(ps: seq<Point>, pt: Point)
    ensures BestOver(ps + [pt]) == Consider(BestOver(ps), pt)
  {
    assert (ps + [pt])[..|ps|] == ps;
  }

  /** The four dictionaries hold b for policy p. */
  predicate Records(sr: map<string, real>, ma: map<string, real>, mg: map<string, real>,
                    pos: map<string, Option<seq<nat>>>, p: string, b: Best)
  {
    p in sr && p in ma && p in mg && p in pos && Best(sr[p], ma[p], mg[p], pos[p]) == b
  }

  /** No policy is listed twice. */
  predicate Distinct(policies: seq<string>) {
    forall i, j :: 0 <= i < j < |policies| ==> policies[i] != policies[j]
  }

  /** The policies of the list, as a set of dictionary keys. */
  function PolicySet(policies: seq<string>): set<string> {
    set j | 0 <= j < |policies| :: policies[j]
  }

  /** The four dictionaries have exactly the keys ks. */
  predicate KeyedBy(ks: set<string>, sr: map<string, real>, ma: map<string, real>, mg: map<string, real>,
                    pos: map<string, Option<seq<nat>>>)
  {
    sr.Keys == ks && ma.Keys == ks && mg.Keys == ks && pos.Keys == ks
  }

  /** Each dictionary keeps its key set. */
  predicate SameKeys(sr0: map<string, real>, ma0: map<string, real>, mg0: map<string, real>, pos0: map<string, Option<seq<nat>>>,
                     sr: map<string, real>, ma: map<string, real>, mg: map<string, real>, pos: map<string, Option<seq<nat>>>)
  {
    sr.Keys == sr0.Keys && ma.Keys == ma0.Keys && mg.Keys == mg0.Keys && pos.Keys == pos0.Keys
  }

  /** Keys that are not among the policies keep their values. */
  predicate KeepsOthers(policies: seq<string>,
                        sr0: map<string, real>, ma0: map<string, real>, mg0: map<string, real>, pos0: map<string, Option<seq<nat>>>,
                        sr: map<string, real>, ma: map<string, real>, mg: map<string, real>, pos: map<string, Option<seq<nat>>>)
  {
    (forall p :: p in sr0 && p !in policies ==> p in sr && sr[p] == sr0[p]) &&
    (forall p :: p in ma0 && p !in policies ==> p in ma && ma[p] == ma0[p]) &&
    (forall p :: p in mg0 && p !in policies ==> p in mg && mg[p] == mg0[p]) &&
    (forall p :: p in pos0 && p !in policies ==> p in pos && pos[p] == pos0[p])
  }

  /** The sweep: the dictionaries start at 0 for every policy; then for each
      alpha, each gamma and each policy the evaluation's ratio is compared
      with the policy's best. */
  method Sweep(policies: seq<string>, alphas: seq<real>, gammas: seq<real>, trials: nat, run: (real, real, string) -> Tally)
    returns (successRatio: map<string, real>, maxAlpha: map<string, real>, maxGamma: map<string, real>,
             positions: map<string, Option<seq<nat>>>)
    requires trials > 0 && Distinct(policies)
    ensures forall j :: 0 <= j < |policies| ==>
      Records(successRatio, maxAlpha, maxGamma, positions, policies[j], BestOver(SweepPoints(alphas, gammas, policies[j], trials, run)))
    ensures KeyedBy(PolicySet(policies), successRatio, maxAlpha, maxGamma, positions)
  {
    successRatio, maxAlpha, maxGamma, positions := Unsets(policies);
    for ai := 0 to |alphas|
      invariant KeyedBy(PolicySet(policies), successRatio, maxAlpha, maxGamma, positions)
      invariant forall k :: 0 <= k < |policies| ==>
        Records(successRatio, maxAlpha, maxGamma, positions, policies[k], BestOver(SweepPoints(alphas[..ai], gammas, policies[k], trials, run)))
    {
      ghost var done := (p: string) => SweepPoints(alphas[..ai], gammas, p, trials, run);
      successRatio, maxAlpha, maxGamma, positions := SweepRow(policies, alphas[ai], gammas, trials, run, done, successRatio, maxAlpha, maxGamma, positions);
      assert alphas[..ai + 1][..ai] == alphas[..ai];
    }
    assert alphas[..|alphas|] == alphas;
  }

  /** `for policy in policies:` every entry starts at 0. */
  method Unsets(policies: seq<string>)
    returns (successRatio: map<string, real>, maxAlpha: map<string, real>, maxGamma: map<string, real>,
             positions: map<string, Option<seq<nat>>>)
    ensures forall k :: 0 <= k < |policies| ==> Records(successRatio, maxAlpha, maxGamma, positions, policies[k], Unset)
    ensures KeyedBy(PolicySet(policies), successRatio, maxAlpha, maxGamma, positions)
  {
    successRatio, maxAlpha, maxGamma, positions := map[], map[], map[], map[];
    for j := 0 to |policies|
      invariant forall k :: 0 <= k < j ==> Records(successRatio, maxAlpha, maxGamma, positions, policies[k], Unset)
      invariant KeyedBy(PolicySet(policies[..j]), successRatio, maxAlpha, maxGamma, positions)
    {
      var p := policies[j];
      successRatio, maxAlpha, maxGamma, positions := successRatio[p := 0.0], maxAlpha[p := 0.0], maxGamma[p := 0.0], positions[p := None];
    }
    assert policies[..|policies|] == policies;
  }

  /** The loop over gamma for one alpha. Before it, policy p's entries hold
      the best over the points done(p) already visited; after it, over those
      followed by the row of alpha. */
  method SweepRow(policies: seq<string>, alpha: real, gammas: seq<real>, trials: nat, run: (real, real, string) -> Tally,
                  ghost done: string -> seq<Point>,
                  sr0: map<string, real>, ma0: map<string, real>, mg0: map<string, real>, pos0: map<string, Option<seq<nat>>>)
    returns (sr: map<string, real>, ma: map<string, real>, mg: map<string, real>, pos: map<string, Option<seq<nat>>>)
    requires trials > 0 && Distinct(policies)
    requires forall k :: 0 <= k < |policies| ==> Records(sr0, ma0, mg0, pos0, policies[k], BestOver(done(policies[k])))
    ensures forall k :: 0 <= k < |policies| ==>
      Records(sr, ma, mg, pos, policies[k], BestOver(done(policies[k]) + RowPoints(alpha, gammas, policies[k], trials, run)))
    ensures SameKeys(sr0, ma0, mg0, pos0, sr, ma, mg, pos)
    ensures KeepsOthers(policies, sr0, ma0, mg0, pos0, sr, ma, mg, pos)
  {
    sr, ma, mg, pos := sr0, ma0, mg0, pos0;
    forall k | 0 <= k < |policies|
      ensures done(policies[k]) + RowPoints(alpha, gammas[..0], policies[k], trials, run) == done(policies[k])
    {
      assert gammas[..0] == [];
    }
    for gi := 0 to |gammas|
      invariant SameKeys(sr0, ma0, mg0, pos0, sr, ma, mg, pos)
      invariant KeepsOthers(policies, sr0, ma0, mg0, pos0, sr, ma, mg, pos)
      invariant forall k :: 0 <= k < |policies| ==>
        Records(sr, ma, mg, pos, policies[k], BestOver(done(policies[k]) + RowPoints(alpha, gammas[..gi], policies[k], trials, run)))
    {
      var gamma := gammas[gi];
      ghost var sr1, ma1, mg1, pos1 := sr, ma, mg, pos;
      sr, ma, mg, pos := ConsiderAll(policies, alpha, gamma, trials, run, sr, ma, mg, pos);
      RowExtends(policies, alpha, gammas, gi, trials, run, done, sr1, ma1, mg1, pos1, sr, ma, mg, pos);
    }
    assert gammas[..|gammas|] == gammas;
  }

  /** One more gamma of the row: the entries that held the best over the
      points before it and were then compared with its point hold the best
      over the longer row. */
  lemma RowExtends(policies: seq<string>, alpha: real, gammas: seq<real>, gi: nat, trials: nat, run: (real, real, string) -> Tally,
                   done: string -> seq<Point>,
                   sr0: map<string, real>, ma0: map<string, real>, mg0: map<string, real>, pos0: map<string, Option<seq<nat>>>,
                   sr: map<string, real>, ma: map<string, real>, mg: map<string, real>, pos: map<string, Option<seq<nat>>>)
    requires trials > 0 && gi < |gammas|
    requires forall k :: 0 <= k < |policies| ==>
      Records(sr0, ma0, mg0, pos0, policies[k], BestOver(done(policies[k]) + RowPoints(alpha, gammas[..gi], policies[k], trials, run)))
    requires forall k :: 0 <= k < |policies| ==>
      var p := policies[k];
      p in sr0 && p in ma0 && p in mg0 && p in pos0 ==>
      Records(sr, ma, mg, pos, p, Consider(Best(sr0[p], ma0[p], mg0[p], pos0[p]), PointOf(alpha, gammas[gi], run(alpha, gammas[gi], p), trials)))
    ensures forall k :: 0 <= k < |policies| ==>
      Records(sr, ma, mg, pos, policies[k], BestOver(done(policies[k]) + RowPoints(alpha, gammas[..gi + 1], policies[k], trials, run)))
  {
    forall k | 0 <= k < |policies|
      ensures Records(sr, ma, mg, pos, policies[k], BestOver(done(policies[k]) + RowPoints(alpha, gammas[..gi + 1], policies[k], trials, run)))
    {
      var p := policies[k];
      var pt := PointOf(alpha, gammas[gi], run(alpha, gammas[gi], p), trials);
      assert gammas[..gi + 1][..gi] == gammas[..gi];
      assert done(p) + RowPoints(alpha, gammas[..gi + 1], p, trials, run)
          == (done(p) + RowPoints(alpha, gammas[..gi], p, trials, run)) + [pt];
      BestOverSnoc(done(p) + RowPoints(alpha, gammas[..gi], p, trials, run), pt);
    }
  }

  /** The innermost loop: every policy's evaluation at one grid point,
      compared with that policy's best so far. */
  method ConsiderAll(policies: seq<string>, alpha: real, gamma: real, trials: nat, run: (real, real, string) -> Tally,
                     sr0: map<string, real>, ma0: map<string, real>, mg0: map<string, real>, pos0: map<string, Option<seq<nat>>>)
    returns (sr: map<string, real>, ma: map<string, real>, mg: map<string, real>, pos: map<string, Option<seq<nat>>>)
    requires trials > 0 && Distinct(policies)
    requires forall k :: 0 <= k < |policies| ==> policies[k] in sr0 && policies[k] in ma0 && policies[k] in mg0 && policies[k] in pos0
    ensures forall k :: 0 <= k < |policies| ==>
      var p := policies[k];
      Records(sr, ma, mg, pos, p, Consider(Best(sr0[p], ma0[p], mg0[p], pos0[p]), PointOf(alpha, gamma, run(alpha, gamma, p), trials)))
    ensures SameKeys(sr0, ma0, mg0, pos0, sr, ma, mg, pos)
    ensures KeepsOthers(policies, sr0, ma0, mg0, pos0, sr, ma, mg, pos)
  {
    sr, ma, mg, pos := sr0, ma0, mg0, pos0;
    for j := 0 to |policies|
      invariant ComparedUpTo(policies, j, alpha, gamma, trials, run, sr0, ma0, mg0, pos0, sr, ma, mg, pos)
    {
      var p := policies[j];
      ghost var sr1, ma1, mg1, pos1 := sr, ma, mg, pos;
      sr, ma, mg, pos := ConsiderOne(p, alpha, gamma, trials, run(alpha, gamma, p), sr, ma, mg, pos);
      ComparedOneMore(policies, j, alpha, gamma, trials, run, sr0, ma0, mg0, pos0, sr1, ma1, mg1, pos1, sr, ma, mg, pos);
    }
  }

  /** The state of the innermost loop after the first j policies: those hold
      the outcome of the comparison, the others and every key outside the
      policies still hold what they held before the loop. */
  predicate ComparedUpTo(policies: seq<string>, j: nat, alpha: real, gamma: real, trials: nat, run: (real, real, string) -> Tally,
                         sr0: map<string, real>, ma0: map<string, real>, mg0: map<string, real>, pos0: map<string, Option<seq<nat>>>,
                         sr: map<string, real>, ma: map<string, real>, mg: map<string, real>, pos: map<string, Option<seq<nat>>>)
    requires trials > 0 && j <= |policies|
  {
    SameKeys(sr0, ma0, mg0, pos0, sr, ma, mg, pos) &&
    KeepsOthers(policies, sr0, ma0, mg0, pos0, sr, ma, mg, pos) &&
    (forall k :: 0 <= k < |policies| ==> policies[k] in sr0 && policies[k] in ma0 && policies[k] in mg0 && policies[k] in pos0) &&
    (forall k :: 0 <= k < j ==>
      var p := policies[k];
      Records(sr, ma, mg, pos, p, Consider(Best(sr0[p], ma0[p], mg0[p], pos0[p]), PointOf(alpha, gamma, run(alpha, gamma, p), trials)))) &&
    (forall k :: j <= k < |policies| ==>
      var p := policies[k];
      Records(sr, ma, mg, pos, p, Best(sr0[p], ma0[p], mg0[p], pos0[p])))
  }

  /** Comparing policy j extends the loop state by one policy. */
  lemma ComparedOneMore(policies: seq<string>, j: nat, alpha: real, gamma: real, trials: nat, run: (real, real, string) -> Tally,
                        sr0: map<string, real>, ma0: map<string, real>, mg0: map<string, real>, pos0: map<string, Option<seq<nat>>>,
                        sr1: map<string, real>, ma1: map<string, real>, mg1: map<string, real>, pos1: map<string, Option<seq<nat>>>,
                        sr: map<string, real>, ma: map<string, real>, mg: map<string, real>, pos: map<string, Option<seq<nat>>>)
    requires trials > 0 && j < |policies| && Distinct(policies)
    requires ComparedUpTo(policies, j, alpha, gamma, trials, run, sr0, ma0, mg0, pos0, sr1, ma1, mg1, pos1)
    requires var p := policies[j];
      p in sr1 && p in ma1 && p in mg1 && p in pos1 &&
      var c := Consider(Best(sr1[p], ma1[p], mg1[p], pos1[p]), PointOf(alpha, gamma, run(alpha, gamma, p), trials));
      sr == sr1[p := c.ratio] && ma == ma1[p := c.alpha] && mg == mg1[p := c.gamma] && pos == pos1[p := c.positions]
    ensures ComparedUpTo(policies, j + 1, alpha, gamma, trials, run, sr0, ma0, mg0, pos0, sr, ma, mg, pos)
  {
    var p := policies[j];
    assert p in policies;
    forall k | 0 <= k < |policies| && k != j
      ensures policies[k] != p
    {
    }
    forall k | 0 <= k <= j
      ensures var q := policies[k];
        Records(sr, ma, mg, pos, q, Consider(Best(sr0[q], ma0[q], mg0[q], pos0[q]), PointOf(alpha, gamma, run(alpha, gamma, q), trials)))
    {
    }
    forall k | j + 1 <= k < |policies|
      ensures var q := policies[k]; Records(sr, ma, mg, pos, q, Best(sr0[q], ma0[q], mg0[q], pos0[q]))
    {
    }
  }

  /** The body of the innermost loop for one policy p whose evaluation gave
      the tally t: the ratio replaces p's entries only when it is strictly
      larger, and no other key is touched. */
  method ConsiderOne(p: string, alpha: real, gamma: real, trials: nat, t: Tally,
                     sr0: map<string, real>, ma0: map<string, real>, mg0: map<string, real>, pos0: map<string, Option<seq<nat>>>)
    returns (sr: map<string, real>, ma: map<string, real>, mg: map<string, real>, pos: map<string, Option<seq<nat>>>)
    requires trials > 0 && p in sr0 && p in ma0 && p in mg0 && p in pos0
    ensures var c := Consider(Best(sr0[p], ma0[p], mg0[p], pos0[p]), PointOf(alpha, gamma, t, trials));
      sr == sr0[p := c.ratio] && ma == ma0[p := c.alpha] && mg == mg0[p := c.gamma] && pos == pos0[p := c.positions]
  {
    var ratio := t.total / trials as real * 100.0;
    if ratio > sr0[p] {
      sr, ma, mg, pos := sr0[p := ratio], ma0[p := alpha], mg0[p := gamma], pos0[p := Some(t.wins)];
    } else {
      sr, ma, mg, pos := sr0, ma0, mg0, pos0;
      assert sr0[p := sr0[p]] == sr0 && ma0[p := ma0[p]] == ma0 && mg0[p := mg0[p]] == mg0 && pos0[p := pos0[p]] == pos0;
    }
  }
}
