/** The Q table shared by both learners: its value as rows of action values,
    the array the learners update in place, numpy's argmax and max over a row,
    and the temporal-difference blend both updates perform. */
module QTable {
  import opened GlassBridge

  /** Q[s][a], one row of NumActions values per state. */
  type QValues = seq<seq<real>>

  /** n states, each with one value per action. */
  predicate Shaped(t: QValues, n: nat) {
    |t| == n && forall s :: 0 <= s < n ==> |t[s]| == NumActions
  }

  /** np.zeros([n_states, n_actions]). */
  function Zeros(n: nat): (t: QValues)
    ensures Shaped(t, n)
    ensures forall s, a :: 0 <= s < n && 0 <= a < NumActions ==> t[s][a] == 0.0
  {
    seq(n, _ => seq(NumActions, _ => 0.0))
  }

  /** The array Q holds the values t. */
  ghost predicate Holds(Q: array2<real>, t: QValues)
    reads Q
  {
    Q.Length0 == |t| && Q.Length1 == NumActions && Shaped(t, |t|) &&
    forall s, a :: 0 <= s < |t| && 0 <= a < NumActions ==> Q[s, a] == t[s][a]
  }

  /** The table after Q[s, a] is assigned v. */
  function Set(t: QValues, s: nat, a: Action, v: real): QValues
    requires s < |t| && a < |t[s]|
  {
    t[s := t[s][a := v]]
  }

  // ---------------------------------------------------------------------------
  // np.argmax and np.max over a row

  /** np.argmax: the first index holding the largest value. */
  function Argmax(row: seq<real>): (k: nat)
    requires |row| > 0
    ensures k < |row|
    ensures forall j :: 0 <= j < |row| ==> row[j] <= row[k]
    ensures forall j :: 0 <= j < k ==> row[j] < row[k]
  {
    if |row| == 1 then 0
    else
      var k := Argmax(row[..|row| - 1]);
      if row[|row| - 1] > row[k] then |row| - 1 else k
  }

  /** np.max over a row. */
  function RowMax(row: seq<real>): (m: real)
    requires |row| > 0
    ensures forall j :: 0 <= j < |row| ==> row[j] <= m
    ensures exists j :: 0 <= j < |row| && row[j] == m
  {
    row[Argmax(row)]
  }

  /** The greedy action of state s: np.argmax(Q[s, :]). */
  function Greedy(t: QValues, s: nat): (a: Action)
    requires s < |t| && |t[s]| == NumActions
    ensures forall b: Action :: t[s][b] <= t[s][a]
    ensures a == ActionDiagonal ==> t[s][ActionRight] < t[s][ActionDiagonal]
  {
    Argmax(t[s])
  }

  /** On a tie the greedy action is the first one. */
  lemma GreedyPrefersFirstOnTie(t: QValues, s: nat)
    requires s < |t| && |t[s]| == NumActions && t[s][0] == t[s][1]
    ensures Greedy(t, s) == ActionRight
  {
  }

  // ---------------------------------------------------------------------------
  // The temporal-difference blend: Q[s, a] += alpha * (target - Q[s, a])

  function Blend(cur: real, target: real, alpha: real): (v: real)
    ensures v == (1.0 - alpha) * cur + alpha * target
  {
    cur + alpha * (target - cur)
  }

  /** For 0 <= alpha <= 1 the new value lies between the old value and the target. */
  lemma BlendBetween(cur: real, target: real, alpha: real)
    requires 0.0 <= alpha <= 1.0
    ensures cur <= target ==> cur <= Blend(cur, target, alpha) <= target
    ensures target <= cur ==> target <= Blend(cur, target, alpha) <= cur
  {
    var v := Blend(cur, target, alpha);
    assert v - cur == alpha * (target - cur);
    assert target - v == (1.0 - alpha) * (target - cur);
    if cur <= target {
      ProductNonNegative(alpha, target - cur);
      ProductNonNegative(1.0 - alpha, target - cur);
    } else {
      ProductNonNegative(alpha, cur - target);
      ProductNonNegative(1.0 - alpha, cur - target);
    }
  }

  lemma ProductNonNegative(x: real, y: real)
    requires 0.0 <= x && 0.0 <= y
    ensures 0.0 <= x * y
  {
  }

  lemma ProductInUnit(x: real, y: real)
    requires 0.0 <= x <= 1.0 && 0.0 <= y <= 1.0
    ensures 0.0 <= x * y <= 1.0
  {
    ProductNonNegative(x, y);
    ProductNonNegative(1.0 - x, y);
  }

  /** alpha = 0 leaves the value, alpha = 1 replaces it by the target. */
  lemma BlendEndpoints(cur: real, target: real)
    ensures Blend(cur, target, 0.0) == cur
    ensures Blend(cur, target, 1.0) == target
  {
  }

  // ---------------------------------------------------------------------------
  // The invariant the learners keep

  /** Every value lies in [0, 1]. */
  predicate InUnit(t: QValues) {
    forall s, a :: 0 <= s < |t| && 0 <= a < |t[s]| ==> 0.0 <= t[s][a] <= 1.0
  }

  /** The rows of thin glass and of the goal are zero. */
  predicate TerminalRowsZero(g: Grid, t: QValues)
    requires WellFormed(g) && Shaped(t, NumStates(g))
  {
    forall s :: 0 <= s < |t| && TerminalAt(g, s) ==> t[s][0] == 0.0 && t[s][1] == 0.0
  }

  /** The zero table satisfies both. */
  lemma ZerosAreBounded(g: Grid)
    requires WellFormed(g)
    ensures InUnit(Zeros(NumStates(g))) && TerminalRowsZero(g, Zeros(NumStates(g)))
  {
  }

  /** Assigning a blend towards a target in [0, 1] to the entry of a state
      that is not terminal keeps both invariants. */
  lemma UpdateKeepsBounds(g: Grid, t: QValues, s: nat, a: Action, target: real, alpha: real)
    requires WellFormed(g) && Shaped(t, NumStates(g)) && s < |t| && !TerminalAt(g, s)
    requires InUnit(t) && TerminalRowsZero(g, t)
    requires 0.0 <= target <= 1.0 && 0.0 <= alpha <= 1.0
    ensures var u := Set(t, s, a, Blend(t[s][a], target, alpha));
      Shaped(u, NumStates(g)) && InUnit(u) && TerminalRowsZero(g, u)
  {
    BlendBetween(t[s][a], target, alpha);
  }
}
