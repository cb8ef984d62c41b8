/** The glass bridge: a grid of glass panels, the numbering of its cells as
    states, and the transition table T[s][a] and initial-state vector that the
    environment's constructor builds from the grid. */
module GlassBridge {
  import opened Common

  /** An action index. */
  type Action = a: nat | a < 2

  const ActionRight: Action := 0
  const ActionDiagonal: Action := 1
  const NumActions: nat := 2

  /** A bridge map, one string per row. 'S' start (safe), 'O' tempered glass
      (safe), '-' thin glass (the player falls), 'G' goal. Letters are not
      checked: any other letter behaves like a safe panel. */
  type Grid = seq<string>

  const Map5x2: Grid := ["SO--G", "--OO-"]
  const Map8x2: Grid := ["SO--O-O-", "--OO-O-G"]
  const Map10x2: Grid := ["--------O-", "SOOOOOOO-G"]
  const Map12x2: Grid := ["--OO-O--OO-G", "SO--O-OO--O-"]

  /** The map the environment's constructor loads. */
  const DefaultMap: Grid := Map8x2

  /** What the constructor relies on: a rectangular character array (numpy
      needs equal rows to give it a two-dimensional shape), at least one
      column, and at least two rows, so that a diagonal move from row 0 lands
      on the map. */
  predicate WellFormed(g: Grid) {
    |g| >= 2 && |g[0]| >= 1 && Rectangular(g, |g[0]|)
  }

  function NumCols(g: Grid): nat
    requires |g| > 0
  {
    |g[0]|
  }

  /** n_states: one state per cell, in the order numpy's ravel lays the
      cells out (NumStatesIsProduct: n_rows * n_cols of them). */
  function NumStates(g: Grid): nat {
    |Flat(g)|
  }

  /** The rows laid end to end: numpy's ravel of the character array. */
  function Flat(g: Grid): string {
    if g == [] then [] else g[0] + Flat(g[1..])
  }

  /** Every row has w letters. */
  predicate Rectangular(g: Grid, w: nat) {
    forall r :: 0 <= r < |g| ==> |g[r]| == w
  }

  // ---------------------------------------------------------------------------
  // State numbering: to_s and its inverse

  /** to_s: the state number of cell (row, col), row-major. */
  function ToS(nCols: nat, row: nat, col: nat): (s: nat)
    ensures col < nCols ==> row * nCols <= s < (row + 1) * nCols
  {
    row * nCols + col
  }

  /** The row of state s: how many whole rows of nCols precede it
      (s / nCols, see RowColAreDivMod). */
  function RowOf(nCols: nat, s: nat): nat
    requires nCols > 0
    decreases s
  {
    if s < nCols then 0 else RowOf(nCols, s - nCols) + 1
  }

  /** The column of state s: what is left after the whole rows (s % nCols). */
  function ColOf(nCols: nat, s: nat): (c: nat)
    requires nCols > 0
    ensures c < nCols
    decreases s
  {
    if s < nCols then s else ColOf(nCols, s - nCols)
  }

  /** Every state number splits into a row and a column that to_s maps back to it. */
  lemma {:induction false} Decompose(nCols: nat, s: nat)
    requires nCols > 0
    ensures ColOf(nCols, s) < nCols && ToS(nCols, RowOf(nCols, s), ColOf(nCols, s)) == s
    decreases s
  {
    if s >= nCols {
      Decompose(nCols, s - nCols);
      var r := RowOf(nCols, s - nCols);
      assert ToS(nCols, r + 1, ColOf(nCols, s)) == nCols + ToS(nCols, r, ColOf(nCols, s));
    }
  }

  /** The cell can be read back from its state number. */
  lemma {:induction false} ToSInverse(nCols: nat, row: nat, col: nat)
    requires col < nCols
    ensures RowOf(nCols, ToS(nCols, row, col)) == row
    ensures ColOf(nCols, ToS(nCols, row, col)) == col
  {
    if row > 0 {
      ToSInverse(nCols, row - 1, col);
      assert ToS(nCols, row, col) - nCols == ToS(nCols, row - 1, col);
    }
  }

  /** Integer division is determined by quotient and remainder. */
  lemma DivModUnique(a: nat, n: nat, q: nat, r: nat)
    requires 0 <= r < n && a == q * n + r
    ensures a / n == q && a % n == r
  {
    var d: int := q - a / n;
    assert d * n == a % n - r;
    MultipleOfWidth(d, n);
  }

  /** A non-zero multiple of n is at least n away from zero. */
  lemma MultipleOfWidth(d: int, n: nat)
    ensures d >= 1 ==> d * n >= n
    ensures d <= -1 ==> d * n <= -(n as int)
  {
  }

  /** RowOf and ColOf are integer division and remainder by the width. */
  lemma RowColAreDivMod(nCols: nat, s: nat)
    requires nCols > 0
    ensures RowOf(nCols, s) == s / nCols && ColOf(nCols, s) == s % nCols
  {
    Decompose(nCols, s);
    DivModUnique(s, nCols, RowOf(nCols, s), ColOf(nCols, s));
  }

  /** to_s maps the cells of an nRows x nCols grid into [0, nRows*nCols). */
  lemma ToSInRange(nRows: nat, nCols: nat, row: nat, col: nat)
    requires row < nRows && col < nCols
    ensures ToS(nCols, row, col) < nRows * nCols
  {
    assert (nRows - row) * nCols >= nCols by {
      MultipleOfWidth(nRows - row, nCols);
    }
    assert nRows * nCols == row * nCols + (nRows - row) * nCols;
  }

  /** Every state number below nRows*nCols is the number of a cell of the
      grid: to_s is onto. */
  lemma StateInGrid(nRows: nat, nCols: nat, s: nat)
    requires nCols > 0 && s < nRows * nCols
    ensures RowOf(nCols, s) < nRows && ColOf(nCols, s) < nCols
    ensures ToS(nCols, RowOf(nCols, s), ColOf(nCols, s)) == s
  {
    Decompose(nCols, s);
    var d: int := RowOf(nCols, s) - nRows;
    assert d * nCols == s - ColOf(nCols, s) - nRows * nCols;
    MultipleOfWidth(d, nCols);
  }

  /** to_s is one-to-one. */
  lemma ToSInjective(nCols: nat, r1: nat, c1: nat, r2: nat, c2: nat)
    requires c1 < nCols && c2 < nCols
    requires ToS(nCols, r1, c1) == ToS(nCols, r2, c2)
    ensures r1 == r2 && c1 == c2
  {
    ToSInverse(nCols, r1, c1);
    ToSInverse(nCols, r2, c2);
  }

  /** A rectangular map has n_rows * n_cols states. */
  lemma {:induction false} NumStatesIsProduct(g: Grid, w: nat)
    requires Rectangular(g, w)
    ensures NumStates(g) == |g| * w
  {
    if g != [] {
      NumStatesIsProduct(g[1..], w);
      assert |g| * w == w + |g[1..]| * w;
    }
  }

  /** In the flattened map, cell (row, col) sits at position to_s(row, col). */
  lemma {:induction false} FlatCell(g: Grid, w: nat, row: nat, col: nat)
    requires Rectangular(g, w) && row < |g| && col < w
    ensures ToS(w, row, col) < NumStates(g) && Flat(g)[ToS(w, row, col)] == g[row][col]
  {
    if row > 0 {
      FlatCell(g[1..], w, row - 1, col);
      assert ToS(w, row, col) == w + ToS(w, row - 1, col);
    }
  }

  /** Position s of the flattened map is the cell (RowOf, ColOf) of the grid. */
  lemma {:induction false} FlatState(g: Grid, w: nat, s: nat)
    requires Rectangular(g, w) && w > 0 && s < |Flat(g)|
    ensures RowOf(w, s) < |g| && ColOf(w, s) < w
    ensures Flat(g)[s] == g[RowOf(w, s)][ColOf(w, s)]
    decreases s
  {
    assert |g[0]| == w;
    if s >= w {
      FlatState(g[1..], w, s - w);
      assert g[1..][RowOf(w, s - w)] == g[RowOf(w, s)];
    }
  }

  /** The letter of the cell numbered s. */
  function LetterAt(g: Grid, s: nat): char
    requires s < NumStates(g)
  {
    Flat(g)[s]
  }

  /** LetterAt reads the grid cell to_s numbers. */
  lemma LetterAtCell(g: Grid, row: nat, col: nat)
    requires WellFormed(g) && row < |g| && col < |g[0]|
    ensures ToS(|g[0]|, row, col) < NumStates(g)
    ensures LetterAt(g, ToS(|g[0]|, row, col)) == g[row][col]
  {
    FlatCell(g, |g[0]|, row, col);
  }

  /** LetterAt reads the grid cell that a state number decomposes into. */
  lemma LetterAtState(g: Grid, s: nat)
    requires WellFormed(g) && s < NumStates(g)
    ensures RowOf(|g[0]|, s) < |g| && ColOf(|g[0]|, s) < |g[0]|
    ensures ToS(|g[0]|, RowOf(|g[0]|, s), ColOf(|g[0]|, s)) == s
    ensures LetterAt(g, s) == g[RowOf(|g[0]|, s)][ColOf(|g[0]|, s)]
  {
    FlatState(g, |g[0]|, s);
    Decompose(|g[0]|, s);
  }

  /** The letters a player stops on: thin glass or the goal (`in b"G-"`). */
  predicate IsTerminalLetter(c: char) {
    c == 'G' || c == '-'
  }

  predicate TerminalAt(g: Grid, s: nat)
    requires WellFormed(g) && s < NumStates(g)
  {
    IsTerminalLetter(LetterAt(g, s))
  }

  // ---------------------------------------------------------------------------
  // Moves: inc, the opposite action, update_probability_matrix

  /** inc: the cell reached by an action. The column advances and stops at the
      last column; a diagonal move swaps rows 0 and 1 and leaves any other row
      where it is. */
  function Inc(nCols: nat, row: nat, col: nat, a: Action): (next: (nat, nat))
    requires nCols >= 1
    ensures col < nCols - 1 ==> next.1 == col + 1
    ensures col >= nCols - 1 ==> next.1 == nCols - 1
    ensures a == ActionRight || row >= 2 ==> next.0 == row
    ensures a == ActionDiagonal && row < 2 ==> next.0 == 1 - row
  {
    var c := Min(col + 1, nCols - 1);
    if a == ActionDiagonal then
      (if row == 0 then (1, c) else if row == 1 then (0, c) else (row, c))
    else
      (row, c)
  }

  /** A move from a cell of a well-formed grid stays on the grid. */
  lemma IncStaysOnGrid(g: Grid, row: nat, col: nat, a: Action)
    requires WellFormed(g) && row < |g| && col < |g[0]|
    ensures Inc(|g[0]|, row, col, a).0 < |g| && Inc(|g[0]|, row, col, a).1 < |g[0]|
  {
  }

  /** The action taken when the player slips: (a + 3) % 2. */
  function Opposite(a: Action): (b: Action)
    ensures b != a && (b == ActionRight <==> a == ActionDiagonal)
  {
    (a + 3) % 2
  }

  /** What a move yields: the next state, its reward and whether the episode ends. */
  datatype Effect = Effect(next: nat, reward: real, done: bool)

  /** update_probability_matrix: where action a leads from (row, col), with a
      reward of 1 exactly when the cell reached is the goal, and done exactly
      when it is the goal or thin glass. */
  function Outcome(g: Grid, row: nat, col: nat, a: Action): (e: Effect)
    requires WellFormed(g) && row < |g| && col < |g[0]|
    ensures e.next < NumStates(g)
    ensures e.next == ToS(|g[0]|, Inc(|g[0]|, row, col, a).0, Inc(|g[0]|, row, col, a).1)
    ensures e.reward == 1.0 <==> LetterAt(g, e.next) == 'G'
    ensures e.reward == 0.0 || e.reward == 1.0
    ensures e.done <==> TerminalAt(g, e.next)
  {
    var (nr, nc) := Inc(|g[0]|, row, col, a);
    LetterAtCell(g, nr, nc);
    var letter := g[nr][nc];
    Effect(ToS(|g[0]|, nr, nc), if letter == 'G' then 1.0 else 0.0, IsTerminalLetter(letter))
  }

  // ---------------------------------------------------------------------------
  // The transition table

  /** One entry of T[s][a]: (probability, next state, reward, done). */
  datatype Transition = Transition(prob: real, next: nat, reward: real, done: bool)

  function WithProb(p: real, e: Effect): Transition {
    Transition(p, e.next, e.reward, e.done)
  }

  /** The entries recorded for action a in cell (row, col): a single certain
      self-loop on thin glass and on the goal; otherwise the intended move with
      probability 0.8 followed by the slip to the opposite move with 0.2. */
  function CellTransitions(g: Grid, row: nat, col: nat, a: Action): (ts: seq<Transition>)
    requires WellFormed(g) && row < |g| && col < |g[0]|
    ensures |ts| == 1 <==> IsTerminalLetter(g[row][col])
    ensures |ts| == 1 || |ts| == 2
    ensures SumProbs(ts) == 1.0
  {
    if IsTerminalLetter(g[row][col]) then
      var ts := [Transition(1.0, ToS(|g[0]|, row, col), 0.0, true)];
      assert SumProbs(ts) == 1.0 + SumProbs([]);
      ts
    else
      var ts := [WithProb(0.8, Outcome(g, row, col, a)), WithProb(0.2, Outcome(g, row, col, Opposite(a)))];
      assert ts[1..][1..] == [];
      assert SumProbs(ts) == 0.8 + (0.2 + SumProbs([]));
      ts
  }

  /** T[s][a], indexed by state number. */
  function StateTransitions(g: Grid, s: nat, a: Action): seq<Transition>
    requires WellFormed(g) && s < NumStates(g)
  {
    LetterAtState(g, s);
    CellTransitions(g, RowOf(|g[0]|, s), ColOf(|g[0]|, s), a)
  }

  function SumProbs(ts: seq<Transition>): real {
    if ts == [] then 0.0 else ts[0].prob + SumProbs(ts[1..])
  }

  type Table = seq<seq<seq<Transition>>>

  /** T holds, for every state and action, the entries the grid prescribes. */
  predicate TableOf(g: Grid, T: Table)
    requires WellFormed(g)
  {
    |T| == NumStates(g) &&
    (forall s :: 0 <= s < |T| ==> |T[s]| == NumActions) &&
    forall s, a: Action {:trigger StateTransitions(g, s, a)} :: 0 <= s < |T| ==> T[s][a] == StateTransitions(g, s, a)
  }

  /** T after the loops have handled every state below s0, and the actions
      below a0 of state s0: those lists are complete, all others still empty. */
  ghost predicate FilledUpTo(g: Grid, T: Table, s0: nat, a0: nat)
    requires WellFormed(g)
  {
    |T| == NumStates(g) &&
    (forall s :: 0 <= s < |T| ==> |T[s]| == NumActions) &&
    forall s, a: Action :: 0 <= s < |T| ==>
      T[s][a] == if s < s0 || (s == s0 && a < a0) then StateTransitions(g, s, a) else []
  }

  /** Storing the entries of (s0, a0) extends the filled part by one action. */
  lemma FillOne(g: Grid, T: Table, row: nat, col: nat, a0: Action, li: seq<Transition>)
    requires WellFormed(g) && row < |g| && col < |g[0]|
    requires FilledUpTo(g, T, ToS(|g[0]|, row, col), a0)
    requires li == CellTransitions(g, row, col, a0)
    ensures var s0 := ToS(|g[0]|, row, col);
            s0 < |T| && FilledUpTo(g, T[s0 := T[s0][a0 := li]], s0, a0 + 1)
  {
    var s0 := ToS(|g[0]|, row, col);
    ToSInverse(|g[0]|, row, col);
    LetterAtCell(g, row, col);
    assert StateTransitions(g, s0, a0) == CellTransitions(g, row, col, a0);
  }

  /** Once both actions of s0 are filled, the next state starts. */
  lemma FillNextState(g: Grid, T: Table, s0: nat)
    requires WellFormed(g) && FilledUpTo(g, T, s0, NumActions)
    ensures FilledUpTo(g, T, s0 + 1, 0)
  {
  }

  /** The nested row/col/action loops of the constructor: T starts with an
      empty list per (s, a) and each cell appends its entries to them. */
  method BuildTransitions(g: Grid) returns (T: Table)
    requires WellFormed(g)
    ensures TableOf(g, T)
  {
    var nRows, nCols := |g|, |g[0]|;
    var nStates := NumStates(g);
    NumStatesIsProduct(g, nCols);
    T := seq(nStates, _ => [[], []]);
    for row := 0 to nRows
      invariant FilledUpTo(g, T, row * nCols, 0)
    {
      for col := 0 to nCols
        invariant FilledUpTo(g, T, row * nCols + col, 0)
      {
        var s := ToS(nCols, row, col);
        LetterAtCell(g, row, col);
        for a := 0 to NumActions
          invariant FilledUpTo(g, T, s, a)
        {
          // li is the list T[s][a]; the appends below extend it in place
          var li := T[s][a];
          var letter := g[row][col];
          if IsTerminalLetter(letter) {
            li := li + [Transition(1.0, s, 0.0, true)];
          } else {
            li := li + [WithProb(0.8, Outcome(g, row, col, a))];
            li := li + [WithProb(0.2, Outcome(g, row, col, (a + 3) % 2))];
          }
          FillOne(g, T, row, col, a, li);
          T := T[s := T[s][a := li]];
        }
        FillNextState(g, T, s);
      }
      assert row * nCols + nCols == (row + 1) * nCols;
    }
    assert nRows * nCols == nStates;
  }

  // ---------------------------------------------------------------------------
  // Properties of the table

  /** T[s][a] is what the cell of s prescribes. */
  lemma TableEntries(g: Grid, T: Table, s: nat, a: Action)
    requires WellFormed(g) && TableOf(g, T) && s < |T|
    ensures RowOf(|g[0]|, s) < |g| && ColOf(|g[0]|, s) < |g[0]|
    ensures ToS(|g[0]|, RowOf(|g[0]|, s), ColOf(|g[0]|, s)) == s
    ensures LetterAt(g, s) == g[RowOf(|g[0]|, s)][ColOf(|g[0]|, s)]
    ensures T[s][a] == CellTransitions(g, RowOf(|g[0]|, s), ColOf(|g[0]|, s), a)
    ensures 1 <= |T[s][a]| <= 2
  {
    LetterAtState(g, s);
    assert T[s][a] == StateTransitions(g, s, a);
  }

  /** Every recorded (s, a) list has probabilities summing to one. */
  lemma ProbabilitiesSumToOne(g: Grid, T: Table, s: nat, a: Action)
    requires WellFormed(g) && TableOf(g, T) && s < |T|
    ensures SumProbs(T[s][a]) == 1.0
  {
    TableEntries(g, T, s, a);
  }

  /** On thin glass and on the goal, every action has exactly one entry: stay
      put with certainty, reward 0, done. */
  lemma TerminalCellsLoop(g: Grid, T: Table, s: nat, a: Action)
    requires WellFormed(g) && TableOf(g, T) && s < |T| && TerminalAt(g, s)
    ensures T[s][a] == [Transition(1.0, s, 0.0, true)]
  {
    TableEntries(g, T, s, a);
  }

  /** Elsewhere, every action has exactly two entries: the intended move with
      0.8 and the opposite move with 0.2. */
  lemma OtherCellsSlip(g: Grid, T: Table, s: nat, a: Action)
    requires WellFormed(g) && TableOf(g, T) && s < |T| && !TerminalAt(g, s)
    ensures RowOf(|g[0]|, s) < |g| && ColOf(|g[0]|, s) < |g[0]| && |T[s][a]| == 2
    ensures T[s][a][0] == WithProb(0.8, Outcome(g, RowOf(|g[0]|, s), ColOf(|g[0]|, s), a))
    ensures T[s][a][1] == WithProb(0.2, Outcome(g, RowOf(|g[0]|, s), ColOf(|g[0]|, s), Opposite(a)))
  {
    TableEntries(g, T, s, a);
  }

  /** Every entry of the table: its next state is a state; a reward is 0 or 1;
      from a cell that is not terminal, reward 1 means the goal was reached and
      done means a terminal cell was reached; so reward 1 always ends the
      episode. */
  lemma EntriesAreSound(g: Grid, T: Table, s: nat, a: Action, k: nat)
    requires WellFormed(g) && TableOf(g, T) && s < |T| && k < |T[s][a]|
    ensures T[s][a][k].next < NumStates(g)
    ensures T[s][a][k].reward == 0.0 || T[s][a][k].reward == 1.0
    ensures T[s][a][k].reward == 1.0 ==> T[s][a][k].done
    ensures !TerminalAt(g, s) ==>
      (T[s][a][k].reward == 1.0 <==> LetterAt(g, T[s][a][k].next) == 'G') &&
      (T[s][a][k].done <==> TerminalAt(g, T[s][a][k].next))
  {
    TableEntries(g, T, s, a);
  }

  // ---------------------------------------------------------------------------
  // Shape of the shipped maps

  /** Every cell of the last column is thin glass or the goal. */
  predicate LastColumnTerminal(g: Grid)
    requires WellFormed(g)
  {
    forall r :: 0 <= r < |g| ==> IsTerminalLetter(g[r][|g[0]| - 1])
  }

  predicate HasStart(g: Grid)
    requires WellFormed(g)
  {
    exists r, c :: 0 <= r < |g| && 0 <= c < |g[0]| && g[r][c] == 'S'
  }

  /** All four shipped maps are well formed, end in a column of terminal cells
      and contain a start cell. */
  lemma ShippedMapsAreBridges()
    ensures WellFormed(Map5x2) && LastColumnTerminal(Map5x2) && HasStart(Map5x2)
    ensures WellFormed(Map8x2) && LastColumnTerminal(Map8x2) && HasStart(Map8x2)
    ensures WellFormed(Map10x2) && LastColumnTerminal(Map10x2) && HasStart(Map10x2)
    ensures WellFormed(Map12x2) && LastColumnTerminal(Map12x2) && HasStart(Map12x2)
  {
    assert Map5x2[0][0] == 'S';
    assert Map8x2[0][0] == 'S';
    assert Map10x2[1][0] == 'S';
    assert Map12x2[1][0] == 'S';
  }

  /** When the last column is terminal, a cell that is not terminal is not in
      the last column, so every entry of its table advances exactly one column. */
  lemma NonTerminalMovesAdvance(g: Grid, T: Table, s: nat, a: Action, k: nat)
    requires WellFormed(g) && TableOf(g, T) && s < |T| && k < |T[s][a]|
    ensures LastColumnTerminal(g) && !TerminalAt(g, s) ==>
      ColOf(|g[0]|, T[s][a][k].next) == ColOf(|g[0]|, s) + 1
  {
    if !LastColumnTerminal(g) || TerminalAt(g, s) {
      return;
    }
    var nCols := |g[0]|;
    TableEntries(g, T, s, a);
    var row, col := RowOf(nCols, s), ColOf(nCols, s);
    assert col < nCols - 1;
    var b := if k == 0 then a else Opposite(a);
    var (nr, nc) := Inc(nCols, row, col, b);
    LetterAtCell(g, nr, nc);
    ToSInverse(nCols, nr, nc);
  }

  // ---------------------------------------------------------------------------
  // The initial-state vector

  /** Number of start cells among states 0 .. k-1. */
  function CountStarts(g: Grid, k: nat): nat
    requires WellFormed(g) && k <= NumStates(g)
  {
    if k == 0 then 0 else CountStarts(g, k - 1) + (if LetterAt(g, k - 1) == 'S' then 1 else 0)
  }

  /** The vector the constructor hands to the environment: zero off start
      cells and 1/count on each of them. */
  predicate UniformOverStarts(g: Grid, isd: seq<real>)
    requires WellFormed(g)
  {
    CountStarts(g, NumStates(g)) > 0 &&
    |isd| == NumStates(g) &&
    forall s :: 0 <= s < |isd| ==>
      isd[s] == if LetterAt(g, s) == 'S' then 1.0 / (CountStarts(g, NumStates(g)) as real) else 0.0
  }

  /** initialize_states: the 0/1 indicator of start cells in ravel order, then
      divided in place by its sum. With no start cell numpy divides zero by zero
      and yields NaN entries; the model returns None there. */
  method InitialStates(g: Grid) returns (isd: Option<seq<real>>)
    requires WellFormed(g)
    ensures isd.Some? <==> CountStarts(g, NumStates(g)) > 0
    ensures isd.Some? ==> UniformOverStarts(g, isd.value)
  {
    var n := NumStates(g);
    var v := new real[n];
    for s := 0 to n
      invariant forall j :: 0 <= j < s ==> v[j] == if LetterAt(g, j) == 'S' then 1.0 else 0.0
    {
      v[s] := if LetterAt(g, s) == 'S' then 1.0 else 0.0;
    }
    var total := 0.0;
    for s := 0 to n
      invariant total == CountStarts(g, s) as real
    {
      total := total + v[s];
    }
    if total == 0.0 {
      return None;
    }
    for s := 0 to n
      invariant forall j :: 0 <= j < s ==> v[j] == if LetterAt(g, j) == 'S' then 1.0 / total else 0.0
      invariant forall j :: s <= j < n ==> v[j] == if LetterAt(g, j) == 'S' then 1.0 else 0.0
    {
      v[s] := v[s] / total;
    }
    isd := Some(v[..]);
  }

  lemma DivAdd(x: real, y: real, c: real)
    requires c > 0.0
    ensures x / c + y / c == (x + y) / c
  {
  }

  /** The prefix sums of the initial-state vector count start cells. */
  lemma {:induction false} PrefixSumCountsStarts(g: Grid, isd: seq<real>, k: nat)
    requires WellFormed(g) && UniformOverStarts(g, isd) && k <= |isd|
    ensures Sum(isd[..k]) == (CountStarts(g, k) as real) / (CountStarts(g, NumStates(g)) as real)
  {
    var c := CountStarts(g, NumStates(g)) as real;
    if k > 0 {
      assert isd[..k][..k - 1] == isd[..k - 1];
      PrefixSumCountsStarts(g, isd, k - 1);
      var before := CountStarts(g, k - 1) as real;
      var one := if LetterAt(g, k - 1) == 'S' then 1.0 else 0.0;
      assert isd[k - 1] == one / c;
      DivAdd(before, one, c);
      assert CountStarts(g, k) as real == before + one;
    }
  }

  /** With at least one start cell the initial-state vector is a probability
      distribution: it sums to one. */
  lemma InitialStatesSumToOne(g: Grid, isd: seq<real>)
    requires WellFormed(g) && UniformOverStarts(g, isd)
    ensures Sum(isd) == 1.0
  {
    PrefixSumCountsStarts(g, isd, |isd|);
    assert isd[..|isd|] == isd;
  }

  /** A start cell is never terminal. */
  lemma StartIsNotTerminal(g: Grid, s: nat)
    requires WellFormed(g) && s < NumStates(g) && LetterAt(g, s) == 'S'
    ensures !TerminalAt(g, s)
  {
  }

  /** Each start cell has the same positive weight, every other cell none. */
  lemma StartsAreEquallyLikely(g: Grid, isd: seq<real>, s: nat, t: nat)
    requires WellFormed(g) && UniformOverStarts(g, isd) && s < |isd| && t < |isd|
    ensures LetterAt(g, s) == 'S' && LetterAt(g, t) == 'S' ==> isd[s] == isd[t] > 0.0
    ensures LetterAt(g, s) != 'S' ==> isd[s] == 0.0
  {
  }

  // ---------------------------------------------------------------------------
  // The environment

  /** What the constructor stores: the map, T and the initial-state vector. */
  datatype Env = Env(grid: Grid, T: Table, isd: Option<seq<real>>)

  predicate Valid(env: Env) {
    WellFormed(env.grid) && TableOf(env.grid, env.T)
  }

  /** The constructor, over a given map (the source always loads DefaultMap). */
  method NewEnv(g: Grid) returns (env: Env)
    requires WellFormed(g)
    ensures Valid(env) && env.grid == g
    ensures env.isd.Some? <==> CountStarts(g, NumStates(g)) > 0
    ensures env.isd.Some? ==> UniformOverStarts(g, env.isd.value)
  {
    var T := BuildTransitions(g);
    var isd := InitialStates(g);
    env := Env(g, T, isd);
  }
}
