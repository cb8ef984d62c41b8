/** Small shared vocabulary: an optional value and sums of reals. */
module Common {

  datatype Option<T> = None | Some(value: T)

  function Min(a: int, b: int): int {
    if a <= b then a else b
  }

  function MinReal(a: real, b: real): real {
    if a <= b then a else b
  }

  function MaxReal(a: real, b: real): real {
    if a <= b then b else a
  }

  /** Sum of a sequence of reals, taken from the front (the order Python's sum adds in). */
  function Sum(xs: seq<real>): real {
    if xs == [] then 0.0 else Sum(xs[..|xs| - 1]) + xs[|xs| - 1]
  }

  /** Number of non-zero entries: Python's truthiness test `if x:` on a float. */
  function CountNonZero(xs: seq<real>): nat {
    if xs == [] then 0 else CountNonZero(xs[..|xs| - 1]) + (if xs[|xs| - 1] != 0.0 then 1 else 0)
  }

  /** Sum of a sequence of naturals. */
  function SumNat(xs: seq<nat>): nat {
    if xs == [] then 0 else SumNat(xs[..|xs| - 1]) + xs[|xs| - 1]
  }

  /** Sum of a sequence is unaffected by one entry growing by one, except for that one. */
  lemma {:induction false} SumNatIncrement(xs: seq<nat>, k: nat)
    requires k < |xs|
    ensures SumNat(xs[k := xs[k] + 1]) == SumNat(xs) + 1
  {
    var ys := xs[k := xs[k] + 1];
    if k == |xs| - 1 {
      assert ys[..|ys| - 1] == xs[..|xs| - 1];
    } else {
      assert ys[..|ys| - 1] == xs[..|xs| - 1][k := xs[k] + 1];
      SumNatIncrement(xs[..|xs| - 1], k);
    }
  }

  /** A sequence of zeros sums to zero. */
  lemma {:induction false} SumNatZeros(n: nat)
    ensures SumNat(seq(n, _ => 0)) == 0
  {
    if n > 0 {
      assert seq(n, _ => 0)[..n - 1] == seq(n - 1, _ => 0);
      SumNatZeros(n - 1);
    }
  }
}
