/** Integer facts shared by the batch splitter and the tiling geometry. */
module Arith {

  function Min(a: int, b: int): int {
    if a <= b then a else b
  }

  /** `Math.ceil(n / d)` for a natural `n` and a positive `d`: the fewest `d`-sized steps that reach `n`. */
  function CeilDiv(n: nat, d: nat): (q: nat)
    requires d > 0
    ensures n <= q * d
    ensures q == 0 || (q - 1) * d < n
  {
    var q := (n + d - 1) / d;
    assert n + d - 1 == q * d + (n + d - 1) % d;
    assert (q - 1) * d == q * d - d;
    q
  }

  /** Any `q` that reaches `n` in `d`-sized steps, and needs its last step, is `CeilDiv(n, d)`. */
  lemma CeilDivUnique(n: nat, d: nat, q: nat)
    requires d > 0
    requires n <= q * d
    requires q == 0 || (q - 1) * d < n
    ensures q == CeilDiv(n, d)
  {
    var c := CeilDiv(n, d);
    if c > 0 {
      MulCancel(c - 1, q, d);
    }
    if q > 0 {
      MulCancel(q - 1, c, d);
    }
  }

  /** Multiplying by the same natural keeps a strict order only if the factors were ordered. */
  lemma MulCancel(a: int, b: int, c: nat)
    requires a * c < b * c
    ensures a < b
  {
  }

  /** A value below `q * d` has quotient below `q`. */
  lemma DivBelow(x: nat, q: nat, d: nat)
    requires d > 0 && x < q * d
    ensures x / d < q
  {
    assert (x / d) * d <= x;
    MulCancel(x / d, q, d);
  }

  lemma MulLe(a: int, b: int, c: nat)
    requires a <= b
    ensures a * c <= b * c
  {
  }

  /** One more step of `d` reaches the next multiple. */
  lemma MulStep(k: nat, d: nat)
    requires k > 0
    ensures (k - 1) * d + d == k * d
  {
  }

  /** Quotient and remainder place `x` inside the `d`-wide cell of its quotient. */
  lemma DivBounds(x: nat, d: nat)
    requires d > 0
    ensures (x / d) * d <= x < (x / d) * d + d
    ensures x == (x / d) * d + x % d && x % d < d
  {
  }
}
