/** Facts about multiplication, division and remainder on naturals used by the chunk and tiling proofs. */
module Arithmetic {

  lemma DivBounds(a: nat, b: nat)
    requires b > 0
    ensures (a / b) * b <= a < (a / b) * b + b
  {
  }

  lemma MulMono(a: nat, b: nat, c: nat)
    requires a <= b
    ensures a * c <= b * c
  {
  }

  /** The remainder of `i` by `m` is its offset past the `q`-th multiple that it lies just after. */
  lemma ModOfOffset(i: nat, q: nat, m: nat)
    requires m > 0 && q * m <= i < q * m + m
    ensures i % m == i - q * m
  {
    var d := i / m;
    assert i == d * m + i % m && 0 <= i % m < m;
    if d > q {
      MulMono(q + 1, d, m);
      assert false;
    }
    if d < q {
      MulMono(d + 1, q, m);
      assert false;
    }
  }
}
