/** Facts about multiplication and floor division by a positive number. */
module Arith {

  lemma MulMono(a: int, b: int, n: nat)
    requires a <= b
    ensures a * n <= b * n
  {
  }

  /** `b / d` is the greatest `q` with `q * d <= b`. */
  lemma FloorIsGreatest(q: nat, b: nat, d: nat)
    requires d > 0 && q * d <= b
    ensures q <= b / d
  {
    var p := b / d;
    assert b == p * d + b % d && b % d < d;
    if q > p {
      MulMono(p + 1, q, d);
      assert false;
    }
  }

  lemma DivMonotone(a: nat, b: nat, d: nat)
    requires d > 0 && a <= b
    ensures a / d <= b / d
  {
    assert (a / d) * d <= b;
    FloorIsGreatest(a / d, b, d);
  }
}
