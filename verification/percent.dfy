/**
 * Exact model of `Math.round((a / b) * 100)` for a non-negative ratio. Math.round rounds
 * halves upward, so the result is floor(100a/b + 1/2) = (200a + b) div 2b. Weights of one
 * half are modelled by doubling both counts ("half units").
 */
module Percent {

  /** The integer nearest to 100a/b, with halves rounded up. */
  function RoundPercent(a: nat, b: nat): (r: nat)
    requires b > 0
    ensures 2 * b * r <= 200 * a + b < 2 * b * r + 2 * b
  {
    var n := 200 * a + b;
    var d := 2 * b;
    DivBounds(n, d);
    n / d
  }

  lemma DivBounds(n: nat, d: nat)
    requires d > 0
    ensures d * (n / d) <= n < d * (n / d) + d
  {
  }

  /** A ratio of at most one rounds to at most 100 percent. */
  lemma RoundPercentAtMost100(a: nat, b: nat)
    requires 0 < b
    ensures a <= b ==> RoundPercent(a, b) <= 100
  {
    var r := RoundPercent(a, b);
    if a <= b && r > 100 {
      assert 2 * b * r >= 2 * b * 101 by { MulMono(2 * b, 101, r); }
      assert false;
    }
  }

  /** A zero numerator gives zero and a full ratio gives exactly 100. */
  lemma RoundPercentEnds(b: nat)
    requires b > 0
    ensures RoundPercent(0, b) == 0
    ensures RoundPercent(b, b) == 100
  {
    var r0 := RoundPercent(0, b);
    if r0 > 0 { MulMono(2 * b, 1, r0); }
    var r1 := RoundPercent(b, b);
    if r1 > 100 { MulMono(2 * b, 101, r1); }
    if r1 < 100 { MulMono(2 * b, r1 + 1, 100); }
  }

  /** More of the same denominator never rounds to less. */
  lemma RoundPercentMono(a: nat, a': nat, b: nat)
    requires 0 < b && a <= a'
    ensures RoundPercent(a, b) <= RoundPercent(a', b)
  {
    var r := RoundPercent(a, b);
    var r' := RoundPercent(a', b);
    if r > r' {
      MulMono(2 * b, r' + 1, r);
      assert false;
    }
  }

  /** A ratio of at least one rounds to at least 100 percent. */
  lemma RoundPercentAtLeast100(a: nat, b: nat)
    requires b > 0
    ensures b <= a ==> RoundPercent(a, b) >= 100
  {
    if b <= a {
      RoundPercentEnds(b);
      RoundPercentMono(b, a, b);
    }
  }

  lemma MulMono(k: nat, x: nat, y: nat)
    requires x <= y
    ensures k * x <= k * y
  {
  }
}
