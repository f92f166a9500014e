/** The arithmetic under `bound`: `math.Round` on exact reals, the clamp to
    [0, 255], and the facts about shares `a * p` and palette fractions
    `i / n` that the tint and shade proofs rest on. */
module Rounding {
  import opened Colors

  /** `math.Round`: the nearest integer, halves rounded away from zero. */
  function Round(v: real): (r: int)
    ensures v >= 0.0 ==> r as real - 0.5 <= v < r as real + 0.5
    ensures v < 0.0 ==> r as real - 0.5 < v <= r as real + 0.5
  {
    if v >= 0.0 then (v + 0.5).Floor else -((-v + 0.5).Floor)
  }

  function Min(a: int, b: int): int {
    if a < b then a else b
  }

  function Max(a: int, b: int): int {
    if a < b then b else a
  }

  /** `bound`: `v` rounded, then clamped to [0, 255]. */
  function Bound(v: real): (r: U32)
    ensures 0 <= r <= 255
    ensures 0 <= Round(v) <= 255 ==> r == Round(v)
    ensures v <= 0.0 ==> r == 0
    ensures 255 < Round(v) ==> r == 255
  {
    Max(0, Min(255, Round(v)))
  }

  /** Rounding, and so `bound`, never reverses the order of two values. */
  lemma BoundMonotone(u: real, v: real)
    requires u <= v
    ensures Round(u) <= Round(v)
    ensures Bound(u) <= Bound(v)
  {
  }

  /** A share `p` in [0, 1] of a non-negative amount is at most that amount. */
  lemma ScaleBounds(a: real, p: real)
    requires 0.0 <= a && 0.0 <= p <= 1.0
    ensures 0.0 <= a * p <= a
  {
    assert a * (1.0 - p) >= 0.0;
  }

  /** A value between 0 and a whole number `k` rounds to a whole number in
      the same range. */
  lemma RoundBetween(v: real, k: int)
    requires 0.0 <= v <= k as real
    ensures 0 <= Round(v) <= k
  {
    var r := Round(v);
    assert r as real < k as real + 1.0;
  }

  /** A larger share of the same non-negative amount is no smaller. */
  lemma ScaleMonotone(a: real, p: real, q: real)
    requires 0.0 <= a && p <= q
    ensures a * p <= a * q
  {
    assert a * (q - p) >= 0.0;
  }

  /** The bounded share of a fixed amount grows with the fraction. */
  lemma ShareMonotone(a: int, p: real, q: real)
    requires 0 <= a <= 255 && 0.0 <= p <= q <= 1.0
    ensures Bound(a as real * p) <= Bound(a as real * q)
  {
    ScaleMonotone(a as real, p, q);
    BoundMonotone(a as real * p, a as real * q);
  }

  /** The palette fractions i / n lie in [0, 1). */
  lemma FractionBounds(i: nat, n: nat)
    requires i < n
    ensures 0.0 <= i as real / n as real < 1.0
  {
    var f := i as real / n as real;
    assert f * n as real == i as real;
  }

  /** Of two palette fractions with the same denominator, the one with the
      larger numerator is no smaller. */
  lemma FractionMonotone(i: nat, j: nat, n: nat)
    requires i <= j < n
    ensures i as real / n as real <= j as real / n as real
  {
    var f, g := i as real / n as real, j as real / n as real;
    assert f * n as real == i as real && g * n as real == j as real;
    assert (g - f) * n as real >= 0.0;
  }
}
