/** The expected-points curve of the fourth-down engine: a fixed, pre-fit cubic
    in the yard line, evaluated after clamping the yard line into [1, 99]. */
module ExpectedPoints {

  /** The curve's coefficients, exactly as the decimal literals are written. */
  const A: real := 0.0000103395910
  const B: real := -0.000954314154
  const C: real := 0.0565134209
  const D: real := -0.351784512

  /** The cubic A·x³ + B·x² + C·x + k; with k == D it is the unclamped curve. */
  function CubicWith(x: real, k: real): real {
    A * x * x * x + B * x * x + C * x + k
  }

  function Cubic(x: real): real {
    CubicWith(x, D)
  }

  /** `max(1, min(99, pos))` */
  function Clamp(pos: real): (c: real)
    ensures 1.0 <= c <= 99.0
    ensures 1.0 <= pos <= 99.0 ==> c == pos
    ensures pos < 1.0 ==> c == 1.0
    ensures pos > 99.0 ==> c == 99.0
  {
    var m := if pos < 99.0 then pos else 99.0;
    if 1.0 < m then m else 1.0
  }

  /** Expected points for the team in possession at yard line `pos`. */
  function Ep(pos: real): real {
    Cubic(Clamp(pos))
  }

  lemma ClampIdempotent(pos: real)
    ensures Clamp(Clamp(pos)) == Clamp(pos)
  {
  }

  /** Every yard line at or behind the 1 is valued as the 1, every one at or
      beyond the 99 as the 99. */
  lemma EpClampsBelow(pos: real)
    requires pos <= 1.0
    ensures Ep(pos) == Ep(1.0)
  {
  }

  lemma EpClampsAbove(pos: real)
    requires pos >= 99.0
    ensures Ep(pos) == Ep(99.0)
  {
  }

  lemma SquareNonNegative(z: real)
    ensures z * z >= 0.0
  {
    if z < 0.0 {
      assert z * z == (-z) * (-z);
    }
  }

  lemma ProductPositive(p: real, q: real)
    requires p > 0.0 && q > 0.0
    ensures p * q > 0.0
  {
  }

  /** The slope factor of the cubic between x and y is positive everywhere,
      because B² < 3·A·C: the cubic has no turning point at all. */
  lemma SlopeFactorPositive(x: real, y: real)
    ensures A * (x * x + x * y + y * y) + B * (x + y) + C > 0.0
  {
    var s := x + y;
    var t := x - y;
    assert x * x + x * y + y * y == 0.75 * (s * s) + 0.25 * (t * t);
    SquareNonNegative(t);
    // (3A/4)·s² + B·s + C == (3A/4)·h² + (C - B²/(3A)) with h == s + 2B/(3A)
    var k := 2.0 * B / (3.0 * A);
    var h := s + k;
    SquareNonNegative(h);
    assert s * s == h * h - 2.0 * k * s - k * k;
    assert 0.75 * A * (s * s) + B * s + C == 0.75 * A * (h * h) + (C - B * B / (3.0 * A));
    assert C - B * B / (3.0 * A) > 0.0;
  }

  /** The cubic is strictly increasing on the whole real line. */
  lemma {:induction false} CubicStrictlyIncreasing(x: real, y: real)
    requires x < y
    ensures Cubic(x) < Cubic(y)
  {
    var q := A * (x * x + x * y + y * y) + B * (x + y) + C;
    SlopeFactorPositive(x, y);
    assert Cubic(y) - Cubic(x) == (y - x) * q;
    ProductPositive(y - x, q);
  }

  /** The clamped curve never decreases as the yard line moves forward. */
  lemma EpMonotone(x: real, y: real)
    requires x <= y
    ensures Ep(x) <= Ep(y)
  {
    if Clamp(x) < Clamp(y) {
      CubicStrictlyIncreasing(Clamp(x), Clamp(y));
    }
  }

  /** Inside [1, 99] the curve is strictly increasing, so it takes each value
      at most once there. */
  lemma EpStrictlyIncreasing(x: real, y: real)
    requires 1.0 <= x < y <= 99.0
    ensures Ep(x) < Ep(y)
  {
    CubicStrictlyIncreasing(x, y);
  }

  lemma EpInjective(x: real, y: real)
    requires 1.0 <= x <= 99.0 && 1.0 <= y <= 99.0
    requires Ep(x) == Ep(y)
    ensures x == y
  {
    if x < y {
      EpStrictlyIncreasing(x, y);
    } else if y < x {
      EpStrictlyIncreasing(y, x);
    }
  }

  /** Every value of the curve lies between its values at the 1 and the 99
      (about -0.296 and 5.922 points). */
  lemma EpRange(pos: real)
    ensures Ep(1.0) <= Ep(pos) <= Ep(99.0)
    ensures -0.2963 < Ep(pos) < 5.9224
  {
    if pos < 1.0 { EpClampsBelow(pos); } else { EpMonotone(1.0, pos); }
    if pos > 99.0 { EpClampsAbove(pos); } else { EpMonotone(pos, 99.0); }
    assert Ep(1.0) == A + B + C + D;
    assert Ep(99.0) == A * 970299.0 + B * 9801.0 + C * 99.0 + D;
  }
}
