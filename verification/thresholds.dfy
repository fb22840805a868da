/** Breakeven figures reported with a Punt or a Kick: the net punt distance,
    or the make percentage, at which that action draws level with the best
    of the other two. */
module Thresholds {
  import opened ExpectedPoints
  import opened Outcomes
  import opened ActionValues

  /** The polynomial root finder, given the constant term k: the real parts of
      the roots of A·x³ + B·x² + C·x + k whose imaginary part is zero. */
  type RootSolver = real -> seq<real>

  /** Everything the solver reports is a root. */
  ghost predicate SoundSolver(solver: RootSolver) {
    forall k: real, x: real :: x in solver(k) ==> CubicWith(x, k) == 0.0
  }

  /** Every real root is reported. */
  ghost predicate CompleteSolver(solver: RootSolver) {
    forall k: real, x: real :: CubicWith(x, k) == 0.0 ==> x in solver(k)
  }

  /** The roots on the field, [1, 99]. */
  function ValidRoots(roots: seq<real>): (valid: seq<real>)
    ensures forall x :: x in valid <==> x in roots && 1.0 <= x <= 99.0
    ensures |valid| <= |roots|
  {
    if roots == [] then []
    else
      var rest := ValidRoots(roots[1..]);
      if 1.0 <= roots[0] <= 99.0 then [roots[0]] + rest else rest
  }

  /** `max(xs)` */
  function Largest(xs: seq<real>): (m: real)
    requires |xs| > 0
    ensures m in xs
    ensures forall x :: x in xs ==> x <= m
  {
    if |xs| == 1 then xs[0]
    else
      var m := Largest(xs[1..]);
      assert forall x :: x in xs ==> x == xs[0] || x in xs[1..];
      if xs[0] < m then m else xs[0]
  }

  /** From the solver's roots to the reported punt figure: no root on the
      field means an unreachable threshold; otherwise the net distance that
      drives the opponent back to the largest root, never below 0. A figure
      beyond the goal line would fall back on a touchback test, but a root of
      at least 1 never yields one. */
  function PuntThresholdFromRoots(fp: int, maxOther: real, roots: seq<real>): (t: Info)
    requires ValidFieldPosition(fp)
    ensures !t.NoInfo?
    ensures t.Infinite? <==> ValidRoots(roots) == []
    ensures t.Value? ==> 0.0 <= t.amount <= (99 - fp) as real
    ensures ValidRoots(roots) != [] ==>
              t == Value(RealMax(0.0, (100 - fp) as real - Largest(ValidRoots(roots))))
  {
    var valid := ValidRoots(roots);
    if valid == [] then Infinite
    else
      var fpThreshold := Largest(valid);
      var neededNet := RealMax(0.0, (100 - fp) as real - fpThreshold);
      if neededNet > (100 - fp) as real then
        if -Ep(20.0) >= maxOther then Value((100 - fp + 1) as real) else Infinite
      else Value(neededNet)
  }

  /** The punt figure as the source computes it: the constant term handed to
      the root finder is D - maxOther, so the roots solve ep(x) == maxOther. */
  function PuntThresholdAsWritten(fp: int, maxOther: real, solver: RootSolver): (t: Info)
    requires ValidFieldPosition(fp)
    ensures !t.NoInfo?
    ensures t.Value? ==> 0.0 <= t.amount <= (99 - fp) as real
  {
    PuntThresholdFromRoots(fp, maxOther, solver(D + -maxOther))
  }

  /** The punt figure with the constant term D + maxOther, so that the roots
      solve -ep(x) == maxOther, the breakeven equation. */
  function PuntThreshold(fp: int, maxOther: real, solver: RootSolver): (t: Info)
    requires ValidFieldPosition(fp)
    ensures !t.NoInfo?
    ensures t.Value? ==> 0.0 <= t.amount <= (99 - fp) as real
  {
    PuntThresholdFromRoots(fp, maxOther, solver(D + maxOther))
  }

  /** The root the figure comes from, when there is one. */
  lemma PuntRoot(fp: int, maxOther: real, k: real, roots: seq<real>)
    requires ValidFieldPosition(fp)
    requires forall x :: x in roots ==> CubicWith(x, k) == 0.0
    requires PuntThresholdFromRoots(fp, maxOther, roots).Value?
    ensures var r := Largest(ValidRoots(roots));
            var t := PuntThresholdFromRoots(fp, maxOther, roots).amount;
            1.0 <= r <= 99.0 && Ep(r) == Cubic(r) && Cubic(r) == D - k &&
            t == RealMax(0.0, (100 - fp) as real - r)
  {
  }

  /** Breakeven law of the corrected figure t: short of a touchback, a net
      punt of n yards is worth at least maxOther exactly when n >= t; and a
      positive t is itself the breakeven distance. */
  lemma {:induction false} PuntThresholdBreakeven(fp: int, maxOther: real, solver: RootSolver, net: real)
    requires ValidFieldPosition(fp) && SoundSolver(solver)
    requires PuntThreshold(fp, maxOther, solver).Value?
    requires 0.0 <= net <= (100 - fp) as real
    ensures var t := PuntThreshold(fp, maxOther, solver).amount;
            (PuntValue(fp, net) >= maxOther <==> net >= t) &&
            (t > 0.0 ==> PuntValue(fp, t) == maxOther)
  {
    var roots := solver(D + maxOther);
    PuntRoot(fp, maxOther, D + maxOther, roots);
    var r := Largest(ValidRoots(roots));
    var t := PuntThreshold(fp, maxOther, solver).amount;
    assert Ep(r) == -maxOther;
    var spot := PuntSpot(fp, net);
    assert spot == (100 - fp) as real - net;
    if net >= t {
      EpMonotone(spot, r);
    } else {
      EpStrictlyIncreasing(r, spot);
    }
  }

  /** With a complete solver, an unreachable corrected figure means that no
      spot on the field, and so no net punt short of a touchback, breaks
      even. */
  lemma PuntThresholdUnreachable(fp: int, maxOther: real, solver: RootSolver)
    requires ValidFieldPosition(fp) && CompleteSolver(solver)
    requires PuntThreshold(fp, maxOther, solver).Infinite?
    ensures forall x :: 1.0 <= x <= 99.0 ==> -Ep(x) != maxOther
    ensures forall net :: 0.0 <= net <= (99 - fp) as real ==> PuntValue(fp, net) != maxOther
  {
    var roots := solver(D + maxOther);
    forall x | 1.0 <= x <= 99.0
      ensures -Ep(x) != maxOther
    {
      assert -Ep(x) == maxOther ==> CubicWith(x, D + maxOther) == 0.0;
      assert -Ep(x) == maxOther ==> x in ValidRoots(roots);
    }
    forall net | 0.0 <= net <= (99 - fp) as real
      ensures PuntValue(fp, net) != maxOther
    {
      assert 1.0 <= PuntSpot(fp, net) <= 99.0;
    }
  }

  /** What the figure as written satisfies instead: a positive figure is the
      net distance at which punting is worth -maxOther, not maxOther, so it
      breaks even only when maxOther is 0. */
  lemma PuntThresholdAsWrittenSolvesWrongSign(fp: int, maxOther: real, solver: RootSolver)
    requires ValidFieldPosition(fp) && SoundSolver(solver)
    requires PuntThresholdAsWritten(fp, maxOther, solver).Value?
    ensures var t := PuntThresholdAsWritten(fp, maxOther, solver).amount;
            t > 0.0 ==> PuntValue(fp, t) == -maxOther
  {
    PuntRoot(fp, maxOther, D + -maxOther, solver(D + -maxOther));
  }

  /** `max(0, min(1, x))` */
  function Clamp01(x: real): (c: real)
    ensures 0.0 <= c <= 1.0
    ensures 0.0 <= x <= 1.0 ==> c == x
    ensures x < 0.0 ==> c == 0.0
    ensures x > 1.0 ==> c == 1.0
  {
    var m := if 1.0 <= x then 1.0 else x;
    if 0.0 >= m then 0.0 else m
  }

  /** The make percentage at which p·aTerm + bTerm reaches maxOther, clamped
      to [0, 100]. When aTerm <= 0 the source returns a variable it never
      assigned, which raises a NameError. */
  function KickThreshold(aTerm: real, bTerm: real, maxOther: real): (r: Result<real>)
    ensures r.Err? <==> aTerm <= 0.0
    ensures r.Err? ==> r.error == NeededPMakeUnbound
    ensures r.Ok? ==> 0.0 <= r.value <= 100.0
    ensures r.Ok? && 0.0 <= (maxOther - bTerm) / aTerm <= 1.0 ==>
              (r.value / 100.0) * aTerm + bTerm == maxOther
  {
    if aTerm <= 0.0 then Err(NeededPMakeUnbound)
    else
      var neededPMake := Clamp01((maxOther - bTerm) / aTerm);
      Ok(neededPMake * 100.0)
  }

  /** Breakeven law of the kick figure: when a sure make is worth at least
      maxOther, a make probability p in [0, 1] gives a kick worth at least
      maxOther exactly when 100·p reaches the figure; when even a sure make
      falls short, the figure is 100 and no p in [0, 1] reaches maxOther. */
  lemma {:induction false} KickThresholdBreakeven(aTerm: real, bTerm: real, maxOther: real, p: real)
    requires aTerm > 0.0 && 0.0 <= p <= 1.0
    ensures var t := KickThreshold(aTerm, bTerm, maxOther).value;
            (aTerm + bTerm >= maxOther ==> (p * aTerm + bTerm >= maxOther <==> 100.0 * p >= t)) &&
            (aTerm + bTerm < maxOther ==> t == 100.0 && p * aTerm + bTerm < maxOther)
  {
    var q := (maxOther - bTerm) / aTerm;
    assert q * aTerm == maxOther - bTerm;
    // a sure make reaches maxOther exactly when q <= 1
    SameSign(1.0 - q, aTerm);
    assert (1.0 - q) * aTerm == aTerm - q * aTerm;
    // p reaches maxOther exactly when p >= q
    SameSign(p - q, aTerm);
    assert (p - q) * aTerm == p * aTerm - q * aTerm;
  }

  /** Multiplying by a positive number keeps the sign. */
  lemma SameSign(x: real, a: real)
    requires a > 0.0
    ensures x * a >= 0.0 <==> x >= 0.0
  {
    if x < 0.0 {
      ProductPositive(-x, a);
      assert (-x) * a == -(x * a);
    }
  }
}
