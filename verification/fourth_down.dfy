/** The fourth-down decision engine: validate the yard line, value the three
    actions, choose one, and report the breakeven figure that goes with it. */
module FourthDown {
  import opened ExpectedPoints
  import opened Probabilities
  import opened Outcomes
  import opened ActionValues
  import opened Selection
  import opened Thresholds

  /** The action chosen for a situation with a valid yard line. */
  function Decide(s: Situation): Decision
    requires ValidFieldPosition(s.fieldPosition)
  {
    Choose(s.timeRemaining, PointDiff(s), FieldGoalDistance(s.fieldPosition), ValuesOf(s))
  }

  /** The best value among the actions other than `d`. */
  function BestOther(v: Values, d: Decision): (m: real)
    ensures forall x :: x != d ==> EpOf(v, x) <= m
    ensures exists x :: x != d && EpOf(v, x) == m
  {
    match d
    case Punt => assert EpOf(v, Go) == v.go && EpOf(v, Kick) == v.kick; RealMax(v.go, v.kick)
    case Go => assert EpOf(v, Punt) == v.punt && EpOf(v, Kick) == v.kick; RealMax(v.punt, v.kick)
    case Kick => assert EpOf(v, Go) == v.go && EpOf(v, Punt) == v.punt; RealMax(v.go, v.punt)
  }

  /** The engine's entry point, as the source computes it. A yard line
      outside [1, 99] is rejected before anything is computed; GO carries no
      figure; Punt carries the punt figure as written, a net distance or an
      unreachable mark; Kick carries the make percentage to break even, unless
      the kick branch fails. */
  function FourthDownDecision(s: Situation, solver: RootSolver): (r: Result<Verdict>)
    ensures r == Err(FieldPositionOutOfRange) <==> !ValidFieldPosition(s.fieldPosition)
    ensures r.Ok? ==> ValidFieldPosition(s.fieldPosition) && r.value.decision == Decide(s)
    ensures r.Ok? ==> (r.value.info.NoInfo? <==> r.value.decision == Go)
    ensures r.Ok? && r.value.decision == Punt ==>
              r.value.info == PuntThresholdAsWritten(s.fieldPosition, BestOther(ValuesOf(s), Punt), solver)
    ensures r.Ok? && r.value.decision == Punt ==>
              r.value.info.Infinite? ||
              (r.value.info.Value? && 0.0 <= r.value.info.amount <= (99 - s.fieldPosition) as real)
    ensures r.Ok? && r.value.decision == Kick ==>
              r.value.info.Value? && 0.0 <= r.value.info.amount <= 100.0
    ensures r == Err(NeededPMakeUnbound) <==>
              ValidFieldPosition(s.fieldPosition) && Decide(s) == Kick &&
              KickATerm(s.fieldPosition, s.kickoffStartPos) <= 0.0
  {
    var fp := s.fieldPosition;
    if fp < 1 || fp > 99 then Err(FieldPositionOutOfRange)
    else
      var v := ValuesOf(s);
      var decision := Decide(s);
      match decision
      case Go => Ok(Verdict(Go, NoInfo))
      case Punt => Ok(Verdict(Punt, PuntThresholdAsWritten(fp, BestOther(v, Punt), solver)))
      case Kick =>
        match KickThreshold(KickATerm(fp, s.kickoffStartPos), KickBTerm(fp), BestOther(v, Kick))
        case Ok(pct) => Ok(Verdict(Kick, Value(pct)))
        case Err(e) => Err(e)
  }

  /** The engine with the corrected punt figure: the same verdict, except
      that a Punt carries the figure built from the breakeven equation. */
  function FourthDownDecisionCorrected(s: Situation, solver: RootSolver): (r: Result<Verdict>)
    ensures r.Err? <==> FourthDownDecision(s, solver).Err?
    ensures r.Err? ==> r == FourthDownDecision(s, solver)
    ensures r.Ok? ==> r.value.decision == FourthDownDecision(s, solver).value.decision
    ensures r.Ok? && r.value.decision != Punt ==> r == FourthDownDecision(s, solver)
    ensures r.Ok? && r.value.decision == Punt ==>
              r.value.info == PuntThreshold(s.fieldPosition, BestOther(ValuesOf(s), Punt), solver)
  {
    match FourthDownDecision(s, solver)
    case Ok(Verdict(Punt, _)) =>
      Ok(Verdict(Punt, PuntThreshold(s.fieldPosition, BestOther(ValuesOf(s), Punt), solver)))
    case other => other
  }

  /** With a kickoff spot no deeper than the opponent's 80 — the default is
      the 27 — making the kick is always worth more than missing it, so the
      kick branch never fails. */
  lemma {:induction false} KickATermPositive(fp: int, kickoff: real)
    requires ValidFieldPosition(fp) && kickoff <= 80.0
    ensures KickATerm(fp, kickoff) > 0.0
  {
    EpMonotone(kickoff, 80.0);
    EpMonotone(20.0, MissSpot(fp) as real);
    assert Ep(80.0) == A * 512000.0 + B * 6400.0 + C * 80.0 + D;
    assert Ep(20.0) == A * 8000.0 + B * 400.0 + C * 20.0 + D;
  }

  lemma {:induction false} DecisionSucceedsForValidInput(s: Situation, solver: RootSolver)
    requires ValidFieldPosition(s.fieldPosition) && s.kickoffStartPos <= 80.0
    ensures FourthDownDecision(s, solver).Ok?
  {
    KickATermPositive(s.fieldPosition, s.kickoffStartPos);
  }

  /** The punt figure the engine reports, as written: a positive figure is a
      net distance at which punting is worth minus the best other value. */
  lemma PuntFigureAsWritten(s: Situation, solver: RootSolver)
    requires SoundSolver(solver)
    requires var r := FourthDownDecision(s, solver);
             r.Ok? && r.value.decision == Punt && r.value.info.Value?
    ensures var t := FourthDownDecision(s, solver).value.info.amount;
            t > 0.0 ==> PuntValue(s.fieldPosition, t) == -BestOther(ValuesOf(s), Punt)
  {
    PuntThresholdAsWrittenSolvesWrongSign(s.fieldPosition, BestOther(ValuesOf(s), Punt), solver);
  }

  /** The corrected punt figure is the breakeven net distance: short of a
      touchback, a punt of n net yards is worth at least the best other action
      exactly when n reaches the figure, and a positive figure draws level. */
  lemma {:induction false} PuntFigureBreaksEven(s: Situation, solver: RootSolver, net: real)
    requires SoundSolver(solver)
    requires 0.0 <= net <= (100 - s.fieldPosition) as real
    requires var r := FourthDownDecisionCorrected(s, solver);
             r.Ok? && r.value.decision == Punt && r.value.info.Value?
    ensures var t := FourthDownDecisionCorrected(s, solver).value.info.amount;
            var maxOther := BestOther(ValuesOf(s), Punt);
            (PuntValue(s.fieldPosition, net) >= maxOther <==> net >= t) &&
            (t > 0.0 ==> PuntValue(s.fieldPosition, t) == maxOther)
  {
    PuntThresholdBreakeven(s.fieldPosition, BestOther(ValuesOf(s), Punt), solver, net);
  }

  /** The reported kick figure is the breakeven make percentage: valued at a
      make probability p in [0, 1], the kick is worth at least the best other
      action exactly when 100·p reaches the figure, unless even a sure make
      falls short, in which case the figure is 100. */
  lemma {:induction false} KickFigureBreaksEven(s: Situation, solver: RootSolver, p: real)
    requires 0.0 <= p <= 1.0
    requires var r := FourthDownDecision(s, solver);
             r.Ok? && r.value.decision == Kick
    ensures var r := FourthDownDecision(s, solver);
            var t := r.value.info.amount;
            var maxOther := BestOther(ValuesOf(s), Kick);
            var fp := s.fieldPosition;
            (KickValue(fp, s.kickoffStartPos, 1.0) >= maxOther ==>
               (KickValue(fp, s.kickoffStartPos, p) >= maxOther <==> 100.0 * p >= t)) &&
            (KickValue(fp, s.kickoffStartPos, 1.0) < maxOther ==>
               t == 100.0 && KickValue(fp, s.kickoffStartPos, p) < maxOther)
  {
    KickFigure(s, solver);
    KickValueBreakeven(s.fieldPosition, s.kickoffStartPos, BestOther(ValuesOf(s), Kick), p);
  }

  lemma {:induction false} KickValueBreakeven(fp: int, kickoff: real, maxOther: real, p: real)
    requires KickATerm(fp, kickoff) > 0.0 && 0.0 <= p <= 1.0
    ensures var t := KickThreshold(KickATerm(fp, kickoff), KickBTerm(fp), maxOther).value;
            (KickValue(fp, kickoff, 1.0) >= maxOther ==> (KickValue(fp, kickoff, p) >= maxOther <==> 100.0 * p >= t)) &&
            (KickValue(fp, kickoff, 1.0) < maxOther ==> t == 100.0 && KickValue(fp, kickoff, p) < maxOther)
  {
    KickValueLinear(fp, kickoff, p);
    KickValueLinear(fp, kickoff, 1.0);
    KickThresholdBreakeven(KickATerm(fp, kickoff), KickBTerm(fp), maxOther, p);
  }

  lemma KickFigure(s: Situation, solver: RootSolver)
    requires var r := FourthDownDecision(s, solver);
             r.Ok? && r.value.decision == Kick
    ensures KickATerm(s.fieldPosition, s.kickoffStartPos) > 0.0
    ensures var k := KickThreshold(KickATerm(s.fieldPosition, s.kickoffStartPos), KickBTerm(s.fieldPosition),
                                   BestOther(ValuesOf(s), Kick));
            k.Ok? && FourthDownDecision(s, solver).value.info == Value(k.value)
  {
  }

  /** A late lead: kick from the opponent's 33 or closer (a kick of 50 yards
      or less), punt from further out. */
  lemma LateLeadDecision(s: Situation)
    requires ValidFieldPosition(s.fieldPosition)
    requires s.timeRemaining < 2.0 && s.ourScore > s.oppScore
    ensures Decide(s) == (if s.fieldPosition >= 67 then Kick else Punt)
  {
  }

  /** Late and trailing: within a field goal with a kick of 55 yards or less,
      kick; otherwise go for it when a touchdown can still tie or win (down by
      8 or less) and punt when it cannot. */
  lemma LateDeficitDecision(s: Situation)
    requires ValidFieldPosition(s.fieldPosition)
    requires s.timeRemaining < 2.0 && s.ourScore < s.oppScore
    ensures var behind := s.oppScore - s.ourScore;
            Decide(s) == (if behind <= 3 && s.fieldPosition >= 62 then Kick
                          else if behind <= 8 then Go else Punt)
  {
  }

  /** Otherwise the chosen action has the highest value, ties going to the
      earlier of Punt, GO, Kick. */
  lemma MaxValueDecision(s: Situation)
    requires ValidFieldPosition(s.fieldPosition)
    requires s.timeRemaining >= 2.0 || s.ourScore == s.oppScore
    ensures Decide(s) == MaxEpChoice(ValuesOf(s))
    ensures forall d :: EpOf(ValuesOf(s), d) <= EpOf(ValuesOf(s), Decide(s))
  {
    var v := ValuesOf(s);
    assert forall d :: EpOf(v, d) == v.punt || EpOf(v, d) == v.go || EpOf(v, d) == v.kick;
  }

  /** A yard line of 0 or 100 is rejected. */
  lemma EndZonesRejected(s: Situation, solver: RootSolver)
    requires s.fieldPosition == 0 || s.fieldPosition == 100
    ensures FourthDownDecision(s, solver) == Err(FieldPositionOutOfRange)
  {
  }

  /** Tied at midfield with ten minutes left, 4th and 2: going for it is worth
      about 0.324 points against about -0.128 for punting and -0.083 for the
      kick, so the answer is GO with no figure. */
  lemma MidfieldFourthAndTwo(solver: RootSolver)
    ensures var s := WithDefaults(0, 0, 10.0, 2, 50);
            var v := ValuesOf(s);
            0.323 < v.go < 0.325 && -0.129 < v.punt < -0.127 && -0.084 < v.kick < -0.082 &&
            FourthDownDecision(s, solver) == Ok(Verdict(Go, NoInfo))
  {
    var s := WithDefaults(0, 0, 10.0, 2, 50);
    assert Ep(52.0) == A * 140608.0 + B * 2704.0 + C * 52.0 + D;
    assert Ep(50.0) == A * 125000.0 + B * 2500.0 + C * 50.0 + D;
    assert Ep(10.0) == A * 1000.0 + B * 100.0 + C * 10.0 + D;
    assert Ep(27.0) == A * 19683.0 + B * 729.0 + C * 27.0 + D;
    assert Ep(57.0) == A * 185193.0 + B * 3249.0 + C * 57.0 + D;
  }

  /** Up by ten at the opponent's 30 with a minute left: a 47-yard kick, so
      the late-game rule kicks; breaking even needs about a 45.4% make
      chance. */
  lemma LateLeadFieldGoal(solver: RootSolver)
    ensures var r := FourthDownDecision(WithDefaults(10, 0, 1.0, 8, 70), solver);
            r.Ok? && r.value.decision == Kick && r.value.info.Value? &&
            45.39 < r.value.info.amount < 45.40
  {
    var s := WithDefaults(10, 0, 1.0, 8, 70);
    assert Ep(78.0) == A * 474552.0 + B * 6084.0 + C * 78.0 + D;
    assert Ep(30.0) == A * 27000.0 + B * 900.0 + C * 30.0 + D;
    assert Ep(20.0) == A * 8000.0 + B * 400.0 + C * 20.0 + D;
    assert Ep(27.0) == A * 19683.0 + B * 729.0 + C * 27.0 + D;
    assert Ep(37.0) == A * 50653.0 + B * 1369.0 + C * 37.0 + D;
  }

  /** Down by ten at midfield with a minute left: more than one score behind,
      so the late-game rule punts. Going for it (about -0.0736) is the best
      other action. */
  lemma LateDeficitPunt(solver: RootSolver)
    ensures var s := WithDefaults(0, 10, 1.0, 5, 50);
            var r := FourthDownDecision(s, solver);
            r.Ok? && r.value.decision == Punt &&
            -0.0736 < BestOther(ValuesOf(s), Punt) < -0.0735
  {
    var s := WithDefaults(0, 10, 1.0, 5, 50);
    assert Ep(55.0) == A * 166375.0 + B * 3025.0 + C * 55.0 + D;
    assert Ep(50.0) == A * 125000.0 + B * 2500.0 + C * 50.0 + D;
    assert Ep(27.0) == A * 19683.0 + B * 729.0 + C * 27.0 + D;
    assert Ep(57.0) == A * 185193.0 + B * 3249.0 + C * 57.0 + D;
  }

  /** In that situation the engine reports the punt figure as written, which
      lands between 44 and 45 yards, and a punt of that length is worth
      -maxOther instead of maxOther; the corrected engine reports a figure
      between 41 and 42 yards, which breaks even. */
  lemma {:induction false} LateDeficitPuntFigure(solver: RootSolver)
    requires SoundSolver(solver)
    ensures var s := WithDefaults(0, 10, 1.0, 5, 50);
            var maxOther := BestOther(ValuesOf(s), Punt);
            var asWritten := PuntThresholdAsWritten(50, maxOther, solver);
            var corrected := PuntThreshold(50, maxOther, solver);
            (asWritten.Value? ==>
               44.0 < asWritten.amount < 45.0 && PuntValue(50, asWritten.amount) != maxOther) &&
            (corrected.Value? ==>
               41.0 < corrected.amount < 42.0 && PuntValue(50, corrected.amount) == maxOther) &&
            FourthDownDecision(s, solver) == Ok(Verdict(Punt, asWritten)) &&
            FourthDownDecisionCorrected(s, solver) == Ok(Verdict(Punt, corrected))
  {
    var s := WithDefaults(0, 10, 1.0, 5, 50);
    var maxOther := BestOther(ValuesOf(s), Punt);
    LateDeficitPunt(solver);
    assert Ep(5.0) == A * 125.0 + B * 25.0 + C * 5.0 + D;
    assert Ep(6.0) == A * 216.0 + B * 36.0 + C * 6.0 + D;
    assert Ep(8.0) == A * 512.0 + B * 64.0 + C * 8.0 + D;
    assert Ep(9.0) == A * 729.0 + B * 81.0 + C * 9.0 + D;
    var asWritten := PuntThresholdAsWritten(50, maxOther, solver);
    if asWritten.Value? {
      var roots := solver(D + -maxOther);
      PuntRoot(50, maxOther, D + -maxOther, roots);
      var r := Largest(ValidRoots(roots));
      // ep(r) == maxOther, and ep(5) < maxOther < ep(6)
      if r <= 5.0 { EpMonotone(r, 5.0); }
      if r >= 6.0 { EpMonotone(6.0, r); }
      PuntThresholdAsWrittenSolvesWrongSign(50, maxOther, solver);
    }
    var corrected := PuntThreshold(50, maxOther, solver);
    if corrected.Value? {
      var roots := solver(D + maxOther);
      PuntRoot(50, maxOther, D + maxOther, roots);
      var r := Largest(ValidRoots(roots));
      // ep(r) == -maxOther, and ep(8) < -maxOther < ep(9)
      if r <= 8.0 { EpMonotone(r, 8.0); }
      if r >= 9.0 { EpMonotone(9.0, r); }
      PuntThresholdBreakeven(50, maxOther, solver, corrected.amount);
    }
  }
}
