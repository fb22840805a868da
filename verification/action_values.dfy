/** The game situation and the expected-point value of each of the three
    fourth-down actions. */
module ActionValues {
  import opened ExpectedPoints
  import opened Probabilities

  /** One fourth-down situation. Yard lines count from the offense's own goal
      line; the last two fields are the tunables with defaults. */
  datatype Situation = Situation(
    ourScore: int,
    oppScore: int,
    timeRemaining: real,
    distanceToFirstDown: int,
    fieldPosition: int,
    avgNetPuntYards: real,
    kickoffStartPos: real)

  /** A situation with the default net punt (40) and kickoff spot (27). */
  function WithDefaults(ourScore: int, oppScore: int, timeRemaining: real,
                        distanceToFirstDown: int, fieldPosition: int): (s: Situation)
    ensures s.avgNetPuntYards == 40.0 && s.kickoffStartPos == 27.0
  {
    Situation(ourScore, oppScore, timeRemaining, distanceToFirstDown, fieldPosition, 40.0, 27.0)
  }

  predicate ValidFieldPosition(fp: int) {
    1 <= fp <= 99
  }

  function PointDiff(s: Situation): int {
    s.ourScore - s.oppScore
  }

  /** Kick distance: the yards to the goal line plus 17 for the snap and the
      goalposts. */
  function FieldGoalDistance(fp: int): int {
    100 - fp + 17
  }

  /** Where the offense has the ball after converting. */
  function GoSpot(fp: int, ytg: int): (spot: int)
    ensures spot <= 99
    ensures spot == fp + ytg || spot == 99
    ensures fp + ytg <= 99 ==> spot == fp + ytg
  {
    if fp + ytg < 99 then fp + ytg else 99
  }

  /** Going for it: convert and keep the ball at the new spot, or fail and
      hand the opponent the ball where it stands (their yard line 100 - fp). */
  function GoValue(fp: int, ytg: int): real {
    var p := ConversionProbability(ytg);
    p * Ep(GoSpot(fp, ytg) as real) + (1.0 - p) * -Ep((100 - fp) as real)
  }

  /** Going for it is worth something between failing for sure and
      converting for sure. */
  lemma GoValueBetween(fp: int, ytg: int)
    ensures var convert := Ep(GoSpot(fp, ytg) as real);
            var fail := -Ep((100 - fp) as real);
            (fail <= convert ==> fail <= GoValue(fp, ytg) <= convert) &&
            (convert <= fail ==> convert <= GoValue(fp, ytg) <= fail)
  {
    var p := ConversionProbability(ytg);
    assert 0.0 < p < 1.0;
    var convert := Ep(GoSpot(fp, ytg) as real);
    var fail := -Ep((100 - fp) as real);
    assert GoValue(fp, ytg) == p * convert + (1.0 - p) * fail;
    Interpolate(p, convert, fail, GoValue(fp, ytg));
  }

  /** The opponent's yard line after a punt of `net` yards: the 20 when the
      punt would carry past the goal line, otherwise where it lands. */
  function PuntSpot(fp: int, net: real): (spot: real)
    ensures fp as real + net > 100.0 ==> spot == 20.0
    ensures fp as real + net <= 100.0 ==> spot == (100 - fp) as real - net
    ensures spot >= 0.0
    ensures 1 <= fp && 0.0 <= net ==> spot <= 99.0
  {
    if fp as real + net > 100.0 then 20.0 else (100 - fp) as real - net
  }

  /** The value of punting, from the punting team's side. */
  function PuntValue(fp: int, net: real): real {
    -Ep(PuntSpot(fp, net))
  }

  /** Where the opponent takes over after a missed kick: the spot of the kick,
      but never inside their own 20. */
  function MissSpot(fp: int): (spot: int)
    ensures spot >= 20 && spot >= 107 - fp
    ensures spot == 20 || spot == 107 - fp
  {
    if 20 < 107 - fp then 107 - fp else 20
  }

  /** The kick value as a linear function p·ATerm + BTerm of the make
      probability p. */
  function KickATerm(fp: int, kickoff: real): real {
    3.0 - Ep(kickoff) + Ep(MissSpot(fp) as real)
  }

  function KickBTerm(fp: int): real {
    -Ep(MissSpot(fp) as real)
  }

  /** Kicking: with probability `pMake` three points and a kickoff to the
      opponent at `kickoff`, otherwise the opponent's ball at the miss spot. */
  function KickValue(fp: int, kickoff: real, pMake: real): real {
    pMake * (3.0 - Ep(kickoff)) + (1.0 - pMake) * -Ep(MissSpot(fp) as real)
  }

  lemma KickValueLinear(fp: int, kickoff: real, pMake: real)
    ensures KickValue(fp, kickoff, pMake) == pMake * KickATerm(fp, kickoff) + KickBTerm(fp)
  {
  }

  /** For any make probability in [0, 1] the kick is worth somewhere between
      a sure miss and a sure make. */
  lemma KickValueBetween(fp: int, kickoff: real, pMake: real)
    requires 0.0 <= pMake <= 1.0
    ensures var miss := -Ep(MissSpot(fp) as real);
            var make := 3.0 - Ep(kickoff);
            (miss <= make ==> miss <= KickValue(fp, kickoff, pMake) <= make) &&
            (make <= miss ==> make <= KickValue(fp, kickoff, pMake) <= miss)
  {
    Interpolate(pMake, 3.0 - Ep(kickoff), -Ep(MissSpot(fp) as real), KickValue(fp, kickoff, pMake));
  }

  /** A weighted average p·x + (1 - p)·y lies between x and y. */
  lemma Interpolate(p: real, x: real, y: real, v: real)
    requires 0.0 <= p <= 1.0 && v == p * x + (1.0 - p) * y
    ensures x <= y ==> x <= v <= y
    ensures y <= x ==> y <= v <= x
  {
    assert v == y + p * (x - y);
    if x <= y {
      NonNegativeProduct(p, y - x);
      NonNegativeProduct(1.0 - p, y - x);
      assert p * (x - y) == -(p * (y - x));
      assert (1.0 - p) * (y - x) == (y - x) - p * (y - x);
    } else {
      NonNegativeProduct(p, x - y);
      NonNegativeProduct(1.0 - p, x - y);
      assert (1.0 - p) * (x - y) == (x - y) - p * (x - y);
    }
  }

  lemma NonNegativeProduct(p: real, q: real)
    requires 0.0 <= p && 0.0 <= q
    ensures 0.0 <= p * q
  {
  }

  /** Short of a touchback, a longer net punt is never worth less. */
  lemma {:induction false} PuntValueMonotone(fp: int, n1: real, n2: real)
    requires n1 <= n2 && fp as real + n2 <= 100.0
    ensures PuntValue(fp, n1) <= PuntValue(fp, n2)
  {
    EpMonotone(PuntSpot(fp, n2), PuntSpot(fp, n1));
  }

  /** The three values of one situation. */
  datatype Values = Values(go: real, punt: real, kick: real)

  /** The kick is valued at the estimated make probability for its distance. */
  function ValuesOf(s: Situation): (v: Values)
    ensures v.kick == MakeProbability(FieldGoalDistance(s.fieldPosition)) * KickATerm(s.fieldPosition, s.kickoffStartPos)
                      + KickBTerm(s.fieldPosition)
  {
    var fp := s.fieldPosition;
    KickValueLinear(fp, s.kickoffStartPos, MakeProbability(FieldGoalDistance(fp)));
    Values(
      GoValue(fp, s.distanceToFirstDown),
      PuntValue(fp, s.avgNetPuntYards),
      KickValue(fp, s.kickoffStartPos, MakeProbability(FieldGoalDistance(fp))))
  }
}
