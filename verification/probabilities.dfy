/** The two empirical probability models of the fourth-down engine: the
    first-down conversion table and the field-goal make step function. */
module Probabilities {

  /** Conversion rates by yards to go, for the keys 1 to 10 only. */
  const ConvRates: map<int, real> := map[
    1 := 0.69, 2 := 0.60, 3 := 0.53, 4 := 0.48, 5 := 0.44,
    6 := 0.40, 7 := 0.36, 8 := 0.33, 9 := 0.31, 10 := 0.29]

  /** The value looked up when the key is missing from the table. */
  const ConvDefault: real := 0.25

  function Min(x: int, y: int): (m: int)
    ensures m <= x && m <= y && (m == x || m == y)
  {
    if x < y then x else y
  }

  /** `conv_rates.get(min(ytg, 10), 0.25)`: every distance above 10 is looked
      up under the key 10, so the default is reached only below 1. */
  function ConversionProbability(ytg: int): (p: real)
    ensures 0.0 < p < 1.0
    ensures 1 <= ytg <= 10 ==> ytg in ConvRates && p == ConvRates[ytg]
    ensures ytg > 10 ==> p == 0.29
    ensures p == ConvDefault <==> ytg < 1
  {
    var key := Min(ytg, 10);
    if key in ConvRates then ConvRates[key] else ConvDefault
  }

  /** Once at least a yard is to go, a longer distance never converts more
      often. */
  lemma ConversionNonIncreasing(y1: int, y2: int)
    requires 1 <= y1 <= y2
    ensures ConversionProbability(y2) <= ConversionProbability(y1)
  {
  }

  /** The five make probabilities of the step function. */
  const MakeLevels: set<real> := {0.95, 0.90, 0.80, 0.65, 0.40}

  /** Field-goal make probability for a kick of `dist` yards. */
  function MakeProbability(dist: int): (p: real)
    ensures p in MakeLevels
    ensures dist < 30 <==> p == 0.95
    ensures 30 <= dist < 40 <==> p == 0.90
    ensures 40 <= dist < 50 <==> p == 0.80
    ensures 50 <= dist < 60 <==> p == 0.65
    ensures 60 <= dist <==> p == 0.40
  {
    if dist < 30 then 0.95
    else if dist < 40 then 0.90
    else if dist < 50 then 0.80
    else if dist < 60 then 0.65
    else 0.40
  }

  /** A longer kick is never more likely to be made. */
  lemma MakeNonIncreasing(d1: int, d2: int)
    requires d1 <= d2
    ensures MakeProbability(d2) <= MakeProbability(d1)
  {
  }
}
