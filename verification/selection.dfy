/** Choosing the action: the late-game rules first, otherwise the action with
    the highest expected points. */
module Selection {
  import opened Outcomes
  import opened ActionValues

  function EpOf(v: Values, d: Decision): real {
    match d
    case Punt => v.punt
    case Go => v.go
    case Kick => v.kick
  }

  predicate Distinct(order: seq<Decision>) {
    forall i, j :: 0 <= i < j < |order| ==> order[i] != order[j]
  }

  /** `max(eps, key=eps.get)`: a scan that starts with the first action and
      switches only to an action with a strictly greater value, so the first
      action reaching the maximum wins. */
  function FirstMax(order: seq<Decision>, v: Values): (d: Decision)
    requires |order| > 0 && Distinct(order)
    ensures d in order
    ensures forall x :: x in order ==> EpOf(v, x) <= EpOf(v, d)
    ensures forall i, j :: 0 <= i < j < |order| && order[j] == d ==> EpOf(v, order[i]) < EpOf(v, d)
    decreases |order|
  {
    if |order| == 1 then order[0]
    else
      var best := FirstMax(order[..|order| - 1], v);
      var last := order[|order| - 1];
      if EpOf(v, last) > EpOf(v, best) then last else best
  }

  /** The value table is built in the order Punt, GO, Kick. */
  const TableOrder: seq<Decision> := [Punt, Go, Kick]

  /** Max-EP selection, ties going to the earlier action in Punt, GO, Kick. */
  function MaxEpChoice(v: Values): (d: Decision)
    ensures EpOf(v, d) >= v.punt && EpOf(v, d) >= v.go && EpOf(v, d) >= v.kick
    ensures d == Punt <==> v.punt >= v.go && v.punt >= v.kick
    ensures d == Go <==> v.go > v.punt && v.go >= v.kick
    ensures d == Kick <==> v.kick > v.punt && v.kick > v.go
  {
    assert Distinct(TableOrder);
    var d := FirstMax(TableOrder, v);
    assert TableOrder[0] == Punt && TableOrder[1] == Go && TableOrder[2] == Kick;
    d
  }

  /** Time is short when under two minutes remain. */
  predicate LateGame(timeRemaining: real) {
    timeRemaining < 2.0
  }

  /** The whole selection rule: under two minutes with a lead or a deficit
      the score and the kick distance decide; otherwise the values do. */
  function Choose(timeRemaining: real, pointDiff: int, fgDist: int, v: Values): Decision {
    if LateGame(timeRemaining) then
      if pointDiff > 0 then
        if fgDist <= 50 then Kick else Punt
      else if pointDiff < 0 then
        var trailingBy := -pointDiff;
        if trailingBy <= 3 && fgDist <= 55 then Kick
        else if trailingBy <= 8 then Go
        else Punt
      else MaxEpChoice(v)
    else MaxEpChoice(v)
  }

  /** Late with a lead: kick when the kick is 50 yards or shorter, punt
      otherwise; never go for it. */
  lemma LateLeading(timeRemaining: real, pointDiff: int, fgDist: int, v: Values)
    requires LateGame(timeRemaining) && pointDiff > 0
    ensures Choose(timeRemaining, pointDiff, fgDist, v) == (if fgDist <= 50 then Kick else Punt)
  {
  }

  /** Late and down by a field goal or less with a kick of 55 yards or
      shorter: kick. */
  lemma LateTrailingKick(timeRemaining: real, pointDiff: int, fgDist: int, v: Values)
    requires LateGame(timeRemaining) && -3 <= pointDiff < 0 && fgDist <= 55
    ensures Choose(timeRemaining, pointDiff, fgDist, v) == Kick
  {
  }

  /** Late and trailing otherwise: go for it when down by 8 or less, punt
      when down by more. */
  lemma LateTrailingOtherwise(timeRemaining: real, pointDiff: int, fgDist: int, v: Values)
    requires LateGame(timeRemaining) && pointDiff < 0
    requires !(-pointDiff <= 3 && fgDist <= 55)
    ensures Choose(timeRemaining, pointDiff, fgDist, v) == (if -pointDiff <= 8 then Go else Punt)
  {
  }

  /** A late-game decision with a lead or a deficit ignores the values
      altogether, and never picks a kick longer than 55 yards. */
  lemma LateGameIgnoresValues(timeRemaining: real, pointDiff: int, fgDist: int, v: Values, w: Values)
    requires LateGame(timeRemaining) && pointDiff != 0
    ensures Choose(timeRemaining, pointDiff, fgDist, v) == Choose(timeRemaining, pointDiff, fgDist, w)
    ensures Choose(timeRemaining, pointDiff, fgDist, v) == Kick ==> fgDist <= 55
  {
  }

  /** With two minutes or more left, or a tied score, the chosen action's
      value is at least that of each of the other two. */
  lemma ChooseMaximises(timeRemaining: real, pointDiff: int, fgDist: int, v: Values)
    requires !LateGame(timeRemaining) || pointDiff == 0
    ensures var d := Choose(timeRemaining, pointDiff, fgDist, v);
            EpOf(v, d) >= v.punt && EpOf(v, d) >= v.go && EpOf(v, d) >= v.kick
  {
  }
}
