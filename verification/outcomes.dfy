/** What the fourth-down engine returns: a decision and the extra figure
    that goes with it, or the reason no answer was produced. */
module Outcomes {

  /** The three actions, in the order the engine's value table lists them. */
  datatype Decision = Punt | Go | Kick

  /** The decision names the engine reports. */
  function Label(d: Decision): string {
    match d
    case Punt => "Punt"
    case Go => "GO"
    case Kick => "Kick"
  }

  lemma LabelsDistinct(x: Decision, y: Decision)
    ensures Label(x) in {"Punt", "GO", "Kick"}
    ensures Label(x) == Label(y) ==> x == y
  {
  }

  /** The second half of the returned pair: `None`, a finite number, or
      `float('inf')`. */
  datatype Info = NoInfo | Value(amount: real) | Infinite

  /** `FieldPositionOutOfRange` is the ValueError raised for a yard line
      outside [1, 99]; `NeededPMakeUnbound` is the NameError raised when the
      kick branch returns a variable it never assigned. */
  datatype Error = FieldPositionOutOfRange | NeededPMakeUnbound

  datatype Result<+T> = Ok(value: T) | Err(error: Error)

  datatype Verdict = Verdict(decision: Decision, info: Info)

  function RealMax(x: real, y: real): (m: real)
    ensures m >= x && m >= y && (m == x || m == y)
  {
    if x < y then y else x
  }
}
