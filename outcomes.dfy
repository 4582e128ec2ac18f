/** Values shared by every part of the engine: optional values, Python
    exceptions, the outcome of a call that may raise, and the few Python
    values that the engine inspects (parameter values and action labels). */
module Outcomes {

  datatype Option<+T> = None | Some(value: T)

  /** A raised Python exception: its class name and its message. */
  datatype Exception = Exception(kind: string, message: string)

  /** The outcome of a call that either returns a value or raises. */
  datatype Outcome<+T> = Returned(value: T) | Raised(error: Exception)

  /** The Python values the engine distinguishes: `__sub__` accepts only a
      string as an action label; parameter dictionaries hold any of these. */
  datatype PyValue = PyNone | PyBool(b: bool) | PyInt(i: int) | PyStr(s: string)
}
