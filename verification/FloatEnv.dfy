/** The floating-point state that the operations share. */
module FloatEnv {

  datatype Flag = Inexact | Underflow | Overflow | DivideByZero | Invalid

  datatype RoundingMode = RoundNearEven | RoundMinMag | RoundMin | RoundMax | RoundNearMaxMag | RoundOdd

  /** `exceptionFlags` only ever accumulates: or-ing a flag word is a union. */
  class FloatState {
    var exceptionFlags: set<Flag>
    const roundingMode: RoundingMode
    const tininessBeforeRounding: bool

    constructor (mode: RoundingMode, before: bool)
      ensures exceptionFlags == {} && roundingMode == mode && tininessBeforeRounding == before
    {
      exceptionFlags, roundingMode, tininessBeforeRounding := {}, mode, before;
    }

    method RaiseFlags(flags: set<Flag>)
      modifies this
      ensures exceptionFlags == old(exceptionFlags) + flags
    {
      exceptionFlags := exceptionFlags + flags;
    }
  }
}
