/** Optional values, results, and the failures the decoder can end in. */
module Outcome {

  datatype Option<T> = None | Some(value: T)

  /** The ways a decoding call fails: the first six stand for the exception
      the decoder raises at that point, `Diverges` for a loop that never
      exits. */
  datatype Error =
    | InvalidParams   // ValueError from the token constructor: not exactly one character
    | UnknownUnit     // ValueError from `units.index`: ordering a character outside the alphabet
    | NoneArithmetic  // TypeError: arithmetic or ordering on a missing number (None)
    | EmptyInteger    // ValueError: `max` of an empty list of place values
    | TooManyYuan     // ValueError: more than two parts to unpack after splitting on 元
    | NotIterable     // TypeError: iterating the fraction part when there is none
    | Diverges        // the anchor loop steps back and never reaches its exit

  datatype Result<T> = Ok(value: T) | Err(error: Error)

  /** Puts `p` in front of a successful list result; passes a failure on. */
  function Prepend<T>(p: seq<T>, r: Result<seq<T>>): Result<seq<T>>
  {
    match r
    case Ok(s) => Ok(p + s)
    case Err(e) => Err(e)
  }
}
