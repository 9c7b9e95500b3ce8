/**
  Failure values for the exceptions raised by the modelled code, and the
  Option/Result wrappers that carry them.  An operation that raises in the
  source returns `Err(e)` here instead of being excluded by a precondition.
 */
module Outcomes {

  datatype Option<+T> = None | Some(value: T)

  datatype Error =
    | EmptyReduction                 // min/max over an empty sequence (ValueError)
    | EmptyIndex                     // `tiles[0]` on an empty list (IndexError)
    | ShapeMismatch                  // "All tiles must have the same shape." (AssertionError)
    | NotSingleWell                  // "WellAcquisition must contain files from a single well." (AssertionError)
    | UnknownAlignment               // "Unknown alignment option: ..." (ValueError)
    | MissingKey(key: string)        // lookup or pop of an absent key (KeyError)
    | InvalidLiteral(text: string)   // `int(text)` of a string that is not an integer (ValueError)
    | CodePointOutOfRange(code: int) // `chr(code)` outside the code points a string can hold (ValueError)
    | ChannelsNotFromZero            // "Channel indices must start at 0." (AssertionError)
    | MissingChunk                   // `tile_map[chunk_location]` for an unknown chunk (KeyError)
    | TypeMismatch                   // a NaN or None where a string is needed (TypeError)

  datatype Result<+T> = Ok(value: T) | Err(error: Error) {
    predicate IsFailure() { Err? }

    function PropagateFailure<U>(): Result<U>
      requires Err?
    {
      Err(error)
    }

    function Extract(): T
      requires Ok?
    {
      value
    }
  }
}
