/** Failure-carrying results shared by the tokenizer and the generator. */
module Wrappers {

  datatype Option<+T> = None | Some(value: T)

  /** `Err` stands for the Python exception the source lets escape. */
  datatype Result<+T, +E> = Ok(value: T) | Err(error: E)

  /** The Python exceptions the modelled code can raise. */
  datatype Failure =
    | KeyError(key: string)      // a symbol missing from the mapping
    | IndexError(id: int)        // an id no symbol maps to
    | ValueError(literal: string) // `int()` of a string that is not a number
}
