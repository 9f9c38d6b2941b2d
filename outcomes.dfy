/**
 * How an operation of the buffer ends.
 *
 * The buffer itself reports nothing: an access past the end of the byte
 * array panics, and a bit count it cannot handle is either ignored or
 * reaches arithmetic that does not apply. The model makes both cases
 * explicit outcomes so that their conditions can be stated.
 */
module Outcomes {

  datatype Error =
    | OutOfBounds      // the access would run past the last bit of the buffer
    | InvalidBitCount  // the number of bits is outside what the operation handles

  /** The outcome of a write. */
  datatype Outcome = Pass | Fail(error: Error)

  /** The outcome of a read. */
  datatype Result<T> = Ok(value: T) | Err(error: Error)
}
