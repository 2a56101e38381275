/** Result and option types used wherever the agent code raises or a
    lookup may fail. */
module Outcomes {

  /** Either a value, or the error the source would raise instead. */
  datatype Result<+T, +E> = Ok(value: T) | Err(error: E)

  /** Optional value, used for partial inverses. */
  datatype Option<+T> = None | Some(value: T)
}
