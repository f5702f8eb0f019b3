/** Outcome types shared by the parser: an optional value, and the result of a
    parse that either succeeds or throws `InvalidFlagError`. */
module Results {

  datatype Option<+T> = None | Some(value: T)

  /** The one error kind of index.ts. Only the offending fragment is kept; the
      message text built from it is not modelled. */
  datatype InvalidFlagError = InvalidFlagError(flag: string)

  /** `Err` stands for the thrown `InvalidFlagError`; there is no partial result. */
  datatype Result<+T> = Ok(value: T) | Err(error: InvalidFlagError)
}
