/** Result types standing for the values and exceptions of the original program. */
module Common {

  datatype Option<+T> = None | Some(value: T)

  datatype Result<+T, +E> = Ok(value: T) | Err(error: E)

  /** A datetime, with or without a time zone. Aware ones compare by their UTC instant, in microseconds. */
  datatype Timestamp = Aware(instant: int) | Naive(instant: int)

  /** Instants and durations are whole microseconds. */
  const SECOND := 1_000_000
  const DAY := 86400 * SECOND

  function Max(a: real, b: real): real {
    if a < b then b else a
  }

  function Min(a: real, b: real): real {
    if b < a then b else a
  }
}
