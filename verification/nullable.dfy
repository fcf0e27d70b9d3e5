/** Presence/absence values. Go's `*float64` / `*int` fields and the
    `(value, error)` returns of the pipeline are modelled with these. */
module Nullable {

  /** A nil-able value: `None` is Go's `nil` pointer. */
  datatype Option<+T> = None | Some(value: T)

  /** A value or the reason the operation refused to produce one. */
  datatype Result<+T, +E> = Ok(value: T) | Err(error: E)
}
