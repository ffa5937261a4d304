/** Lookup results that may be missing, standing in for Python's `None`. */
module Optional {

  /** `None` for a key that was never recorded, `Some(value)` otherwise. */
  datatype Option<T> = None | Some(value: T)

  /** The value `o` carries, or `fallback` when it carries none. */
  function ValueOr<T>(o: Option<T>, fallback: T): T {
    if o.Some? then o.value else fallback
  }
}
