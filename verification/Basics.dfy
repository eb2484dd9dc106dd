/** Small datatypes shared by every component: optional values (Go's nil pointers and the
    `undefined` of TypeScript) and results that carry an error. */
module Basics {
  datatype Option<+T> = None | Some(value: T)

  datatype Result<+T, +E> = Ok(value: T) | Err(error: E)

  /** What is remembered about an optional field after a report that may omit it. */
  function Merge<T>(known: Option<T>, reported: Option<T>): (r: Option<T>)
    ensures r.None? ==> known.None? && reported.None?
  {
    if reported.Some? then reported else known
  }
}
