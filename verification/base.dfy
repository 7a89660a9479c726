/** Shared vocabulary of the model: optional values, results, Rust's `i32`
    and the ways the program aborts inside the modelled core. */
module Base {

  datatype Option<+T> = None | Some(value: T)

  datatype Result<+T, +E> = Ok(value: T) | Err(error: E)

  const MIN_INT32: int := -0x8000_0000
  const MAX_INT32: int := 0x7FFF_FFFF

  /** Rust's `i32`: the type of the chart year. */
  newtype Int32 = x: int | -0x8000_0000 <= x < 0x8000_0000

  /** The chart date as the program holds it: `(year, month, day)`, with
      month and day kept as the text the user typed (trimmed). */
  type Date = (Int32, string, string)

  /** One chart entry: `(title, artist)`. */
  type Entry = (string, string)

  /** The panics the core can raise. A panic ends the whole run, so the
      model returns it instead of a value. */
  datatype Panic =
    | RequestFailed          // the chart GET request or its body conversion failed
    | DebugSliceOutOfRange   // `&list[..10]` on a list of fewer than ten pairs
    | YearOverflow           // `year - 2` or `year + 2` leaves the `i32` range
    | IdNotFound             // the first search hit has no track id

  function Min(a: nat, b: nat): (m: nat)
    ensures m <= a && m <= b && (m == a || m == b)
  {
    if a < b then a else b
  }
}
