/** Types shared by every model in this project. */
module Common {

  /** A UUID. Only its identity matters, so a natural number stands for it. */
  type Uuid = nat

  newtype byte = x: int | 0 <= x < 256

  datatype Option<+T> = None | Some(value: T)

  datatype Result<+T, +E> = Ok(value: T) | Err(error: E)

  /** SQL's COALESCE of an optional new value and a stored one, and Rust's `unwrap_or`. */
  function Coalesce<T>(o: Option<T>, d: T): T {
    if o.Some? then o.value else d
  }

  function Min(a: nat, b: nat): nat {
    if a <= b then a else b
  }
}
