/** Shared vocabulary of the backend: optional values, the `{status, message}`
    error literals that the handlers throw or send, and the 32-bit range that
    the SQL driver enforces on `sql.Int` parameters. */
module Common {

  datatype Option<+T> = None | Some(value: T) {
    /** The value, or `default` when there is none (JavaScript's `x || default`
        for a value that is only ever missing, never falsy). */
    function GetOr(default: T): T {
      match this
      case None => default
      case Some(v) => v
    }
  }

  /** The ad-hoc error object `{ status, message }` of the handlers. */
  datatype Error = Error(status: nat, message: string)

  /** Either a value or one of the errors above. */
  datatype Result<+T> = Ok(value: T) | Err(error: Error)

  const Int32Min: int := -0x8000_0000
  const Int32Max: int := 0x7FFF_FFFF

  /** The values an `sql.Int` request parameter accepts; any other value makes
      the query fail before it reaches the database. */
  predicate IsInt32(n: int) {
    Int32Min <= n <= Int32Max
  }

  /** An optional value goes to an `sql.Int` parameter as NULL or as a number. */
  predicate IsInt32Option(o: Option<int>) {
    o.None? || IsInt32(o.value)
  }
}
