/** Small value types shared by the page models: optional values, the
    success/failure outcome of a backend call, and the reply to a query. */
module Common {

  datatype Option<+T> = None | Some(value: T) {
    /** The value, or `default` when there is none (JavaScript's `x || default`
        for a value that is never falsy when present). */
    function GetOr(default: T): T {
      match this
      case Some(v) => v
      case None => default
    }
  }

  /** What a mutating backend call reported: `{ error: null }` or `{ error }`. */
  datatype Outcome = Ok | Err(message: string)

  /** What a select query reported: rows (possibly `null`) or an error. */
  datatype Query<T> = Rows(data: Option<seq<T>>) | QueryError(message: string) {
    /** `data || []`: the rows, or the empty list when the reply carries none. */
    function RowsOrEmpty(): (rows: seq<T>)
      requires Rows?
      ensures data.Some? ==> rows == data.value
      ensures data.None? ==> rows == []
    {
      data.GetOr([])
    }
  }
}
