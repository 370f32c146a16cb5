/** Values shared by every part of the model: optional request fields and
    nullable columns, and the outcome of a route handler. */
module Common {

  /** A value that may be absent: a JSON field that was not sent or was
      null, or a nullable SQL column holding NULL. */
  datatype Option<+T> = None | Some(value: T)

  /** Python truthiness of an optional string (`if x:`, `not x`):
      the value was given and is not the empty string. */
  predicate Present(o: Option<string>) {
    o.Some? && o.value != ""
  }

  /** `f"{value}"` for an optional string column: NULL prints as "None". */
  function Show(o: Option<string>): string {
    match o
    case Some(s) => s
    case None => "None"
  }

  /** Python's `value or fallback` for an optional string. */
  function OrElse(o: Option<string>, fallback: string): string {
    if Present(o) then o.value else fallback
  }

  /** What a route handler answers, one variant per HTTP status the source
      can return: 200/201 carry a value, 400, 404, 409 and 401 carry the
      source's message, 500 is an opaque storage failure. */
  datatype Outcome<+T> =
    | Ok(value: T)
    | BadRequest(message: string)
    | NotFound(message: string)
    | Conflict(message: string)
    | Unauthorized(message: string)
    | StorageError
}
