/** Optional values, the model of Python's `None`. */
module Wrappers {

  datatype Option<+T> = None | Some(value: T) {

    /** The value, or `default` for `None` (Python's `x if x is not None else default`). */
    function GetOr(default: T): T {
      match this
      case Some(v) => v
      case None => default
    }
  }

  /** Python truthiness of an optional string: present and not empty. */
  predicate Truthy(s: Option<string>) {
    s.Some? && s.value != []
  }
}

/** HTTP outcomes of the request handlers: a value, or an `HTTPException` status. */
module Http {

  const BadRequest := 400
  const Unauthorized := 401
  const Forbidden := 403
  const NotFound := 404
  const Unprocessable := 422
  const ServerError := 500

  datatype Outcome<+T> = Ok(value: T) | Fail(status: int)

  /**
   * A handler body run inside `try: ... except Exception as e: raise HTTPException(status)`.
   * `HTTPException` is itself an `Exception`, so the generic handler also catches the
   * handler's own explicit failures and re-raises them with its own status.
   */
  function Rewrap<T>(o: Outcome<T>, status: int): (r: Outcome<T>)
    ensures r.Ok? <==> o.Ok?
    ensures o.Ok? ==> r == o
    ensures r.Fail? ==> r.status == status
  {
    match o
    case Ok(_) => o
    case Fail(_) => Fail(status)
  }
}
