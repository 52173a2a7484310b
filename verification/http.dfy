/** The outcome of a request handler, reduced to its status class and body. */
module Http {

  /** The error statuses the handlers send: 400, 401, 403, 404 and 500. */
  datatype Rejection = BadRequest | Unauthorized | Forbidden | NotFound | InternalError

  /** `OK` is status 200 with a JSON body; every other outcome is a rejection. */
  datatype Response<T> = OK(body: T) | Rejected(why: Rejection)

  function StatusCode<T>(r: Response<T>): (code: int)
    ensures code == 200 <==> r.OK?
    ensures r.Rejected? ==> 400 <= code <= 500
    ensures r == Rejected(NotFound) <==> code == 404
  {
    match r
    case OK(_) => 200
    case Rejected(BadRequest) => 400
    case Rejected(Unauthorized) => 401
    case Rejected(Forbidden) => 403
    case Rejected(NotFound) => 404
    case Rejected(InternalError) => 500
  }

  /** A handler's response together with the store calls it made, in order. */
  datatype Handled<T, C> = Handled(response: Response<T>, calls: seq<C>)
}
