/** Optional values, results and the HTTP errors the API handlers raise. */
module Wrappers {

  datatype Option<+T> = None | Some(value: T) {
    /** The value, or `default` when absent (the source's `??` operator). */
    function GetOr(default: T): T {
      match this
      case Some(v) => v
      case None => default
    }
  }

  datatype Result<+R, +E> = Success(value: R) | Failure(error: E)

  /** No element occurs twice. */
  predicate Distinct(q: seq<int>) {
    forall i, j :: 0 <= i < j < |q| ==> q[i] != q[j]
  }

  /** An `HTTPException(status_code, detail)` raised by a FastAPI handler. */
  datatype HttpError = HttpError(status: int, detail: string)
}
