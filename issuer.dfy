/**
 * The remote token issuer as the crate sees it: one HTTP exchange whose
 * outcome is not under the crate's control. The outcome is a parameter.
 */
module Issuer {
  import opened Wrappers
  import opened Tokens

  /** How one exchange ended: no response at all (`send().await?` failed), or
      a status with a body that did (`Some`) or did not (`None`) decode. */
  datatype Exchange<T> = NoResponse | Response(status: nat, body: Option<T>)

  /** reqwest's `StatusCode::is_success`: the 2xx range. */
  predicate IsSuccess(status: nat)
  {
    200 <= status <= 299
  }

  /** The shared tail of both exchanges: send, reject a non-success status
      with `context`, then decode the body. A token is produced only by a
      successful, decodable response. */
  function Receive<T>(ex: Exchange<T>, context: string): (r: Result<T, Error>)
    ensures r.Ok? <==> ex.Response? && IsSuccess(ex.status) && ex.body.Some?
    ensures r.Ok? ==> r.value == ex.body.value
    ensures ex.NoResponse? ==> r == Err(Transport)
    ensures ex.Response? && !IsSuccess(ex.status) ==> r == Err(Rejected(context, ex.status))
    ensures ex.Response? && IsSuccess(ex.status) && ex.body.None? ==> r == Err(Malformed)
  {
    match ex
    case NoResponse => Err(Transport)
    case Response(status, body) =>
      if !IsSuccess(status) then Err(Rejected(context, status))
      else if body.None? then Err(Malformed)
      else Ok(body.value)
  }
}
