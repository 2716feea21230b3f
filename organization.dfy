/**
 * The tenant (organization) domain (src/organization.rs): an `OrgApp` binds
 * the app credentials to one corp id and the shared store, and acquires its
 * token cache-aside: GET under the raw corp id, answer a hit as it is, and on
 * a miss run the client-credentials exchange and SETEX the token for 7200
 * seconds before answering it.
 */
module Organization {
  import opened Wrappers
  import opened Redis
  import opened Tokens
  import opened Issuer
  import Core

  /** The TTL the tenant domain writes, whatever lifetime the issuer declares. */
  const TokenTtl := 7200

  const OrgTokenFailure := "Failed to get organization access token"

  /** Whether an acquisition has to go to the issuer: the GET failed (read as
      `None` by `unwrap_or(None)`) or found nothing live. */
  predicate Misses(s: State<Value>, corpId: string, lost: bool)
  {
    lost || Lookup(s, corpId).None?
  }

  /** `OrgApp::get_access_token` on the store.
      A hit answers the stored string and leaves the store as it was, whatever
      the issuer would have said. A miss answers what the exchange gives: on
      failure its error, with nothing written; on success the issued token,
      which is then the value under `corpId` for exactly `TokenTtl` seconds,
      every other key untouched. */
  function Acquire(s: State<Value>, corpId: string, lost: bool, ex: Exchange<OrgAccessToken>): (r: Step<string>)
    ensures r.store.now == s.now
    ensures !Misses(s, corpId, lost) ==> r == Step(s, Ok(Text(Lookup(s, corpId).value)))
    ensures Misses(s, corpId, lost) && Receive(ex, OrgTokenFailure).Err? ==>
      r == Step(s, Err(Receive(ex, OrgTokenFailure).error))
    ensures Misses(s, corpId, lost) && Receive(ex, OrgTokenFailure).Ok? ==>
      var token := ex.body.value.accessToken;
      && r.reply == Ok(token)
      && corpId in r.store.entries
      && r.store.entries[corpId] == Entry(Plain(token), Some(s.now + TokenTtl))
      && (forall dt: nat :: Lookup(Elapse(r.store, dt), corpId) == if dt < TokenTtl then Some(Plain(token)) else None)
      && r.store.entries - {corpId} == s.entries - {corpId}
  {
    var cached := if lost then None else Lookup(s, corpId);
    match cached
    case Some(v) => Step(s, Ok(Text(v)))
    case None =>
      match Receive(ex, OrgTokenFailure)
      case Err(e) => Step(s, Err(e))
      case Ok(t) => Step(WriteEx(s, corpId, TokenTtl, Plain(t.accessToken)), Ok(t.accessToken))
  }

  /** How a consumer attaches the token to its request. */
  datatype Carrier = Header | QueryParameter

  /** The consumers that start by acquiring the tenant token. */
  datatype Endpoint =
    | GetOrganization | GetUserId | GetEmployeeCount
    | QueryOnJobEmployees | QueryOffJobEmployees | GetEmployeeUserinfo

  /** `x-acs-dingtalk-access-token` for the api.dingtalk.com endpoints,
      `?access_token=` for the oapi.dingtalk.com ones. */
  function CarrierOf(e: Endpoint): (c: Carrier)
    ensures c == Header <==> e == GetOrganization || e == QueryOffJobEmployees
  {
    match e
    case GetOrganization => Header
    case QueryOffJobEmployees => Header
    case _ => QueryParameter
  }

  /** The request a consumer would send next; the HTTP call itself is not
      modelled. */
  datatype Request = Request(endpoint: Endpoint, token: string, carrier: Carrier)

  /** The common prefix of the consumers: token first, its error unchanged. */
  function Authorized(s: State<Value>, corpId: string, e: Endpoint, lost: bool, ex: Exchange<OrgAccessToken>): (r: Step<Request>)
    ensures r.store == Acquire(s, corpId, lost, ex).store
    ensures Acquire(s, corpId, lost, ex).reply.Err? ==> r.reply == Err(Acquire(s, corpId, lost, ex).reply.error)
    ensures Acquire(s, corpId, lost, ex).reply.Ok? ==>
      r.reply == Ok(Request(e, Acquire(s, corpId, lost, ex).reply.value, CarrierOf(e)))
  {
    var step := Acquire(s, corpId, lost, ex);
    match step.reply
    case Err(err) => Step(step.store, Err(err))
    case Ok(token) => Step(step.store, Ok(Request(e, token, CarrierOf(e))))
  }

  class OrgApp {
    const appid: string
    const appSecret: string
    const corpId: string
    const rdb: Store<Value>

    /** `OrgApp::new`: copies its arguments; touches no store. */
    constructor (appid: string, appSecret: string, corpId: string, rdb: Store<Value>)
      ensures this.appid == appid && this.appSecret == appSecret
      ensures this.corpId == corpId && this.rdb == rdb
    {
      this.appid := appid;
      this.appSecret := appSecret;
      this.corpId := corpId;
      this.rdb := rdb;
    }

    /** `get_access_token`: `lost` is the fate of the GET, `ex` that of the
        client-credentials exchange (consulted only on a miss). */
    method GetAccessToken(lost: bool, ex: Exchange<OrgAccessToken>) returns (r: Result<string, Error>)
      modifies rdb
      ensures rdb.Snapshot() == Acquire(old(rdb.Snapshot()), corpId, lost, ex).store
      ensures r == Acquire(old(rdb.Snapshot()), corpId, lost, ex).reply
    {
      var reply := rdb.Get(corpId, lost);
      var value := if reply.Ok? then reply.value else None;
      if value.Some? {
        return Ok(Text(value.value));
      }
      var received := Receive(ex, OrgTokenFailure);
      if received.Err? {
        return Err(received.error);
      }
      var token := received.value.accessToken;
      rdb.SetEx(corpId, TokenTtl, Plain(token));
      return Ok(token);
    }

    /** The opening of every consumer: acquire the token, and either return
        its error unchanged, without a request, or build the request. */
    method Authorize(e: Endpoint, lost: bool, ex: Exchange<OrgAccessToken>) returns (r: Result<Request, Error>)
      modifies rdb
      ensures rdb.Snapshot() == Authorized(old(rdb.Snapshot()), corpId, e, lost, ex).store
      ensures r == Authorized(old(rdb.Snapshot()), corpId, e, lost, ex).reply
    {
      var token := GetAccessToken(lost, ex);
      match token
      case Err(err) => return Err(err);
      case Ok(at) => return Ok(Request(e, at, CarrierOf(e)));
    }
  }

  /** `DingTalk::set_corp_id`: a fresh `OrgApp` with the client's app id,
      secret and store handle, and the given corp id. Writes nothing. */
  method SetCorpId(d: Core.DingTalk, corpId: string) returns (o: OrgApp)
    ensures fresh(o)
    ensures o.appid == d.appid && o.appSecret == d.appSecret && o.corpId == corpId && o.rdb == d.rdb
  {
    o := new OrgApp(d.appid, d.appSecret, corpId, d.rdb);
  }
}
