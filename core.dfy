/**
 * The application domain (src/core.rs): the authorization-code exchange that
 * stores the whole app record under the raw `appid` with no expiry, the
 * read-only lookup of that record's access token, and the authorization
 * redirect URL.
 */
module Core {
  import opened Wrappers
  import opened Redis
  import opened Tokens
  import opened Issuer
  import FormUrlEncoded

  const AuthorizeEndpoint := "https://login.dingtalk.com/oauth2/auth"

  /** The message both failing app-domain paths carry. */
  const AppTokenFailure := "Failed to get access token"

  /** `set_app_access_token` on the store: on a successful exchange the record
      is written under `appid`, replacing whatever was there, never to expire,
      and the caller gets the record's corp id; on any failure nothing is
      written. */
  function ExchangeAppToken(s: State<Value>, appid: string, ex: Exchange<AppAccessToken>): (r: Step<string>)
    ensures r.store.now == s.now
    ensures r.reply.Ok? <==> Receive(ex, AppTokenFailure).Ok?
    ensures r.reply.Err? ==> r.store == s && r.reply.error == Receive(ex, AppTokenFailure).error
    ensures r.reply.Ok? ==>
      var at := ex.body.value;
      && r.reply.value == at.corpId
      && (forall dt: nat :: Lookup(Elapse(r.store, dt), appid) == Some(Record(at)))
      && r.store.entries - {appid} == s.entries - {appid}
  {
    match Receive(ex, AppTokenFailure)
    case Err(e) => Step(s, Err(e))
    case Ok(at) => Step(Write(s, appid, Record(at)), Ok(at.corpId))
  }

  /** What `serde_json::from_str(..).unwrap()` needs: a value under `appid`
      that is present is an app record. */
  predicate AppRecordWellFormed(s: State<Value>, appid: string)
  {
    Lookup(s, appid).Some? ==> Lookup(s, appid).value.Record?
  }

  /** `get_app_access_token` on the store: the stored record's access token;
      when the key is absent or the GET failed (`unwrap_or(None)`), the error
      "Failed to get access token". It never issues. */
  function LookupAppToken(s: State<Value>, appid: string, lost: bool): (r: Result<string, Error>)
    requires lost || AppRecordWellFormed(s, appid)
    ensures r.Ok? <==> !lost && Lookup(s, appid).Some?
    ensures r.Ok? ==> r.value == Lookup(s, appid).value.record.accessToken
    ensures r.Err? ==> r.error == Missing(AppTokenFailure)
  {
    var cached := if lost then None else Lookup(s, appid);
    match cached
    case Some(v) => Ok(v.record.accessToken)
    case None => Err(Missing(AppTokenFailure))
  }

  /** The query of the authorization redirect: six pairs, in this order. */
  function RedirectQuery(appid: string, redirectUri: string, state: Option<string>): (q: seq<(string, string)>)
    ensures |q| == 6
    ensures q[0] == ("redirect_uri", redirectUri)
    ensures q[1] == ("response_type", "code")
    ensures q[2] == ("client_id", appid)
    ensures q[3] == ("scope", "openid corpid")
    ensures q[4] == ("state", if state.Some? then state.value else "")
    ensures q[5] == ("prompt", "consent")
  {
    [ ("redirect_uri", redirectUri),
      ("response_type", "code"),
      ("client_id", appid),
      ("scope", "openid corpid"),
      ("state", match state case Some(st) => st case None => ""),
      ("prompt", "consent") ]
  }

  /** A URL whose text is `base`, `?`, and a query that needs no escaping in
      a URL and parses back to exactly `pairs`, in order. */
  predicate QueryUrl(url: string, base: string, pairs: seq<(string, string)>)
  {
    && |url| > |base|
    && url[..|base| + 1] == base + "?"
    && FormUrlEncoded.Parse(url[|base| + 1..]) == FormUrlEncoded.Utf8Pairs(pairs)
    && FormUrlEncoded.QuerySafe(url[|base| + 1..])
  }

  /** `set_query(Some(&query))` on a URL without a query, `query` being the
      `Serializer`'s output for `pairs`: since the query is query-safe,
      `set_query` keeps it as it is after the `?`. */
  function WithQuery(base: string, pairs: seq<(string, string)>): (url: string)
    ensures QueryUrl(url, base, pairs)
  {
    FormUrlEncoded.ParseSerialize(pairs);
    FormUrlEncoded.SerializeIsQuerySafe(pairs);
    var query := FormUrlEncoded.Serialize(pairs);
    var url := base + "?" + query;
    assert url[|base| + 1..] == query;
    url
  }

  /** The crate's client: the app credentials and the shared store handle. */
  class DingTalk {
    const appid: string
    const appSecret: string
    const rdb: Store<Value>

    /** `DingTalk::new`, given the store handle the pool would provide. */
    constructor (appid: string, appSecret: string, rdb: Store<Value>)
      ensures this.appid == appid && this.appSecret == appSecret && this.rdb == rdb
    {
      this.appid := appid;
      this.appSecret := appSecret;
      this.rdb := rdb;
    }

    /** `get_redirect_url`: the authorization endpoint, `?`, and a query that
        parses back to the six redirect pairs in order and that `set_query`
        keeps as it is. */
    function GetRedirectUrl(redirectUri: string, state: Option<string>): (url: string)
      ensures QueryUrl(url, AuthorizeEndpoint, RedirectQuery(appid, redirectUri, state))
    {
      WithQuery(AuthorizeEndpoint, RedirectQuery(appid, redirectUri, state))
    }

    /** `set_app_access_token`: exchange the authorization code and SET the
        record under `appid`; answers the record's corp id. */
    method SetAppAccessToken(ex: Exchange<AppAccessToken>) returns (r: Result<string, Error>)
      modifies rdb
      ensures rdb.Snapshot() == ExchangeAppToken(old(rdb.Snapshot()), appid, ex).store
      ensures r == ExchangeAppToken(old(rdb.Snapshot()), appid, ex).reply
    {
      var received := Receive(ex, AppTokenFailure);
      if received.Err? {
        return Err(received.error);
      }
      var at := received.value;
      rdb.Set(appid, Record(at));
      return Ok(at.corpId);
    }

    /** `get_app_access_token`: GET `appid` and answer the record's access
        token, or the error when nothing is there. Writes nothing. */
    method GetAppAccessToken(lost: bool) returns (r: Result<string, Error>)
      requires lost || AppRecordWellFormed(rdb.Snapshot(), appid)
      ensures r == LookupAppToken(rdb.Snapshot(), appid, lost)
    {
      var reply := rdb.Get(appid, lost);
      var value := if reply.Ok? then reply.value else None;
      if value.Some? {
        return Ok(value.value.record.accessToken);
      }
      return Err(Missing(AppTokenFailure));
    }
  }
}
