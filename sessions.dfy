/**
 * What the two token domains promise across several calls on one store:
 * the cache window of the tenant token, the app record's round trip, the
 * shared key namespace, and, over any sequence of calls and waits, which
 * tokens the tenant domain hands out and how often it asks the issuer.
 */
module Sessions {
  import opened Wrappers
  import opened Redis
  import opened Tokens
  import opened Issuer
  import opened Organization
  import Core

  /** Within `TokenTtl` seconds of an issuance the next reachable call is a
      hit: it answers the same token, leaves the store as it is, and does so
      whatever the issuer would now say. */
  lemma HitWithinTtl(s: State<Value>, corpId: string, lost: bool, ex: Exchange<OrgAccessToken>,
                     dt: nat, ex2: Exchange<OrgAccessToken>)
    requires Misses(s, corpId, lost) && Receive(ex, OrgTokenFailure).Ok?
    requires dt < TokenTtl
    ensures var later := Elapse(Acquire(s, corpId, lost, ex).store, dt);
      Acquire(later, corpId, false, ex2) == Step(later, Ok(ex.body.value.accessToken))
  {
    var later := Elapse(Acquire(s, corpId, lost, ex).store, dt);
    assert Lookup(later, corpId) == Some(Plain(ex.body.value.accessToken));
  }

  /** Once `TokenTtl` seconds have passed the entry is gone: the next call
      goes to the issuer, and a successful issuance replaces the entry in
      full, with an expiry counted from the new instant. */
  lemma ReissueAfterTtl(s: State<Value>, corpId: string, lost: bool, ex: Exchange<OrgAccessToken>,
                        dt: nat, lost2: bool, ex2: Exchange<OrgAccessToken>)
    requires Misses(s, corpId, lost) && Receive(ex, OrgTokenFailure).Ok?
    requires dt >= TokenTtl
    requires Receive(ex2, OrgTokenFailure).Ok?
    ensures var later := Elapse(Acquire(s, corpId, lost, ex).store, dt);
      var next := Acquire(later, corpId, lost2, ex2);
      && Misses(later, corpId, lost2)
      && next.reply == Ok(ex2.body.value.accessToken)
      && next.store.entries[corpId] == Entry(Plain(ex2.body.value.accessToken), Some(later.now + TokenTtl))
  {
    var later := Elapse(Acquire(s, corpId, lost, ex).store, dt);
    assert Lookup(later, corpId) == None;
  }

  /** A failed GET is a miss even while a token is live: the issuer is asked
      again and its token replaces the live one. */
  lemma LostReadReissues(s: State<Value>, corpId: string, ex: Exchange<OrgAccessToken>)
    requires Lookup(s, corpId).Some?
    requires Receive(ex, OrgTokenFailure).Ok?
    ensures Acquire(s, corpId, true, ex).reply == Ok(ex.body.value.accessToken)
    ensures Lookup(Acquire(s, corpId, true, ex).store, corpId) == Some(Plain(ex.body.value.accessToken))
  {
    assert Misses(s, corpId, true);
    assert Lookup(Elapse(Acquire(s, corpId, true, ex).store, 0), corpId) == Some(Plain(ex.body.value.accessToken));
  }

  /** The app record's round trip: once `set_app_access_token` has stored a
      record, `get_app_access_token` answers that record's access token at
      any later instant, unless its GET fails. */
  lemma AppRecordRoundTrip(s: State<Value>, appid: string, ex: Exchange<AppAccessToken>, dt: nat, lost: bool)
    requires Receive(ex, Core.AppTokenFailure).Ok?
    ensures var later := Elapse(Core.ExchangeAppToken(s, appid, ex).store, dt);
      && Core.AppRecordWellFormed(later, appid)
      && Core.LookupAppToken(later, appid, lost) ==
           if lost then Err(Missing(Core.AppTokenFailure)) else Ok(ex.body.value.accessToken)
  {
    var later := Elapse(Core.ExchangeAppToken(s, appid, ex).store, dt);
    assert Lookup(later, appid) == Some(Record(ex.body.value));
  }

  /** Both domains key the store by the raw identifier. When a corp id equals
      the app id, the app record shadows the tenant token: the tenant domain
      takes the record for a hit, never asks the issuer, and answers the
      record's JSON text rather than an access token. */
  lemma AppRecordShadowsTenantToken(s: State<Value>, key: string, ex: Exchange<AppAccessToken>,
                                    dt: nat, ex2: Exchange<OrgAccessToken>)
    requires Receive(ex, Core.AppTokenFailure).Ok?
    ensures var later := Elapse(Core.ExchangeAppToken(s, key, ex).store, dt);
      && Acquire(later, key, false, ex2) == Step(later, Ok(Json(ex.body.value)))
      && Json(ex.body.value) != ex.body.value.accessToken
  {
    var later := Elapse(Core.ExchangeAppToken(s, key, ex).store, dt);
    assert Lookup(later, key) == Some(Record(ex.body.value));
    assert Text(Record(ex.body.value)) == Json(ex.body.value);
  }

  /** The other direction of the collision: a tenant token issued under the
      app id replaces the app record, so for the token's lifetime the stored
      value is not an app record (the source's `from_str(..).unwrap()` would
      panic), and afterwards the app lookup finds nothing. */
  lemma TenantTokenReplacesAppRecord(s: State<Value>, key: string, lost: bool, ex: Exchange<OrgAccessToken>, dt: nat)
    requires Misses(s, key, lost) && Receive(ex, OrgTokenFailure).Ok?
    ensures var later := Elapse(Acquire(s, key, lost, ex).store, dt);
      && (dt < TokenTtl <==> !Core.AppRecordWellFormed(later, key))
      && (dt >= TokenTtl ==> Core.LookupAppToken(later, key, false) == Err(Missing(Core.AppTokenFailure)))
  {
    var later := Elapse(Acquire(s, key, lost, ex).store, dt);
    assert Lookup(later, key) == if dt < TokenTtl then Some(Plain(ex.body.value.accessToken)) else None;
  }

  /** One step of a session: a call to `get_access_token` with the fate of
      its GET and of the exchange, or the clock moving on. */
  datatype Event = Call(lost: bool, ex: Exchange<OrgAccessToken>) | Wait(dt: nat)

  /** A reply handed to a caller, and the instant it was handed out. */
  datatype Served = Served(reply: Result<string, Error>, at: int)

  /** The store after a session, the tokens the issuer handed out with the
      instant of each, and the replies served, both in order. */
  datatype Trace = Trace(store: State<Value>, issued: seq<(string, int)>, served: seq<Served>)

  /** A call that asks the issuer and gets a token. */
  predicate Issues(s: State<Value>, corpId: string, lost: bool, ex: Exchange<OrgAccessToken>)
  {
    Misses(s, corpId, lost) && Receive(ex, OrgTokenFailure).Ok?
  }

  /** A session of one `OrgApp` against the store, its events in order. */
  function Run(s: State<Value>, corpId: string, events: seq<Event>): (t: Trace)
    ensures |t.served| <= |events|
    ensures t.store.now >= s.now
    decreases |events|
  {
    if events == [] then Trace(s, [], [])
    else
      var t := Run(s, corpId, events[..|events| - 1]);
      match events[|events| - 1]
      case Wait(dt) => Trace(Elapse(t.store, dt), t.issued, t.served)
      case Call(lost, ex) =>
        var step := Acquire(t.store, corpId, lost, ex);
        var issued := if Issues(t.store, corpId, lost, ex)
          then t.issued + [(ex.body.value.accessToken, t.store.now)] else t.issued;
        Trace(step.store, issued, t.served + [Served(step.reply, t.store.now)])
  }

  /** The session invariant: whatever is live under the corp id is the last
      token issued, stored with the expiry its issuance gave it. */
  predicate Tracks(t: Trace, corpId: string)
  {
    if t.issued == [] then Lookup(t.store, corpId).None?
    else
      var last := t.issued[|t.issued| - 1];
      && last.1 <= t.store.now
      && corpId in t.store.entries
      && t.store.entries[corpId] == Entry(Plain(last.0), Some(last.1 + TokenTtl))
  }

  /** Every session that starts with nothing live under the corp id keeps
      `Tracks`. */
  lemma {:induction false} RunTracks(s: State<Value>, corpId: string, events: seq<Event>)
    requires Lookup(s, corpId).None?
    ensures Tracks(Run(s, corpId, events), corpId)
    decreases |events|
  {
    if events != [] {
      var n := |events| - 1;
      var t := Run(s, corpId, events[..n]);
      RunTracks(s, corpId, events[..n]);
      match events[n]
      case Wait(dt) =>
        LookupAfterElapse(t.store, corpId, dt);
      case Call(lost, ex) =>
        if Issues(t.store, corpId, lost, ex) {
          var step := Acquire(t.store, corpId, lost, ex);
          assert step.store.entries[corpId] == Entry(Plain(ex.body.value.accessToken), Some(t.store.now + TokenTtl));
        }
    }
  }

  /** Every token served was handed out by the issuer, at or before the
      instant it was served and less than `TokenTtl` seconds before it. */
  predicate FreshlyServed(t: Trace)
  {
    forall i :: 0 <= i < |t.served| && t.served[i].reply.Ok? ==>
      exists j :: 0 <= j < |t.issued| && t.issued[j].0 == t.served[i].reply.value
        && t.issued[j].1 <= t.served[i].at < t.issued[j].1 + TokenTtl
  }

  lemma {:induction false} ServedTokensAreFresh(s: State<Value>, corpId: string, events: seq<Event>)
    requires Lookup(s, corpId).None?
    ensures FreshlyServed(Run(s, corpId, events))
    decreases |events|
  {
    if events != [] {
      var n := |events| - 1;
      var t := Run(s, corpId, events[..n]);
      ServedTokensAreFresh(s, corpId, events[..n]);
      RunTracks(s, corpId, events[..n]);
      match events[n]
      case Wait(dt) =>
      case Call(lost, ex) =>
        var r := Run(s, corpId, events);
        var step := Acquire(t.store, corpId, lost, ex);
        assert r.served == t.served + [Served(step.reply, t.store.now)];
        assert forall j :: 0 <= j < |t.issued| ==> r.issued[j] == t.issued[j];
        if step.reply.Ok? {
          var k := |r.issued| - 1;
          if Issues(t.store, corpId, lost, ex) {
            assert r.issued[k] == (step.reply.value, t.store.now);
          } else {
            assert Lookup(t.store, corpId) == Some(Plain(step.reply.value));
            assert r.issued[k] == t.issued[k];
          }
          assert r.served[|t.served|] == Served(step.reply, t.store.now);
          assert r.issued[k].0 == step.reply.value;
        }
    }
  }

  /** A session in which every GET reaches the store. */
  predicate Reachable(events: seq<Event>)
  {
    forall k :: 0 <= k < |events| && events[k].Call? ==> !events[k].lost
  }

  /** Issuances at least `TokenTtl` seconds apart. */
  predicate Spaced(issued: seq<(string, int)>)
  {
    forall i, j :: 0 <= i < j < |issued| ==> issued[i].1 + TokenTtl <= issued[j].1
  }

  /** While the store answers every GET, the issuer is asked for a new token
      only once the previous one has expired: at most one issuance per
      `TokenTtl` window. */
  lemma {:induction false} ReachableSessionSpacesIssuance(s: State<Value>, corpId: string, events: seq<Event>)
    requires Lookup(s, corpId).None?
    requires Reachable(events)
    ensures Spaced(Run(s, corpId, events).issued)
    decreases |events|
  {
    if events != [] {
      var n := |events| - 1;
      var t := Run(s, corpId, events[..n]);
      assert Reachable(events[..n]) by {
        forall k | 0 <= k < n && events[..n][k].Call?
          ensures !events[..n][k].lost
        {
          assert events[..n][k] == events[k];
        }
      }
      ReachableSessionSpacesIssuance(s, corpId, events[..n]);
      RunTracks(s, corpId, events[..n]);
      match events[n]
      case Wait(dt) =>
      case Call(lost, ex) =>
        if Issues(t.store, corpId, lost, ex) && t.issued != [] {
          var m := |t.issued| - 1;
          assert !lost;
          assert t.issued[m].1 + TokenTtl <= t.store.now;
          var r := Run(s, corpId, events);
          assert r.issued == t.issued + [(ex.body.value.accessToken, t.store.now)];
        }
    }
  }
}
