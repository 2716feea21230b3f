# DingTalk access-token cache, modelled in Dafny

This project models the access-token handling of the `dingtalk` Rust crate. Tokens are cached cache-aside in a Redis keyspace that all process instances share. The crate has two token domains:

- **Tenant (organization) domain.** `OrgApp::get_access_token` reads the store under the raw corp id and answers a hit as it is. On a miss it runs the client-credentials exchange. When that succeeds, it writes the token with `SETEX corp_id 7200 token` and returns it; when it fails, it returns the error and writes nothing. Every consumer method (`get_organization`, `get_user_id`, ...) first acquires the token and returns that error unchanged if acquisition fails.
- **Application domain.** `set_app_access_token` performs the authorization-code exchange. It stores the whole `{accessToken, refreshToken, corpId, expireIn}` record under the raw app id with plain `SET` (no expiry) and returns the record's `corpId`. `get_app_access_token` is a read-only lookup of that record's `accessToken`.
- **Redirect URL.** `get_redirect_url` builds the authorization URL from six ordered query pairs. The pairs are serialized as `application/x-www-form-urlencoded` by the `url` crate, following section 5.2 of the WHATWG URL Standard.

Modules, one file each:

- `Redis` (`redis.dfy`): the keyspace as a map `key -> (value, optional expiry instant)` plus a clock, with lazy expiry. Pure functions `Lookup`, `Write` (SET) and `WriteEx` (SETEX) specify the class `Store`, and `Elapse` moves the clock. The methods `Get`, `Set` and `SetEx` work on the fields `entries` and `now`; `Set` and `SetEx` update `entries` in place.
- `Tokens` (`tokens.dfy`): the two token records, the stored value, the error kinds, and the result of one operation (`Step`: the new store and the reply).
- `Issuer` (`issuer.dfy`): the remote exchange as a nondeterministic outcome. There is either no response (a transport error) or a status with a body that may not decode. `Receive` turns the outcome into the crate's result.
- `Core` (`core.rs`'s part): `ExchangeAppToken`, `LookupAppToken`, the redirect query, and the class `DingTalk`.
- `Organization` (`organization.rs`'s part): `Acquire`, the consumer prefix `Authorized`, the class `OrgApp`, and `SetCorpId`.
- `FormUrlEncoded`: UTF-8 encoding, the byte serializer, the `Serializer`'s `&`-joining, and the section 5.1 parser as its partner. The round trip is `Parse(Serialize(ps)) == Utf8Pairs(ps)`. A second lemma shows the result contains no character that `Url::set_query` would re-encode.
- `Sessions`: properties across several calls.
  - The 7200-second hit window, and reissuance after it.
  - The app record's round trip.
  - The key-namespace collision in both directions.
  - A session model (`Run` over calls and waits). For sessions that start with nothing live under the corp id, it proves three things: every token served was issued less than 7200 seconds before it was served; the stored entry always tracks the last successful issuance; and while the store is reachable, successful issuances are at least 7200 seconds apart. A failed exchange writes nothing, so the next call asks the issuer again.

How the external world is represented:

- A call's environment becomes parameters. `lost: bool` is the fate of the GET, which the source reads as "absent" through `unwrap_or(None)`. `ex: Exchange<T>` is the fate of the HTTP exchange.
- The clock is `State.now`, and `Elapse` moves it.

Two points of the code's behaviour:

- The TTL is the literal 7200, whatever `expires_in` the issuer declares.
- Both domains use the raw identifier as the key, so an app id equal to a corp id collides. `Sessions.AppRecordShadowsTenantToken` and `Sessions.TenantTokenReplacesAppRecord` state what then happens.

## Model

| member | source | states |
|---|---|---|
| Redis.Write | src/core.rs:94-99 | SET: the key shows the new value at every later instant, whatever was there before; every other key keeps what it shows at every instant; the clock does not move |
| Redis.WriteEx | src/organization.rs:202-208 | SETEX: the key shows the new value for exactly `ttl` seconds and nothing afterwards; every other key is untouched; the clock does not move |
| Redis.LookupAfterElapse | src/organization.rs:165-169 | lazy expiry only hides values: whatever a GET sees later, it saw before |
| Redis.Store.constructor | src/lib.rs:25-32 | a handle on the shared server: it shows exactly the server's current keyspace and clock, whatever other instances wrote |
| Redis.Store.Get | src/organization.rs:165-169 | GET: a lost connection gives `ConnectionLost`; otherwise the live value under the key, or none; nothing changes |
| Redis.Store.Set | src/core.rs:94-99 | the new state is `Write` of the old one |
| Redis.Store.SetEx | src/organization.rs:202-208 | the new state is `WriteEx` of the old one |
| Issuer.Receive | src/organization.rs:180-198 | the reply is the decoded body exactly when there was a response with a 2xx status and a decodable body; no response gives the transport error, a non-success status gives the "Failed to get ...: status" error, an undecodable 2xx body gives the decode error |
| Tokens.Json | src/core.rs:96 | `serde_json::to_string` of the record: a JSON object that starts with the `accessToken` member and is strictly longer than the access token |
| Tokens.Text | src/organization.rs:171-172 | the tenant domain answers a stored string as it is; a stored app record (a collided key) comes back as its JSON text, which is strictly longer than its access token |
| Core.ExchangeAppToken | src/core.rs:58-102 | succeeds exactly when the exchange does; on failure the store is unchanged and the error is the exchange's; on success the reply is the record's corp id (not the token) and the app id maps to the whole record at every later instant, with every other key unchanged |
| Core.DingTalk.SetAppAccessToken | src/core.rs:58-102 | the new store and the reply are those of `ExchangeAppToken` |
| Core.LookupAppToken | src/core.rs:111-136 | succeeds exactly when the GET reaches the store and finds a live value; the reply is then the stored record's access token; otherwise it is "Failed to get access token"; it has no issuer input |
| Core.DingTalk.GetAppAccessToken | src/core.rs:111-136 | the reply is `LookupAppToken` of the current store; the method modifies nothing |
| Core.RedirectQuery | src/core.rs:24-31 | exactly six pairs in the order redirect_uri, response_type=code, client_id=appid, scope="openid corpid", state (`""` when absent), prompt=consent |
| Core.WithQuery | src/core.rs:24-33 | the URL starts with the base and `?`; what follows parses back to the pairs, in order, as UTF-8 bytes, and holds no character that `set_query` re-encodes |
| Core.DingTalk.GetRedirectUrl | src/core.rs:21-36 | the URL starts with the authorization endpoint and `?`; what follows parses back to exactly the six redirect pairs, in order, and is left as it is by `set_query` |
| Core.DingTalk.constructor | src/lib.rs:24-40 | the client holds the given app id, secret and store handle |
| FormUrlEncoded.Utf8 | src/core.rs:24-31 | a character's UTF-8 form has 1 to 4 bytes; ASCII is one byte of the same value; every byte of a non-ASCII character is at least 0x80 |
| FormUrlEncoded.Encode | src/core.rs:24-31 | `byte_serialize` of a string's UTF-8 bytes: percent-decoding gives back those bytes, and the output holds only ASCII letters and digits, `*-._`, `+` and `%` |
| FormUrlEncoded.AppendPair | src/core.rs:25-30 | `append_pair` keeps what was written, adds `&` unless nothing was written yet, then ends with `name=value`, both byte-serialized |
| FormUrlEncoded.Serialize | src/core.rs:24-31 | `Serializer::new(String::new())`, one `append_pair` per pair in order, then `finish()`: the result is empty exactly when there are no pairs |
| FormUrlEncoded.DecodeEncodeBytes | src/core.rs:24-31 | percent-decoding undoes the byte serializer's output |
| FormUrlEncoded.EncodeBytesEmits | src/core.rs:24-31 | the byte serializer writes only ASCII letters and digits, `*-._`, `+` and `%` |
| FormUrlEncoded.ParseSerialize | src/core.rs:24-31 | parsing the serialized pairs (split on `&`, split at the first `=`, `+` to space, percent-decode) gives back every pair, in order, as UTF-8 bytes |
| FormUrlEncoded.SerializeIsQuerySafe | src/core.rs:33 | the serialized text holds no character of the special-query percent-encode set, so `set_query` keeps it as it is |
| Organization.Acquire | src/organization.rs:156-211 | a hit (GET reached the store and found a live value) answers the stored string and leaves the store unchanged whatever the issuer would say; a miss (lost GET or no live value) with a failing exchange answers its error and leaves every key unchanged; a miss with a successful exchange answers the issued token, stores exactly that token under the corp id with expiry now + 7200 (ignoring `expires_in`), visible for exactly 7200 seconds, every other key unchanged |
| Organization.OrgApp.GetAccessToken | src/organization.rs:156-211 | the new store and the reply are those of `Acquire` |
| Organization.CarrierOf | src/organization.rs:228-238 | the token goes in the `x-acs-dingtalk-access-token` header exactly for `get_organization` and `query_off_job_employees`; every other consumer puts it in the `access_token` query parameter |
| Organization.Authorized | src/organization.rs:228-238 | a consumer's store effect is that of acquiring the token; if acquisition fails, it returns that error unchanged and forms no request; otherwise the request carries the acquired token in the endpoint's carrier |
| Organization.OrgApp.Authorize | src/organization.rs:274-278 | the new store and the reply are those of `Authorized` |
| Organization.OrgApp.constructor | src/organization.rs:146-154 | the app holds exactly the given app id, secret, corp id and store handle |
| Organization.SetCorpId | src/organization.rs:52-59 | a fresh `OrgApp` with the client's app id, secret and store handle and the given corp id; no store is touched |
| Sessions.HitWithinTtl | src/organization.rs:171-210 | within 7200 seconds of an issuance, a reachable call answers the same token, leaves the store unchanged and does not depend on the issuer |
| Sessions.ReissueAfterTtl | src/organization.rs:202-205 | 7200 seconds after an issuance, the next call misses, answers the new token, and the entry is replaced with the new token and an expiry counted from the new instant |
| Sessions.LostReadReissues | src/organization.rs:165-169 | a failed GET counts as a miss even while a token is live: the issuer's new token is answered and replaces the live one |
| Sessions.AppRecordRoundTrip | src/core.rs:91-132 | after `set_app_access_token` stores a record, `get_app_access_token` answers that record's access token at every later instant (unless the GET fails), and the stored value is well formed for `from_str` |
| Sessions.AppRecordShadowsTenantToken | src/organization.rs:165-172 | with a corp id equal to the app id, the tenant domain takes the app record for a hit, never asks the issuer, and answers the record's JSON text, which differs from its access token |
| Sessions.TenantTokenReplacesAppRecord | src/organization.rs:202-208 | with a corp id equal to the app id, a tenant issuance replaces the app record: for exactly 7200 seconds the stored value is not an app record (`from_str` would panic), and afterwards the app lookup reports the key missing |
| Sessions.Run | src/organization.rs:156-211 | a session of calls and waits serves at most one reply per event and never moves the clock back |
| Sessions.RunTracks | src/organization.rs:164-210 | in a session that starts with nothing live under the corp id, whatever is live is the last issued token, stored with expiry (issuance instant + 7200), and that instant is not in the future |
| Sessions.ServedTokensAreFresh | src/organization.rs:164-210 | in such a session, every token served was issued by the exchange, at or before the instant it was served and less than 7200 seconds before it |
| Sessions.ReachableSessionSpacesIssuance | src/organization.rs:164-210 | in such a session in which every GET reaches the store, any two issuances are at least 7200 seconds apart |

## Left out

- HTTP traffic (reqwest): URLs, the form parameters, headers, and the consumers' requests after the token. An exchange is only its outcome: no response, a status, and a body that decodes or does not.
- The `code` argument of `set_app_access_token`: it only goes into the request body.
- The JSON payload structs of the consumers (`Organization`, `UserGetByCodeResponse`, `EmployeeUser`, `PageResult`, `UserInfo`, ...): library-driven field mapping with no logic.
- serde_json on the app record: `SET` then `GET` of a record is treated as an identity round trip, so the store keeps the record value itself. Tenant-domain reads render a record as its compact JSON text, only to give the key-collision case a concrete answer.
- Core.LookupAppToken: requires that a live value under the app id be an app record (or that the GET fail). The source's `from_str(..).unwrap()` panics otherwise, and a panic is not modelled. `Sessions.TenantTokenReplacesAppRecord` shows how a collided key breaks this. A tenant token that happens to be valid JSON for the record would parse in the source; the model does not parse text.
- The remaining `unwrap` panics: pool acquisition, SET, SETEX, and `HeaderValue::from_str` on the token. The model assumes the store always accepts writes. It keeps the GET failure, which the source tolerates.
- Redis.WriteEx: requires a positive TTL, as Redis does; the crate only ever passes 7200.
- `src/lib.rs`: building the Redis pool from `REDIS_URL`, the HTTP client, and the environment. Constructors take the store handle as given.
- `src/contact.rs` (`get_contact_userinfo`): a thin consumer of the app token plus one HTTP GET.
- `get_userinfo` calls `get_user_id` and, after that call's HTTP round trip, acquires the token again. Only the shared prefix (`Organization.Authorized` for `GetUserId`) is modelled.
- Concurrency: async, pooling, and the cache stampede between concurrent callers. The model is one sequential call at a time.
- Logging (`info!`, `warn!`, `error!`).
- `Url::parse` of the fixed endpoint and the URL's own serialization: the URL is the endpoint, `?` and the query. `set_query` is modelled only through `FormUrlEncoded.SerializeIsQuerySafe`, which shows that the query is not re-encoded.
- FormUrlEncoded.ParseSerialize: the parser stops at bytes. Section 5.1's final UTF-8 decode without BOM is not modelled, so the round trip is stated against the UTF-8 bytes of the pairs.
- Strings are Dafny `char` sequences. Dafny chars, like Rust chars, are Unicode scalar values, so `FormUrlEncoded.Utf8` covers exactly the characters whose bytes `str::as_bytes` gives.
