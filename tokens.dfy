/**
 * The credential records the two domains obtain and store, the values they
 * put under a Redis key, and the errors token acquisition reports.
 */
module Tokens {
  import opened Wrappers
  import Redis

  /** Rust's `i32`, the type serde decodes the lifetime fields into. */
  newtype i32 = x: int | -0x8000_0000 <= x < 0x8000_0000

  /** The authorization-code exchange's answer, stored whole by the app domain:
      serde names `accessToken`, `refreshToken`, `corpId`, `expireIn`. */
  datatype AppAccessToken = AppAccessToken(accessToken: string, refreshToken: string, corpId: string, expireIn: i32)

  /** The client-credentials exchange's answer: `access_token`, `expires_in`. */
  datatype OrgAccessToken = OrgAccessToken(accessToken: string, expireIn: i32)

  /** A Redis string as the crate writes it: a bare token (tenant domain,
      SETEX) or the JSON text of an app record (app domain, SET). The app
      record is kept as the record itself, so that decoding what was encoded
      is the identity. */
  datatype Value = Plain(text: string) | Record(record: AppAccessToken)

  /** What the crate can see of a failed acquisition. */
  datatype Error =
    | Transport                                   // the HTTP request could not be sent or read
    | Rejected(context: string, status: nat)      // a non-success status: "<context>: <status>"
    | Malformed                                   // the success body did not decode
    | Missing(message: string)                    // nothing cached and no exchange allowed

  /** What one operation on the shared store does: the new keyspace and what
      the caller is answered. */
  datatype Step<T> = Step(store: Redis.State<Value>, reply: Result<T, Error>)

  /** The string a GET of the value returns. A bare token is itself; an app
      record reads as its JSON text, strictly longer than its own token. */
  function Text(v: Value): (t: string)
    ensures v.Plain? ==> t == v.text
    ensures v.Record? ==> |t| > |v.record.accessToken|
  {
    match v
    case Plain(s) => s
    case Record(r) => Json(r)
  }

  /** `serde_json::to_string` of an app record: compact, fields in declaration
      order under their serde names. The text is one JSON object whose first
      member is the access token, so it is strictly longer than the token. */
  function Json(r: AppAccessToken): (t: string)
    ensures |t| > 15 + |r.accessToken|
    ensures t[..15] == "{\"accessToken\":" && t[|t| - 1] == '}'
  {
    EscapedNotShorter(r.accessToken);
    "{\"accessToken\":" + JsonString(r.accessToken)
      + ",\"refreshToken\":" + JsonString(r.refreshToken)
      + ",\"corpId\":" + JsonString(r.corpId)
      + ",\"expireIn\":" + IntText(r.expireIn as int) + "}"
  }

  /** A JSON string literal. */
  function JsonString(s: string): string
  {
    "\"" + Escaped(s) + "\""
  }

  function Escaped(s: string): string
  {
    if s == [] then "" else EscapeChar(s[0]) + Escaped(s[1..])
  }

  const LowerHex := "0123456789abcdef"

  /** serde_json's escape table: quote, backslash, the five short escapes,
      and `\u00XX` with lower-case hex for the other control characters. */
  function EscapeChar(c: char): (r: string)
    ensures |r| >= 1
  {
    if c == '"' then "\\\""
    else if c == '\\' then "\\\\"
    else if c == '\U{0008}' then "\\b"
    else if c == '\U{000C}' then "\\f"
    else if c == '\n' then "\\n"
    else if c == '\r' then "\\r"
    else if c == '\t' then "\\t"
    else if (c as int) < 0x20 then "\\u00" + [LowerHex[(c as int) / 16], LowerHex[(c as int) % 16]]
    else [c]
  }

  /** Escaping never shortens a string. */
  lemma {:induction false} EscapedNotShorter(s: string)
    ensures |Escaped(s)| >= |s|
  {
    if s != [] {
      EscapedNotShorter(s[1..]);
    }
  }

  /** Decimal digits of a natural number, most significant first. */
  function NatText(n: nat): (r: string)
    ensures |r| >= 1
  {
    if n < 10 then ["0123456789"[n]] else NatText(n / 10) + ["0123456789"[n % 10]]
  }

  function IntText(x: int): string
  {
    if x < 0 then "-" + NatText(-x) else NatText(x)
  }
}
