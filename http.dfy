/** The authenticated transport of packages/app-store/http.ts: a one-slot
    token cache that reissues the credential lazily, 60 seconds before it
    expires, and the rule that turns a response into a payload or an
    `AppStoreRequestError`. The clock and the network are parameters. */
module Http {
  import opened Common
  import opened Text
  import opened Base64
  import opened Auth

  const BASE_URL: string := "https://api.appstoreconnect.apple.com/"
  const ORIGIN: string := "https://api.appstoreconnect.apple.com"

  /** Seconds before `exp` from which a cached token is no longer handed out. */
  const REISSUE_MARGIN: int := 60

  datatype TokenCache = TokenCache(token: string, exp: int)

  /** `parseJwtUnsafe(token)`: header and payload of the first two segments,
      with no format check; None where `Buffer.from`/`JSON.parse` would throw. */
  function ParseJwtUnsafe(c: Crypto, token: string): Option<(JsonObject, JsonObject)> {
    var parts := Split(token, '.');
    if |parts| < 2 then None
    else
      match (DecodeSegment(c, parts[0]), DecodeSegment(c, parts[1]))
      case (Some(h), Some(p)) => Some((h, p))
      case _ => None
  }

  /** `parseJwtUnsafe` reads what `decodeJwt` reads: on every token that
      `decodeJwt` accepts, the same header and payload. */
  lemma ParseAgreesWithDecode(c: Crypto, token: string)
    requires DecodeJwt(c, token).Ok?
    ensures ParseJwtUnsafe(c, token) == Some((DecodeJwt(c, token).value.header, DecodeJwt(c, token).value.payload))
  {
  }

  /** `typeof payload.exp === "number" ? payload.exp : now` */
  function CachedExp(payload: JsonObject, now: int): (exp: int)
    ensures "exp" in payload && payload["exp"].JNum? ==> exp == payload["exp"].n
    ensures !("exp" in payload && payload["exp"].JNum?) ==> exp == now
  {
    if "exp" in payload && payload["exp"].JNum? then payload["exp"].n else now
  }

  /** The cache test of `getToken`: a token is handed out again only while
      `exp - 60 > now`. */
  predicate Reusable(cache: Option<TokenCache>, now: int) {
    cache.Some? && cache.value.exp - REISSUE_MARGIN > now
  }

  /** The token `getToken` issues at `now`: no options, so the default
      lifetime of 600 seconds starting at `now`. */
  function Issue(c: Crypto, config: Config, now: int): string {
    CreateAppStoreJWT(c, config, JwtOptions(None, None), now)
  }

  /** A freshly issued token parses, and its payload's `exp` is now + 600. */
  lemma IssuedTokenParses(c: Crypto, config: Config, now: int)
    requires Sound(c)
    ensures var parsed := ParseJwtUnsafe(c, Issue(c, config, now));
            parsed.Some? && CachedExp(parsed.value.1, now) == now + DEFAULT_EXP_SECONDS
  {
    var options := JwtOptions(None, None);
    DecodeIssuedToken(c, config, options, now);
    var parts := Split(Issue(c, config, now), '.');
    assert WellFormedParts(parts);
    assert DecodeSegment(c, parts[1]) == Some(PayloadClaims(config.issuerId, IssuedExp(options, now)));
  }

  /** A token cached without a numeric `exp` (cached with exp = now) is never
      handed out again at that time or later. */
  lemma NonNumericExpNeverReused(token: string, payload: JsonObject, issuedAt: int, later: int)
    requires !("exp" in payload && payload["exp"].JNum?)
    requires later >= issuedAt
    ensures !Reusable(Some(TokenCache(token, CachedExp(payload, issuedAt))), later)
  {
  }

  /** With the default lifetime, a token issued at `t` is handed out again
      exactly while the clock is below t + 540. */
  lemma ReuseWindow(c: Crypto, config: Config, t: int, later: int)
    requires Sound(c)
    ensures var parsed := ParseJwtUnsafe(c, Issue(c, config, t));
            parsed.Some? &&
            (Reusable(Some(TokenCache(Issue(c, config, t), CachedExp(parsed.value.1, t))), later) <==> later < t + 540)
  {
    IssuedTokenParses(c, config, t);
  }

  datatype Verb = GET | POST | PATCH

  /** What `fetch` is given. */
  datatype OutgoingRequest = OutgoingRequest(verb: Verb, url: string, authorization: string, body: Option<string>)

  /** What `fetch` gives back, as far as `request` looks at it. */
  datatype HttpResponse = HttpResponse(status: nat, statusText: string, contentType: Option<string>, bodyText: string)

  /** `res.json()` (the text to be parsed; JSON parsing is foreign) or `res.text()`. */
  datatype Payload = JsonPayload(json: string) | TextPayload(text: string)

  /** `AppStoreRequestError(message, status, body)` */
  datatype RequestError = AppStoreRequestError(message: string, status: nat, body: Payload)

  /** `new URL(path, BASE_URL)` for the three shapes of path the model uses:
      absolute, root-relative and relative. */
  function ResolveUrl(path: string): (url: string)
    ensures StartsWith(url, "https://") || StartsWith(url, "http://")
  {
    if StartsWith(path, "https://") || StartsWith(path, "http://") then path
    else if StartsWith(path, "/") then
      assert (ORIGIN + path)[..8] == "https://";
      ORIGIN + path
    else
      assert (BASE_URL + path)[..8] == "https://";
      BASE_URL + path
  }

  predicate IsOk(status: nat) {
    200 <= status <= 299
  }

  /** The body `request` reads: parsed as JSON when the content type says so,
      as text otherwise. */
  function ReadPayload(res: HttpResponse): (p: Payload)
    ensures p.JsonPayload? <==> Contains(res.contentType.GetOr(""), "application/json")
  {
    if Contains(res.contentType.GetOr(""), "application/json") then JsonPayload(res.bodyText)
    else TextPayload(res.bodyText)
  }

  /** The rest of `request` once the response is in: a 2xx response gives
      its payload; any other raises `AppStoreRequestError` carrying the
      status and the payload. */
  function HandleResponse(res: HttpResponse): (r: Result<Payload, RequestError>)
    ensures r.Ok? <==> IsOk(res.status)
    ensures r.Ok? ==> r.value == ReadPayload(res)
    ensures r.Err? ==> r.error.status == res.status && r.error.body == ReadPayload(res)
    ensures r.Err? ==> StartsWith(r.error.message, "App Store request failed: ")
  {
    var payload := ReadPayload(res);
    if !IsOk(res.status) then
      var message := "App Store request failed: " + NatToString(res.status) + " " + res.statusText;
      assert message[..26] == "App Store request failed: ";
      Err(AppStoreRequestError(message, res.status, payload))
    else Ok(payload)
  }

  class AppStoreHttpClient {
    const config: Config
    const crypto: Crypto
    var tokenCache: Option<TokenCache>

    /** The foreign JSON and signing code behaves as `Sound` says. */
    ghost predicate Valid() {
      Sound(crypto)
    }

    constructor (config: Config, crypto: Crypto)
      requires Sound(crypto)
      ensures Valid()
      ensures this.config == config && this.crypto == crypto && tokenCache == None
    {
      this.config := config;
      this.crypto := crypto;
      tokenCache := None;
    }

    /** `getToken()` at clock reading `now` (seconds). */
    method GetToken(now: int) returns (token: string)
      requires Valid()
      modifies this
      ensures Reusable(old(tokenCache), now) ==> token == old(tokenCache).value.token && tokenCache == old(tokenCache)
      ensures !Reusable(old(tokenCache), now) ==>
                token == Issue(crypto, config, now) && tokenCache == Some(TokenCache(token, now + DEFAULT_EXP_SECONDS))
      ensures tokenCache.Some? && tokenCache.value.token == token
    {
      if tokenCache.Some? && tokenCache.value.exp - REISSUE_MARGIN > now {
        return tokenCache.value.token;
      }
      token := Issue(crypto, config, now);
      IssuedTokenParses(crypto, config, now);
      var parsed := ParseJwtUnsafe(crypto, token);
      var exp := CachedExp(parsed.value.1, now);
      tokenCache := Some(TokenCache(token, exp));
    }

    /** `request(path, {method, body})` at clock reading `now`, where `res`
        is what the server answers. */
    method Request(verb: Verb, path: string, body: Option<string>, now: int, res: HttpResponse)
      returns (sent: OutgoingRequest, r: Result<Payload, RequestError>)
      requires Valid()
      modifies this
      ensures tokenCache.Some? && sent.authorization == "Bearer " + tokenCache.value.token
      ensures Reusable(old(tokenCache), now) ==> tokenCache == old(tokenCache)
      ensures !Reusable(old(tokenCache), now) ==> tokenCache == Some(TokenCache(Issue(crypto, config, now), now + DEFAULT_EXP_SECONDS))
      ensures sent == OutgoingRequest(verb, ResolveUrl(path), sent.authorization, body)
      ensures r == HandleResponse(res)
    {
      var token := GetToken(now);
      sent := OutgoingRequest(verb, ResolveUrl(path), "Bearer " + token, body);
      r := HandleResponse(res);
    }
  }

  /** Two requests in a row: the second reuses the first one's token while the
      clock stays below issue time + 540 seconds. */
  method TwoRequests(client: AppStoreHttpClient, t: int, later: int, res: HttpResponse)
    returns (first: OutgoingRequest, second: OutgoingRequest)
    requires client.Valid() && client.tokenCache == None
    requires t <= later < t + 540
    modifies client
    ensures first.authorization == second.authorization
  {
    var r;
    first, r := client.Request(GET, "v1/apps", None, t, res);
    second, r := client.Request(GET, "v1/apps", None, later, res);
  }
}
