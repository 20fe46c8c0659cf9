/** The App Store Connect credential: a JSON Web Token (RFC 7519) in JWS
    compact serialisation (RFC 7515 section 7.1), signed with ES256 (RFC 7518
    section 3.4), as packages/app-store/auth.ts builds and decodes it.

    JSON serialisation, UTF-8 encoding and ECDSA signing are foreign code here:
    they are the function-valued fields of a `Crypto` record, and `Sound`
    states the only things the model assumes of them. */
module Auth {
  import opened Common
  import opened Text
  import opened Base64

  const AUDIENCE: string := "appstoreconnect-v1"
  const MAX_EXP_SECONDS: int := 60 * 20
  const DEFAULT_EXP_SECONDS: int := 60 * 10

  datatype Config = Config(issuerId: string, keyId: string, privateKey: string)

  /** `{now?, expirationSeconds?}`; `now` is in seconds. */
  datatype JwtOptions = JwtOptions(now: Option<int>, expirationSeconds: Option<int>)

  /** The JSON values that occur in the token's header and payload. */
  datatype Json = JStr(s: string) | JNum(n: int) | JOther
  type JsonObject = map<string, Json>

  /** stringify: `JSON.stringify` followed by UTF-8 encoding (`Buffer.from`);
      parse: UTF-8 decoding followed by `JSON.parse`, None where it throws;
      sign: `createSign("SHA256")` over the input with the private key. */
  datatype Crypto = Crypto(
    stringify: JsonObject -> seq<Byte>,
    parse: seq<Byte> -> Option<JsonObject>,
    sign: (string, string) -> seq<Byte>)

  /** What the model assumes of the foreign code: parsing undoes serialising,
      a serialised object is never empty (it is at least "{}"), and a
      signature is never empty. */
  ghost predicate Sound(c: Crypto) {
    && (forall o :: c.parse(c.stringify(o)) == Some(o))
    && (forall o :: |c.stringify(o)| > 0)
    && (forall input, key :: |c.sign(input, key)| > 0)
  }

  /** `Math.min(expirationSeconds ?? 600, 1200)` */
  function ExpirationSeconds(requested: Option<int>): (e: int)
    ensures e <= MAX_EXP_SECONDS
    ensures requested.None? ==> e == DEFAULT_EXP_SECONDS
    ensures requested.Some? && requested.value <= MAX_EXP_SECONDS ==> e == requested.value
    ensures requested.Some? && requested.value >= MAX_EXP_SECONDS ==> e == MAX_EXP_SECONDS
  {
    var want := requested.GetOr(DEFAULT_EXP_SECONDS);
    if want < MAX_EXP_SECONDS then want else MAX_EXP_SECONDS
  }

  function HeaderClaims(keyId: string): JsonObject {
    map["alg" := JStr("ES256"), "kid" := JStr(keyId), "typ" := JStr("JWT")]
  }

  function PayloadClaims(issuerId: string, exp: int): JsonObject {
    map["iss" := JStr(issuerId), "aud" := JStr(AUDIENCE), "exp" := JNum(exp)]
  }

  /** The `exp` claim of a token issued with `options` when the clock reads
      `clock` seconds. */
  function IssuedExp(options: JwtOptions, clock: int): int {
    options.now.GetOr(clock) + ExpirationSeconds(options.expirationSeconds)
  }

  /** `${encodedHeader}.${encodedPayload}`: the bytes the signature covers. */
  function SigningInput(c: Crypto, config: Config, options: JwtOptions, clock: int): string {
    Base64Url(c.stringify(HeaderClaims(config.keyId))) + "."
      + Base64Url(c.stringify(PayloadClaims(config.issuerId, IssuedExp(options, clock))))
  }

  /** `createAppStoreJWT(config, options)` */
  function CreateAppStoreJWT(c: Crypto, config: Config, options: JwtOptions, clock: int): string {
    var input := SigningInput(c, config, options, clock);
    input + "." + Base64Url(c.sign(input, config.privateKey))
  }

  datatype Decoded = Decoded(header: JsonObject, payload: JsonObject, signature: string)

  datatype JwtError =
    | InvalidJwtFormat   // "Invalid JWT format"
    | MalformedSegment   // JSON.parse throws on a decoded segment

  /** `JSON.parse(Buffer.from(segment, "base64url").toString("utf-8"))` */
  function DecodeSegment(c: Crypto, segment: string): Option<JsonObject> {
    match UrlDecode(segment)
    case None => None
    case Some(bytes) => c.parse(bytes)
  }

  predicate WellFormedParts(parts: seq<string>) {
    |parts| >= 3 && parts[0] != "" && parts[1] != "" && parts[2] != ""
  }

  /** `decodeJwt(token)`: the first three dot-separated segments must be
      present and non-empty; further segments are ignored. */
  function DecodeJwt(c: Crypto, token: string): (r: Result<Decoded, JwtError>)
    ensures r == Err(InvalidJwtFormat) <==> !WellFormedParts(Split(token, '.'))
    ensures r.Ok? ==> r.value.signature == Split(token, '.')[2]
  {
    var parts := Split(token, '.');
    if !WellFormedParts(parts) then Err(InvalidJwtFormat)
    else
      match (DecodeSegment(c, parts[0]), DecodeSegment(c, parts[1]))
      case (Some(h), Some(p)) => Ok(Decoded(h, p, parts[2]))
      case _ => Err(MalformedSegment)
  }

  /** An issued token is three dot-separated segments: the encoded header, the
      encoded payload, and the encoded signature of exactly the first two
      joined by '.'. */
  lemma IssuedTokenSegments(c: Crypto, config: Config, options: JwtOptions, clock: int)
    ensures var h := Base64Url(c.stringify(HeaderClaims(config.keyId)));
            var p := Base64Url(c.stringify(PayloadClaims(config.issuerId, IssuedExp(options, clock))));
            var parts := Split(CreateAppStoreJWT(c, config, options, clock), '.');
            && parts == [h, p, Base64Url(c.sign(h + "." + p, config.privateKey))]
            && parts[0] + "." + parts[1] == SigningInput(c, config, options, clock)
  {
    var h := Base64Url(c.stringify(HeaderClaims(config.keyId)));
    var p := Base64Url(c.stringify(PayloadClaims(config.issuerId, IssuedExp(options, clock))));
    var s := Base64Url(c.sign(h + "." + p, config.privateKey));
    Base64UrlProperties(c.stringify(HeaderClaims(config.keyId)));
    Base64UrlProperties(c.stringify(PayloadClaims(config.issuerId, IssuedExp(options, clock))));
    Base64UrlProperties(c.sign(h + "." + p, config.privateKey));
    SplitThree(h, p, s, '.');
  }

  /** Decoding an issued token never fails and gives back the header and
      payload that were signed. */
  lemma DecodeIssuedToken(c: Crypto, config: Config, options: JwtOptions, clock: int)
    requires Sound(c)
    ensures DecodeJwt(c, CreateAppStoreJWT(c, config, options, clock))
         == Ok(Decoded(HeaderClaims(config.keyId), PayloadClaims(config.issuerId, IssuedExp(options, clock)),
                       Base64Url(c.sign(SigningInput(c, config, options, clock), config.privateKey))))
  {
    var hc, pc := HeaderClaims(config.keyId), PayloadClaims(config.issuerId, IssuedExp(options, clock));
    var hb, pb := c.stringify(hc), c.stringify(pc);
    var h, p := Base64Url(hb), Base64Url(pb);
    var sb := c.sign(h + "." + p, config.privateKey);
    var parts := Split(CreateAppStoreJWT(c, config, options, clock), '.');
    IssuedTokenSegments(c, config, options, clock);
    assert parts == [h, p, Base64Url(sb)];
    Base64UrlProperties(hb);
    Base64UrlProperties(pb);
    Base64UrlProperties(sb);
    assert c.parse(hb) == Some(hc);
    assert c.parse(pb) == Some(pc);
    assert DecodeSegment(c, parts[0]) == Some(hc);
    assert DecodeSegment(c, parts[1]) == Some(pc);
  }

  /** The claims an issued token carries: alg, kid, iss, aud, and
      exp = now + min(expiration ?? 600, 1200). */
  lemma IssuedClaims(c: Crypto, config: Config, options: JwtOptions, clock: int)
    requires Sound(c)
    ensures var r := DecodeJwt(c, CreateAppStoreJWT(c, config, options, clock));
            && r.Ok?
            && "alg" in r.value.header && r.value.header["alg"] == JStr("ES256")
            && "kid" in r.value.header && r.value.header["kid"] == JStr(config.keyId)
            && "iss" in r.value.payload && r.value.payload["iss"] == JStr(config.issuerId)
            && "aud" in r.value.payload && r.value.payload["aud"] == JStr("appstoreconnect-v1")
            && "exp" in r.value.payload && r.value.payload["exp"] == JNum(options.now.GetOr(clock) + ExpirationSeconds(options.expirationSeconds))
  {
    DecodeIssuedToken(c, config, options, clock);
    var r := DecodeJwt(c, CreateAppStoreJWT(c, config, options, clock));
    assert r.value.header == HeaderClaims(config.keyId);
    assert r.value.payload == PayloadClaims(config.issuerId, IssuedExp(options, clock));
    ClaimLookups(config.keyId, config.issuerId, IssuedExp(options, clock));
  }

  lemma ClaimLookups(keyId: string, issuerId: string, exp: int)
    ensures "alg" in HeaderClaims(keyId) && HeaderClaims(keyId)["alg"] == JStr("ES256")
    ensures "kid" in HeaderClaims(keyId) && HeaderClaims(keyId)["kid"] == JStr(keyId)
    ensures "iss" in PayloadClaims(issuerId, exp) && PayloadClaims(issuerId, exp)["iss"] == JStr(issuerId)
    ensures "aud" in PayloadClaims(issuerId, exp) && PayloadClaims(issuerId, exp)["aud"] == JStr("appstoreconnect-v1")
    ensures "exp" in PayloadClaims(issuerId, exp) && PayloadClaims(issuerId, exp)["exp"] == JNum(exp)
  {
  }

  /** A requested lifetime above the cap gives the same token as the cap. */
  lemma ExpirationIsCapped(c: Crypto, config: Config, now: Option<int>, clock: int, requested: int)
    requires requested >= MAX_EXP_SECONDS
    ensures CreateAppStoreJWT(c, config, JwtOptions(now, Some(requested)), clock)
         == CreateAppStoreJWT(c, config, JwtOptions(now, Some(MAX_EXP_SECONDS)), clock)
  {
  }

  /** The repository's own test: with now = 1_700_000_000 and 600 seconds the
      decoded token carries alg ES256, the key id, the issuer id, the App Store
      audience and exp = 1_700_000_600. */
  lemma DecodeIssuedTokenExample(c: Crypto, config: Config, clock: int)
    requires Sound(c)
    ensures var r := DecodeJwt(c, CreateAppStoreJWT(c, config, JwtOptions(Some(1700000000), Some(600)), clock));
            && r.Ok?
            && "alg" in r.value.header && r.value.header["alg"] == JStr("ES256")
            && "kid" in r.value.header && r.value.header["kid"] == JStr(config.keyId)
            && "iss" in r.value.payload && r.value.payload["iss"] == JStr(config.issuerId)
            && "aud" in r.value.payload && r.value.payload["aud"] == JStr("appstoreconnect-v1")
            && "exp" in r.value.payload && r.value.payload["exp"] == JNum(1700000600)
  {
    IssuedClaims(c, config, JwtOptions(Some(1700000000), Some(600)), clock);
  }
}
