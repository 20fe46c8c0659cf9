/** The helpers of src/packages/stores/app-store/api-endpoints.ts around the
    App Store Connect SDK: path normalisation for requests and pagination
    links, the client-side locale filter, the memo of SDK API objects, and
    the classification of SDK errors into the errors the endpoints throw.
    The SDK itself (its requests, JSON bodies and object creation) is
    foreign and appears only through the values it hands back. */
module Endpoints {
  import opened Common
  import opened Text
  import opened Remote

  // ------------------------------------------------------------ configuration

  /** `60 * 20`: the token lifetime handed to the SDK when none is set. */
  const DEFAULT_TOKEN_EXPIRATION_SECONDS: int := 60 * 20

  /** `AppStoreApiAuthConfig` */
  datatype ApiAuthConfig = ApiAuthConfig(issuerId: string, keyId: string, privateKey: string, expirationSeconds: Option<int>)

  /** The options the constructor passes to `new AppStoreConnectAPI`. */
  datatype SdkConfig = SdkConfig(issuerId: string, privateKeyId: string, privateKey: string, expirationDuration: int)

  /** The SDK options: the credentials as given, and the token lifetime of
      the config. An unset lifetime becomes 1200 seconds; a set one, even 0,
      is kept (`??` only replaces a missing value). */
  function SdkConfigOf(config: ApiAuthConfig): (sdk: SdkConfig)
    ensures sdk.issuerId == config.issuerId && sdk.privateKeyId == config.keyId && sdk.privateKey == config.privateKey
    ensures config.expirationSeconds.None? ==> sdk.expirationDuration == 1200
    ensures config.expirationSeconds.Some? ==> sdk.expirationDuration == config.expirationSeconds.value
  {
    SdkConfig(config.issuerId, config.keyId, config.privateKey,
              config.expirationSeconds.GetOr(DEFAULT_TOKEN_EXPIRATION_SECONDS))
  }

  // ------------------------------------------------------------------ paths

  /** `normalizeNextLink(nextLink)`: a missing or empty link gives null;
      otherwise the first occurrence of the API base URL is removed (the
      base URL comes from a constants module and is a parameter here). */
  function NormalizeNextLink(nextLink: Option<string>, baseUrl: string): (r: Option<string>)
    ensures r.None? <==> nextLink.None? || nextLink.value == ""
    ensures r.Some? && !Contains(nextLink.value, baseUrl) ==> r.value == nextLink.value
    ensures r.Some? && Contains(nextLink.value, baseUrl) ==>
              exists k: nat :: OccursAt(nextLink.value, baseUrl, k)
                && (forall j: nat :: j < k ==> !OccursAt(nextLink.value, baseUrl, j))
                && r.value == nextLink.value[..k] + nextLink.value[k + |baseUrl|..]
    ensures r.Some? && Contains(nextLink.value, baseUrl) ==> |r.value| == |nextLink.value| - |baseUrl|
  {
    if nextLink.None? || nextLink.value == "" then None
    else
      var s := nextLink.value;
      match IndexOf(s, baseUrl)
      case None => Some(s)
      case Some(k) => Some(s[..k] + s[k + |baseUrl|..])
  }

  /** A link the API hands back, base URL followed by a path, normalises to
      that path. */
  lemma NextLinkStripsBase(baseUrl: string, path: string)
    requires baseUrl + path != ""
    ensures NormalizeNextLink(Some(baseUrl + path), baseUrl) == Some(path)
  {
    var s := baseUrl + path;
    assert OccursAt(s, baseUrl, 0) by {
      assert s[..|baseUrl|] == baseUrl;
    }
    var k := IndexOf(s, baseUrl);
    assert k == Some(0);
    assert s[..0] + s[0 + |baseUrl|..] == path;
  }

  /** `normalizeEndpoint(endpoint)`: absolute URLs and `/v1/` paths pass
      unchanged; any other path is put under `/v1/`. */
  function NormalizeEndpoint(endpoint: string): (r: string)
    ensures StartsWith(r, "http") || StartsWith(r, "/v1/")
    ensures StartsWith(endpoint, "http") || StartsWith(endpoint, "/v1/") ==> r == endpoint
    ensures !(StartsWith(endpoint, "http") || StartsWith(endpoint, "/v1/")) ==>
              r == "/v1/" + (if StartsWith(endpoint, "/") then endpoint[1..] else endpoint)
  {
    if StartsWith(endpoint, "http") then endpoint
    else if StartsWith(endpoint, "/v1/") then endpoint
    else if StartsWith(endpoint, "/") then
      assert "/v1" + endpoint == "/v1/" + endpoint[1..] by {
        assert endpoint == "/" + endpoint[1..];
      }
      assert ("/v1/" + endpoint[1..])[..4] == "/v1/";
      "/v1" + endpoint
    else
      assert ("/v1/" + endpoint)[..4] == "/v1/";
      "/v1/" + endpoint
  }

  /** Normalising twice is normalising once. */
  lemma NormalizeEndpointIdempotent(endpoint: string)
    ensures NormalizeEndpoint(NormalizeEndpoint(endpoint)) == NormalizeEndpoint(endpoint)
  {
  }

  /** What `requestCollection` hands the SDK: a full URL, or a path. */
  datatype SdkRequest = UrlRequest(url: string) | PathRequest(path: string)

  function RequestTargetOf(endpoint: string): (r: SdkRequest)
    ensures r.UrlRequest? <==> StartsWith(endpoint, "http")
    ensures r.UrlRequest? ==> r.url == endpoint
    ensures r.PathRequest? ==> StartsWith(r.path, "/v1/")
    ensures r.PathRequest? ==> r.path == NormalizeEndpoint(endpoint)
  {
    if StartsWith(endpoint, "http") then UrlRequest(endpoint) else PathRequest(NormalizeEndpoint(endpoint))
  }

  /** A relative collection endpoint is requested under `/v1/`, with or
      without its leading slash; a `/v1/` path is sent as it is. */
  lemma RequestTargetExamples()
    ensures RequestTargetOf("apps") == PathRequest("/v1/apps")
    ensures RequestTargetOf("/apps") == PathRequest("/v1/apps")
    ensures RequestTargetOf("/v1/apps") == PathRequest("/v1/apps")
  {
    var bare, slashed, full := "apps", "/apps", "/v1/apps";
    DiffersAt(bare, "http", 0);
    DiffersAt(bare, "/v1/", 0);
    DiffersAt(bare, "/", 0);
    DiffersAt(slashed, "http", 0);
    DiffersAt(slashed, "/v1/", 1);
    assert StartsWith(slashed, "/") by { assert slashed[..1] == "/"; }
    assert slashed[1..] == bare;
    DiffersAt(full, "http", 0);
    assert StartsWith(full, "/v1/") by { assert full[..4] == "/v1/"; }
  }

  /** A string that differs from `p` at some index of both does not start with `p`. */
  lemma DiffersAt(s: string, p: string, i: nat)
    requires i < |p| && i < |s| && s[i] != p[i]
    ensures !StartsWith(s, p)
  {
  }

  /** Following a `next` link: the base URL is stripped and the `/v1/` path
      left over is requested as it is. */
  lemma NextPageRequestsItsPath(baseUrl: string, path: string)
    requires StartsWith(path, "/v1/")
    ensures NormalizeNextLink(Some(baseUrl + path), baseUrl) == Some(path)
    ensures RequestTargetOf(path) == PathRequest(path)
  {
    NextLinkStripsBase(baseUrl, path);
    assert path[..4] == "/v1/";
    assert !StartsWith(path, "http") by {
      assert path[3] == '/';
    }
  }

  // ------------------------------------------------------------ locale filter

  datatype Links = Links(selfLink: Option<string>, next: Option<string>)

  /** `ApiResponse<AppStoreLocalization[]>` */
  datatype LocalizationsResponse = LocalizationsResponse(data: Option<seq<Localization>>, links: Option<Links>)

  /** `data.filter(l => l.attributes?.locale === locale)` */
  function WithLocale(ls: seq<Localization>, locale: string): (r: seq<Localization>)
    ensures forall x :: x in r <==> x in ls && x.locale == Some(locale)
  {
    if |ls| == 0 then []
    else
      var rest := WithLocale(ls[1..], locale);
      assert ls == [ls[0]] + ls[1..];
      if ls[0].locale == Some(locale) then [ls[0]] + rest else rest
  }

  /** The filter keeps every localization of the locale as often as it occurs. */
  lemma {:induction false} WithLocaleCounts(ls: seq<Localization>, locale: string)
    ensures forall x: Localization :: x.locale == Some(locale) ==> multiset(WithLocale(ls, locale))[x] == multiset(ls)[x]
  {
    if |ls| > 0 {
      WithLocaleCounts(ls[1..], locale);
      assert ls == [ls[0]] + ls[1..];
      assert multiset(ls) == multiset([ls[0]]) + multiset(ls[1..]);
      var head := if ls[0].locale == Some(locale) then [ls[0]] else [];
      assert WithLocale(ls, locale) == head + WithLocale(ls[1..], locale);
      assert multiset(WithLocale(ls, locale)) == multiset(head) + multiset(WithLocale(ls[1..], locale));
    }
  }

  /** The filter keeps order: it works piece by piece. */
  lemma {:induction false} WithLocaleDistributes(a: seq<Localization>, b: seq<Localization>, locale: string)
    ensures WithLocale(a + b, locale) == WithLocale(a, locale) + WithLocale(b, locale)
  {
    if |a| > 0 {
      var ab := a + b;
      assert ab[0] == a[0] && ab[1..] == a[1..] + b;
      WithLocaleDistributes(a[1..], b, locale);
      var head := if a[0].locale == Some(locale) then [a[0]] else [];
      assert WithLocale(ab, locale) == head + WithLocale(a[1..] + b, locale);
      assert WithLocale(a, locale) == head + WithLocale(a[1..], locale);
      assert head + (WithLocale(a[1..], locale) + WithLocale(b, locale))
          == (head + WithLocale(a[1..], locale)) + WithLocale(b, locale);
    } else {
      assert a + b == b;
    }
  }

  /** The response of `listAppStoreVersionLocalizations(versionId, locale)`
      given what the SDK answered: without a locale (or with "") the
      response as is; with one, the same response whose data holds only the
      localizations of that locale (a missing data list counts as empty). */
  function FilterLocalizations(response: LocalizationsResponse, locale: Option<string>): (r: LocalizationsResponse)
    ensures locale.None? || locale.value == "" ==> r == response
    ensures locale.Some? && locale.value != "" ==>
              r.links == response.links && r.data.Some? &&
              forall x :: x in r.data.value <==> x in response.data.GetOr([]) && x.locale == locale
    ensures locale.Some? && locale.value != "" ==>
              forall x: Localization :: x.locale == locale ==>
                multiset(r.data.value)[x] == multiset(response.data.GetOr([]))[x]
    ensures locale.Some? && locale.value != "" ==> r.data == Some(WithLocale(response.data.GetOr([]), locale.value))
  {
    if locale.None? || locale.value == "" then response
    else
      WithLocaleCounts(response.data.GetOr([]), locale.value);
      response.(data := Some(WithLocale(response.data.GetOr([]), locale.value)))
  }

  // --------------------------------------------------------------- API cache

  /** The SDK API classes the endpoints ask for. */
  datatype ApiClass =
    | AppsApi
    | AppInfosApi
    | AppInfoLocalizationsApi
    | AppScreenshotSetsApi
    | AppStoreVersionLocalizationsApi
    | AppStoreVersionsApi

  /** The object `sdk.create(apiClass)` made: its class and how many objects
      the SDK had made before it, which tells apart two creations of the
      same class. */
  datatype ApiInstance = ApiInstance(apiClass: ApiClass, serial: nat)

  /** `AppStoreApiEndpoints`, as far as its own state goes: the credentials it
      names in errors, the SDK options, and the memo of API objects. */
  class AppStoreApiEndpoints {
    const issuerId: string
    const keyId: string
    const sdk: SdkConfig
    var apiCache: map<ApiClass, ApiInstance>
    /** The classes passed to `sdk.create`, in call order. */
    var created: seq<ApiClass>

    /** Every cached class was created exactly once, and the cache holds the
        object made by that creation. */
    ghost predicate Valid()
      reads this
    {
      && (forall c :: c in apiCache <==> c in created)
      && (forall i, j :: 0 <= i < j < |created| ==> created[i] != created[j])
      && (forall c :: c in apiCache ==>
            apiCache[c].apiClass == c && apiCache[c].serial < |created| && created[apiCache[c].serial] == c)
    }

    constructor (config: ApiAuthConfig)
      ensures Valid()
      ensures issuerId == config.issuerId && keyId == config.keyId && sdk == SdkConfigOf(config)
      ensures apiCache == map[] && created == []
    {
      issuerId := config.issuerId;
      keyId := config.keyId;
      sdk := SdkConfigOf(config);
      apiCache := map[];
      created := [];
    }

    /** `getApi(apiClass)`: the cached object, created on the first request
        for its class. */
    method GetApi(apiClass: ApiClass) returns (api: ApiInstance)
      requires Valid()
      modifies this
      ensures Valid()
      ensures api.apiClass == apiClass && apiClass in apiCache && apiCache[apiClass] == api
      ensures apiClass in old(apiCache) ==> api == old(apiCache)[apiClass] && apiCache == old(apiCache) && created == old(created)
      ensures apiClass !in old(apiCache) ==>
                api == ApiInstance(apiClass, |old(created)|) &&
                apiCache == old(apiCache)[apiClass := api] && created == old(created) + [apiClass]
    {
      if apiClass !in apiCache {
        var instance := ApiInstance(apiClass, |created|);
        apiCache := apiCache[apiClass := instance];
        created := created + [apiClass];
      }
      api := apiCache[apiClass];
    }
  }

  /** Two requests for the same class give the same object, and the SDK is
      asked to create it at most once. */
  method GetApiTwice(endpoints: AppStoreApiEndpoints, apiClass: ApiClass) returns (first: ApiInstance, second: ApiInstance)
    requires endpoints.Valid()
    modifies endpoints
    ensures endpoints.Valid()
    ensures first == second
    ensures multiset(endpoints.created)[apiClass] == 1
    ensures |endpoints.created| <= |old(endpoints.created)| + 1
  {
    first := endpoints.GetApi(apiClass);
    second := endpoints.GetApi(apiClass);
    CreatedOnce(endpoints.created, apiClass);
  }

  /** In a list without repetitions, a member occurs once. */
  lemma {:induction false} CreatedOnce(created: seq<ApiClass>, c: ApiClass)
    requires forall i, j :: 0 <= i < j < |created| ==> created[i] != created[j]
    requires c in created
    ensures multiset(created)[c] == 1
  {
    var last := created[|created| - 1];
    var init := created[..|created| - 1];
    assert created == init + [last];
    if c == last {
      assert c !in init;
    } else {
      CreatedOnce(init, c);
    }
  }

  // ------------------------------------------------------------------ errors

  /** What the body of a failed response parsed to: nothing (the parse
      failed, or the body was null), a JSON string, or another JSON value,
      carried with the text `JSON.stringify(value, null, 2)` gives for it. */
  datatype ErrorBody = NoBody | StringBody(text: string) | ValueBody(rendered: string)

  /** What the SDK call threw, and what `handleSdkError` throws: a
      `ResponseError` with the response's status and status text, any other
      `Error`, or a value that is no `Error` at all, with its `String(...)`. */
  datatype SdkError =
    | ResponseError(status: nat, statusText: string, body: ErrorBody)
    | ErrorInstance(message: string)
    | NonError(asString: string)

  /** `formatErrorPayload(payload)`: nothing for a missing body, a string
      body as it is, any other value as its JSON rendering. */
  function FormatErrorPayload(body: ErrorBody): (text: string)
    ensures body.NoBody? ==> text == ""
    ensures body.StringBody? ==> text == body.text
    ensures body.ValueBody? ==> text == body.rendered
  {
    match body
    case NoBody => ""
    case StringBody(text) => text
    case ValueBody(rendered) => rendered
  }

  /** `error.response.statusText || "Unknown Error"` */
  function StatusTextOr(statusText: string): (r: string)
    ensures r != ""
    ensures statusText != "" ==> r == statusText
  {
    if statusText == "" then "Unknown Error" else statusText
  }

  const AUTH_FAILED_HEADER: string := "App Store Connect API authentication failed (401 Unauthorized)\n"
  const API_ERROR_PREFIX: string := "App Store Connect API error: "
  const STATE_ERROR_DETAIL: string :=
    "409 Conflict (STATE_ERROR)\nMetadata cannot be modified in current state. Please check app status.\n"
  const STATE_ERROR_HEADER: string := API_ERROR_PREFIX + STATE_ERROR_DETAIL

  /** The message of the 401 error: the credentials in use, then the body. */
  function AuthFailedMessage(issuerId: string, keyId: string, details: string): (m: string)
    ensures StartsWith(m, AUTH_FAILED_HEADER)
    ensures Contains(m, "Issuer ID: " + issuerId) && Contains(m, "Key ID: " + keyId)
    ensures EndsWith(m, details)
  {
    var issuerLine := "Issuer ID: " + issuerId;
    var keyLine := "Key ID: " + keyId;
    var tail := "\n" + "Error: " + details;
    var m := AUTH_FAILED_HEADER + issuerLine + "\n" + keyLine + tail;
    assert m[..|AUTH_FAILED_HEADER|] == AUTH_FAILED_HEADER;
    assert m == AUTH_FAILED_HEADER + issuerLine + ("\n" + keyLine + tail);
    ContainsMiddle(AUTH_FAILED_HEADER, issuerLine, "\n" + keyLine + tail);
    assert m == (AUTH_FAILED_HEADER + issuerLine + "\n") + keyLine + tail;
    ContainsMiddle(AUTH_FAILED_HEADER + issuerLine + "\n", keyLine, tail);
    assert m == (AUTH_FAILED_HEADER + issuerLine + "\n" + keyLine + "\nError: ") + details;
    m
  }

  /** `handleSdkError(error)` with the endpoints' `issuerId` and `keyId`: the
      error it throws (it never returns normally). A `ResponseError` becomes
      an authentication error on 401, a state error on 409 whose formatted
      body mentions STATE_ERROR, and a generic error naming the status
      otherwise; each ends with the formatted body. Another `Error` is
      thrown again as it is; anything else is wrapped by its string form. */
  function HandleSdkError(issuerId: string, keyId: string, error: SdkError): (thrown: SdkError)
    ensures thrown.ErrorInstance?
    ensures error.ResponseError? ==> EndsWith(thrown.message, FormatErrorPayload(error.body))
    ensures error.ResponseError? && error.status == 401 ==>
              StartsWith(thrown.message, AUTH_FAILED_HEADER) &&
              Contains(thrown.message, "Issuer ID: " + issuerId) && Contains(thrown.message, "Key ID: " + keyId)
    ensures error.ResponseError? && error.status == 409 && Contains(FormatErrorPayload(error.body), "STATE_ERROR") ==>
              StartsWith(thrown.message, STATE_ERROR_HEADER)
    ensures error.ResponseError? && error.status != 401 &&
            !(error.status == 409 && Contains(FormatErrorPayload(error.body), "STATE_ERROR")) ==>
              StartsWith(thrown.message, API_ERROR_PREFIX + NatToString(error.status) + " " + StatusTextOr(error.statusText) + "\n")
    ensures error.ErrorInstance? ==> thrown == error
    ensures error.NonError? ==> thrown == ErrorInstance(error.asString)
    ensures error.ResponseError? && error.status == 401 ==>
              thrown.message == AuthFailedMessage(issuerId, keyId, FormatErrorPayload(error.body))
    ensures error.ResponseError? && error.status == 409 && Contains(FormatErrorPayload(error.body), "STATE_ERROR") ==>
              thrown.message == STATE_ERROR_HEADER + "Error: " + FormatErrorPayload(error.body)
    ensures error.ResponseError? && error.status != 401 &&
            !(error.status == 409 && Contains(FormatErrorPayload(error.body), "STATE_ERROR")) ==>
              thrown.message == API_ERROR_PREFIX + NatToString(error.status) + " " + StatusTextOr(error.statusText) + "\n"
                                + FormatErrorPayload(error.body)
  {
    match error
    case ResponseError(status, statusText, body) =>
      var details := FormatErrorPayload(body);
      if status == 401 then
        ErrorInstance(AuthFailedMessage(issuerId, keyId, details))
      else if status == 409 && Contains(details, "STATE_ERROR") then
        var lead := STATE_ERROR_HEADER + "Error: ";
        PrefixOfConcat(STATE_ERROR_HEADER, "Error: ");
        PrefixOfConcat(lead, details);
        PrefixTransitive(lead + details, lead, STATE_ERROR_HEADER);
        SuffixOfConcat(lead, details);
        ErrorInstance(lead + details)
      else
        var head := API_ERROR_PREFIX + NatToString(status) + " " + StatusTextOr(statusText) + "\n";
        PrefixOfConcat(head, details);
        SuffixOfConcat(head, details);
        ErrorInstance(head + details)
    case ErrorInstance(_) => error
    case NonError(s) => ErrorInstance(s)
  }

  /** A response error's message starts with the authentication-failure
      header exactly when its status is 401: every other status gives a
      message starting with the API-error prefix, which differs from that
      header. */
  lemma AuthFailureIsRecognisable(issuerId: string, keyId: string, error: SdkError)
    requires error.ResponseError?
    ensures StartsWith(HandleSdkError(issuerId, keyId, error).message, AUTH_FAILED_HEADER) <==> error.status == 401
  {
    var m := HandleSdkError(issuerId, keyId, error).message;
    if error.status != 401 {
      NonAuthFailureIsApiError(issuerId, keyId, error);
      if StartsWith(m, AUTH_FAILED_HEADER) {
        HeadersDiffer();
        PrefixesAgree(m, AUTH_FAILED_HEADER, API_ERROR_PREFIX, 22);
        assert false;
      }
    }
  }

  /** Every response error other than 401 becomes an "App Store Connect API error: " message. */
  lemma NonAuthFailureIsApiError(issuerId: string, keyId: string, error: SdkError)
    requires error.ResponseError? && error.status != 401
    ensures StartsWith(HandleSdkError(issuerId, keyId, error).message, API_ERROR_PREFIX)
  {
    var m := HandleSdkError(issuerId, keyId, error).message;
    if error.status == 409 && Contains(FormatErrorPayload(error.body), "STATE_ERROR") {
      PrefixOfConcat(API_ERROR_PREFIX, STATE_ERROR_DETAIL);
      PrefixTransitive(m, STATE_ERROR_HEADER, API_ERROR_PREFIX);
    } else {
      var withStatus := API_ERROR_PREFIX + NatToString(error.status);
      var withSpace := withStatus + " ";
      var withText := withSpace + StatusTextOr(error.statusText);
      PrefixOfConcat(withText, "\n");
      PrefixTransitive(m, withText + "\n", withText);
      PrefixOfConcat(withSpace, StatusTextOr(error.statusText));
      PrefixTransitive(m, withText, withSpace);
      PrefixOfConcat(withStatus, " ");
      PrefixTransitive(m, withSpace, withStatus);
      PrefixOfConcat(API_ERROR_PREFIX, NatToString(error.status));
      PrefixTransitive(m, withStatus, API_ERROR_PREFIX);
    }
  }

  /** "App Store Connect API authentication failed" and "App Store Connect
      API error: " part at their 23rd character. */
  lemma HeadersDiffer()
    ensures |AUTH_FAILED_HEADER| > 22 && |API_ERROR_PREFIX| > 22
    ensures AUTH_FAILED_HEADER[22] != API_ERROR_PREFIX[22]
  {
  }

  // ---------------------------------------------------------- create requests

  /** `{ type, id }` in a request's relationships. */
  datatype ResourceLink = ResourceLink(kind: string, id: string)

  datatype VersionCreateRequest = VersionCreateRequest(kind: string, platform: string, versionString: string, app: ResourceLink)

  datatype LocalizationCreateRequest = LocalizationCreateRequest(kind: string, locale: string, attrs: Attrs, appStoreVersion: ResourceLink)

  /** The body `createAppStoreVersion(appId, versionString, platform)` sends. */
  function VersionCreateRequestOf(appId: string, versionString: string, platform: string): (r: VersionCreateRequest)
    ensures r.kind == "appStoreVersions" && r.versionString == versionString && r.platform == platform
    ensures r.app == ResourceLink("apps", appId)
  {
    VersionCreateRequest("appStoreVersions", platform, versionString, ResourceLink("apps", appId))
  }

  /** The body `createAppStoreVersionLocalization(versionId, locale, attributes)`
      sends: the locale next to the attributes (which carry no locale of
      their own), linked to the version. */
  function LocalizationCreateRequestOf(versionId: string, locale: string, attrs: Attrs): (r: LocalizationCreateRequest)
    ensures r.kind == "appStoreVersionLocalizations" && r.locale == locale && r.attrs == attrs
    ensures r.appStoreVersion == ResourceLink("appStoreVersions", versionId)
  {
    LocalizationCreateRequest("appStoreVersionLocalizations", locale, attrs, ResourceLink("appStoreVersions", versionId))
  }
}
