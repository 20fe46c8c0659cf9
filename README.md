# App Store metadata sync, modelled in Dafny

This project models the core of pabal-mcp, a service that keeps app-listing metadata in step with App Store Connect. The metadata covers names, descriptions, keywords and release notes. The model covers these parts:

- **Credential** (`Auth`, `Base64`, `Http`):
  - the ES256 JSON Web Token the client signs: header `{alg, kid, typ}`, payload `{iss, aud, exp}`, and a lifetime of 600 seconds by default, capped at 1200;
  - the base64url encoding of its segments, and `decodeJwt`;
  - the one-slot token cache of the HTTP client, which reissues the token lazily once it is within 60 seconds of `exp`;
  - the rule that turns a response into a payload or an `AppStoreRequestError`.
- **Resource locator and metadata engine** (`VersionOrder`, `Remote`, `Client`):
  - app-id resolution from ids, store URLs and bundle ids;
  - the numeric dot-segment version comparator and the choice of the latest version;
  - locale picking;
  - `pullMetadata`, `pushMetadata` (an update-or-insert keyed by version and locale), `createVersion` and `pullReleaseNotes`.
  - The server these operations talk to is modelled as a `RemoteStore` object whose fields are the apps, the versions and their localizations, an id counter, and a log of the writes it received.
- **Translation distribution** (`Translate`): which store gets which translation request, and which translations each store receives afterwards.
- **SDK endpoint helpers** (`Endpoints`): path and pagination-link normalisation, the client-side locale filter, the memo of SDK API objects, the classification of SDK errors, and the bodies of the create requests.
- **Result envelopes** (`Envelopes`): `success`, `failure`, `isNonEmptyString` and `toServiceResult`.

How the source is modelled:

- Code that updates state in place is modelled imperatively:
  - the token cache is a field of the class `Http.AppStoreHttpClient`;
  - the server is the class `Remote.RemoteStore`;
  - the API memo is the class `Endpoints.AppStoreApiEndpoints`;
  - the source's loops are methods with loop invariants (the comparator, `pickLocale`, `pullReleaseNotes`, the translation loops). Each is proved equal to a specification function.
- Pure code is modelled as functions and lemmas.
- JSON, UTF-8, ECDSA signing, `fetch` and the clock are not modelled. They are parameters:
  - JSON, UTF-8 and signing are function-valued fields of `Auth.Crypto`, constrained only by the predicate `Sound`;
  - the server's answer to a request is a parameter;
  - `now` is a parameter.

Three behaviours of the code are modelled as written:

- `decodeJwt` (packages/app-store/auth.ts:54-57) destructures only the first three pieces of `token.split(".")`. A token with more than three segments therefore decodes (`Auth.DecodeJwt`).
- In `separateTranslationsByStore`, the `else if` branch at packages/utils/translate-release-notes.ts:144-147 and 159-162 is reached only when `translations[locale]` is falsy. It requires `locale === sourceLocale` and then tests `translations[sourceLocale]`, the same entry, so it never adds anything. `Translate.CollectTranslations` keeps the branch and proves it dead.
- `getLocalizationForLocale` (packages/app-store/client.ts:263-271) returns the first entry of the answer to `filter[locale]=…&limit=1` without checking its locale. The model relies on the server's filter alone: `Remote.LocalizationFor` answers with the first localization of that locale.

## Model

| member | source | states |
|---|---|---|
| Envelopes.Success | servers/mcp/core/clients/client-factory-helpers.ts:4-9 | the envelope is a success carrying the client |
| Envelopes.Failure | servers/mcp/core/clients/client-factory-helpers.ts:11-16 | the envelope is a failure carrying the message |
| Envelopes.IsNonEmptyString | servers/mcp/core/clients/client-factory-helpers.ts:21-22 | true exactly for a string with a character that JavaScript's `trim` does not strip |
| Envelopes.TrimEmptyIffAllSpace | servers/mcp/core/clients/client-factory-helpers.ts:21-22 | `trim()` gives "" exactly when every character is whitespace |
| Envelopes.BlankStringsAreEmpty | servers/mcp/core/clients/client-factory-helpers.ts:21-22 | "", blanks and non-strings are rejected; " a " is accepted |
| Envelopes.ToServiceResult | servers/mcp/core/services/service-helpers.ts:6-11 | success is kept in both directions; the client becomes the data and the error is kept |
| Envelopes.ToServiceResultOfConstructors | servers/mcp/core/services/service-helpers.ts:6-11 | converting `success(c)` and `failure(e)` gives the matching service results |
| Base64.UrlEncode | packages/app-store/auth.ts:65-71 | only URL-safe characters; empty exactly for no bytes; never a length of 1 mod 4 |
| Base64.Base64Url | packages/app-store/auth.ts:65-71 | the three replaces leave no padding '=' and none of the non-URL-safe characters '+' and '/' |
| Base64.UrlRoundTrip | packages/app-store/auth.ts:65-71 | decoding the unpadded URL-safe encoding gives the bytes back |
| Base64.Base64UrlIsUrlEncode | packages/app-store/auth.ts:65-71 | the three replaces applied to padded standard base64 equal the unpadded URL-safe encoding of RFC 4648 section 5 |
| Base64.Base64UrlProperties | packages/app-store/auth.ts:65-71 | the output has no '=', '+', '/' or '.'; it is empty only for no input; it decodes back to the input |
| Auth.ExpirationSeconds | packages/app-store/auth.ts:9-21 | the lifetime is never above 1200; 600 when unset; the requested value when at most 1200 |
| Auth.DecodeJwt | packages/app-store/auth.ts:49-63 | "Invalid JWT format" exactly when one of the first three segments is missing or empty; otherwise the third segment is the signature |
| Auth.IssuedTokenSegments | packages/app-store/auth.ts:13-47 | `createAppStoreJWT`: an issued token is the encoded header, the encoded payload and the encoded signature over `header.payload`, joined by dots |
| Auth.DecodeIssuedToken | packages/app-store/auth.ts:13-63 | decoding an issued token never fails and gives back its header and payload claims |
| Auth.IssuedClaims | packages/app-store/auth.ts:23-33 | alg ES256, kid the key id, iss the issuer, aud "appstoreconnect-v1", exp = now + the capped lifetime |
| Auth.ExpirationIsCapped | packages/app-store/auth.ts:18-21 | asking for more than 1200 seconds gives the same token as asking for 1200 |
| Auth.DecodeIssuedTokenExample | tests/app-store-auth.test.ts:18-25 | the repository's test: with now 1700000000 and 600 seconds the decoded token has alg ES256, kid the key id, iss the issuer id, aud "appstoreconnect-v1" and exp 1700000600 |
| Http.ParseAgreesWithDecode | packages/app-store/http.ts:85-94 | `parseJwtUnsafe` reads the same header and payload as `decodeJwt` on every token `decodeJwt` accepts |
| Http.CachedExp | packages/app-store/http.ts:79 | the cached expiry is the payload's numeric `exp`, or `now` when it is not a number |
| Http.IssuedTokenParses | packages/app-store/http.ts:77-79 | a fresh token parses, and its cached expiry is now + 600 |
| Http.NonNumericExpNeverReused | packages/app-store/http.ts:74-80 | a token cached without a numeric `exp` is never handed out again |
| Http.ReuseWindow | packages/app-store/http.ts:72-82 | a token issued at t is reused exactly while the clock is below t + 540 |
| Http.ResolveUrl | packages/app-store/http.ts:44 | every request goes to an absolute http(s) URL |
| Http.ReadPayload | packages/app-store/http.ts:56-58 | the body is read as JSON exactly when the content type contains "application/json" |
| Http.HandleResponse | packages/app-store/http.ts:60-66 | Ok exactly for a 2xx status; otherwise an `AppStoreRequestError` with the status, the payload and a message starting "App Store request failed: " |
| Http.AppStoreHttpClient.constructor | packages/app-store/http.ts:22-25 | the client starts with an empty token cache |
| Http.AppStoreHttpClient.GetToken | packages/app-store/http.ts:72-82 | hands out the cached token while `exp - 60 > now` and keeps the cache; otherwise issues a token and caches it with expiry now + 600 |
| Http.AppStoreHttpClient.Request | packages/app-store/http.ts:39-69 | sends "Bearer " plus the cached token to the resolved URL, with the cache updated as `GetToken` says; the result is `HandleResponse` of the answer |
| Http.TwoRequests | packages/app-store/http.ts:72-76 | two requests less than 540 seconds apart carry the same authorization |
| VersionOrder.Segments | packages/app-store/client.ts:275-276 | one number per dot-separated piece |
| VersionOrder.CompareVersions | packages/app-store/client.ts:274-283 | the loop returns exactly the recursive comparison of the segment lists |
| VersionOrder.FirstDifferenceDecides | packages/app-store/client.ts:278-281 | the result is the difference at the first index where the zero-padded segments differ |
| VersionOrder.CompareZeroIffPaddedEqual | packages/app-store/client.ts:274-283 | the result is 0 exactly when the segment lists agree once padded with zeros |
| VersionOrder.VersionComparatorIsPreorder | packages/app-store/client.ts:274-283 | reflexive, antisymmetric (swapping the arguments negates the result) and transitive |
| VersionOrder.TrailingZeroIsIgnored | packages/app-store/client.ts:277-279 | "s" and "s.0" compare equal |
| VersionOrder.ComparatorExamples | packages/app-store/client.ts:274-283 | "1.2" equals "1.2.0", and "1.2.0" is below "1.10.0" |
| VersionOrder.LatestIndexIsFirstMaximum | packages/app-store/client.ts:241-245 | the chosen index holds a highest version, and every earlier version is strictly lower, as after a stable descending sort |
| VersionOrder.FirstMaximumIsLatestIndex | packages/app-store/client.ts:241-245 | no other index has that property |
| Remote.AppById | packages/app-store/client.ts:58 | an app is found exactly when the server has one with that id |
| Remote.FindAppIdByBundleId | packages/app-store/client.ts:224-229 | none exactly when no app has the bundle id; otherwise the id of the first app that has it |
| Remote.IosVersions | packages/app-store/client.ts:231-235 | exactly the app's iOS versions, never more than the server lists |
| Remote.IosVersionsCounts | packages/app-store/client.ts:231-235 | each iOS version of the app is kept as often as the server lists it |
| Remote.IosVersionsDistributes | packages/app-store/client.ts:231-235 | the selection works piece by piece over the server's list, so server order is kept |
| Remote.Take | packages/app-store/client.ts:233 | the whole list when it has at most `limit` items, otherwise exactly its first `limit` items |
| Remote.VersionsPage | packages/app-store/client.ts:231-236 | a page holds only stored versions, and a page of comparable versions stays comparable |
| Remote.FoundLocalizationIsStored | packages/app-store/client.ts:121-129 | a localization found on a stored version is itself stored, so a PATCH of its id finds it, and a POST to its version finds that version |
| Remote.LocalizationFor | packages/app-store/client.ts:263-271 | none exactly when no localization has the locale; otherwise the first that has it |
| Remote.Merge | packages/app-store/client.ts:112-128 | a PATCH replaces exactly the attributes it sends and keeps the others |
| Remote.PatchAll | packages/app-store/client.ts:121-128 | only localizations with the patched id change, and only in their attributes |
| Remote.EditVersion | packages/app-store/client.ts:121-148 | a write never changes a version's id, app, version string or platform |
| Remote.EditAll | packages/app-store/client.ts:121-148 | the write applies to every version in place and keeps all version strings comparable |
| Remote.EditKeepsIdsBelow | packages/app-store/client.ts:132-148 | after a write, every id the server handed out is still below its counter |
| Remote.RemoteStore.Patch | packages/app-store/client.ts:121-129 | 200, the attributes merged and the write logged when the localization exists; 404 and nothing changed otherwise |
| Remote.RemoteStore.PostLocalization | packages/app-store/client.ts:132-148 | 201, a localization with the counter's id, the locale and the attributes appended to the version, and the write logged; 404 for an unknown version |
| Remote.RemoteStore.PostVersion | packages/app-store/client.ts:158-177 | 201 and an iOS version with the counter's id appended; 404 for an unknown app; 409 for a version string that is not digits and dots |
| Client.Lookup | packages/app-store/client.ts:113-118 | `payload.field?.[locale]`: the text of the first entry with that key, or none when no entry has it |
| Client.ResolveAppId | packages/app-store/client.ts:215-222 | an all-digit input is returned as is; otherwise the bundle-id lookup; "App not found for bundleId" exactly when that finds nothing |
| Client.DigitRun | packages/app-store/client.ts:204 | the longest run of digits starting at an index |
| Client.FirstIdMatch | packages/app-store/client.ts:204 | the leftmost position where "id" is followed by at least six digits |
| Client.ExtractAppId | packages/app-store/client.ts:202-213 | the whole digit run after the leftmost "id" followed by six or more digits; otherwise the bundle-id lookup when the input has a dot; otherwise none |
| Client.ExtractFromStoreUrl | packages/app-store/client.ts:203-205 | for a store URL made of a part that does not contain "id", then "id" and six or more digits (such as .../app/instagram/id389801252), those digits, without asking the server |
| Client.ExtractBundleIdLooksUp | packages/app-store/client.ts:207-211 | a dotted bundle id that does not contain "id" is looked up on the server |
| Client.ExtractedIdResolvesToItself | packages/app-store/client.ts:202-222 | an id taken from a URL is accepted by `ensureAppId` as it is |
| Client.ListVersions | packages/app-store/client.ts:231-236 | 404 exactly when the app does not exist; otherwise the page of iOS versions |
| Client.LatestVersion | packages/app-store/client.ts:238-246 | none exactly for an empty list; otherwise the version at the first index of a highest version string |
| Client.FindVersion | packages/app-store/client.ts:248-254 | none exactly when no version has the string; otherwise the first that has it |
| Client.PickFrom | packages/app-store/client.ts:294-300 | none exactly when no candidate has a usable first key; otherwise the first key of the first candidate that has one |
| Client.PickLocale | packages/app-store/client.ts:285-301 | the loop returns exactly `PickFrom` of the candidates, in the order description, keywords, subtitle, name, supportUrl, marketingUrl, whatsNew |
| Client.TargetLocale | packages/app-store/client.ts:101 | the target locale is never empty |
| Client.PickLocalePrecedence | packages/app-store/client.ts:285-301 | the description's first key wins; an empty description defers to the keywords; with no usable key the target is "en-US" |
| Client.PushMetadata | packages/app-store/client.ts:99-149 | on failure nothing changes on the server; on success the server's versions are edited as the plan says, and exactly that one write is logged; the id counter grows by one exactly for an inserted localization |
| Client.PushWithoutVersions | packages/app-store/client.ts:102-105 | the push fails with the no-version error exactly when the app has no iOS version |
| Client.IosVersionsOfEdit | packages/app-store/client.ts:121-148 | a write commutes with selecting an app's iOS versions |
| Client.PageOfEdit | packages/app-store/client.ts:121-148 | a write commutes with reading a page of versions |
| Client.LatestOfEdit | packages/app-store/client.ts:238-246 | a write does not change which version is the latest |
| Client.LocalizationForPatched | packages/app-store/client.ts:121-129 | after a PATCH the same localization is still found for the locale, with merged attributes |
| Client.LocalizationForAppended | packages/app-store/client.ts:132-148 | after a POST to a version without the locale, the new localization is the one found |
| Client.PushUpserts | packages/app-store/client.ts:99-149 | after a push, the target locale's localization of the latest version carries every attribute sent: the existing one merged, or a new one with exactly them |
| Client.MergeTwice | packages/app-store/client.ts:121-130 | repeating a PATCH changes nothing |
| Client.PushChangesNothingElse | packages/app-store/client.ts:99-149 | a push changes no other localization and no version's identity, and can only append to the latest version |
| Client.PushedAttrs | packages/app-store/client.ts:112-119 | each sent attribute is the first entry keyed by the target locale of its field, the subtitle sent as `promotionalText`, or nothing when the field has no such entry |
| Client.PushNeverWritesName | packages/app-store/client.ts:112-119 | the name is never sent: a payload that differs only in its name (and picks the same locale) makes the same write |
| Client.PullMetadata | packages/app-store/client.ts:56-97 | fails as the id resolution does, or with 404 for an unknown app; otherwise reads that app and the latest iOS version of the first page; URLs and release notes are never pulled |
| Client.KeyedBy | packages/app-store/client.ts:71-84 | `{[locale]: value}` exactly when the value is non-empty |
| Client.PulledFields | packages/app-store/client.ts:56-97 | every pulled field is one entry keyed by the primary locale ("en-US" when unset); description and keywords come only from a localization; the subtitle prefers its promotional text |
| Client.PullAfterPush | packages/app-store/client.ts:56-149 | pulling after a push to the primary locale reads back each non-empty description, keyword list and subtitle sent |
| Client.CreateVersion | packages/app-store/client.ts:151-180 | the result and the new versions are those of the plan; the log grows by one POST and the id counter by one exactly when a version was created, and then `raw` is the POST body `{data: version}` |
| Client.CreateVersionShapes | packages/app-store/client.ts:150-179 | `raw` is the found version itself, taken from the server's list, or the POST body `{data: version}` of a new iOS version of the app with the next id, exactly when the versions grew; the version string is always the one asked for |
| Client.IosVersionsAppend | packages/app-store/client.ts:158-177 | a created iOS version joins the app's iOS versions at the end |
| Client.CreateVersionIdempotent | packages/app-store/client.ts:151-156 | a second call with the same version string finds the version, answers with it as `raw` and writes nothing |
| Client.PushNotes | packages/app-store/client.ts:189-196 | the inner loop appends exactly the notes of one version's localizations, in order |
| Client.PullReleaseNotes | packages/app-store/client.ts:182-200 | the loop over the versions returns exactly the notes `Client.ReleaseNotes` defines, in version and localization order |
| Client.NoteMembership | packages/app-store/client.ts:184-197 | a note is returned exactly when one of the listed versions has, among its first 200 localizations, one whose locale and "what's new" make that note |
| Client.LocalizationNoteMembership | packages/app-store/client.ts:189-195 | a localization gives a note exactly when both its locale and its "what's new" text are non-empty |
| Translate.SelectedLocales | packages/utils/translate-release-notes.ts:36-48 | a store's supported locales when it is selected and has a list; otherwise none |
| Translate.CollectSupportedLocales | packages/utils/translate-release-notes.ts:23-54 | each store's list is its supported locales exactly when selected; the store left out gets an empty list |
| Translate.Without | packages/utils/translate-release-notes.ts:83-85 | the source locale is removed, and every other locale keeps its count |
| Translate.WithoutDistributes | packages/utils/translate-release-notes.ts:83-85 | the filter keeps order |
| Translate.RequestGuardHolds | packages/utils/translate-release-notes.ts:86 | for a non-empty list, the guard of the request always holds |
| Translate.CreateTranslationRequests | packages/utils/translate-release-notes.ts:60-111 | the method returns exactly the specified requests |
| Translate.RequestsAreExact | packages/utils/translate-release-notes.ts:60-111 | a store gets a request exactly when its list is non-empty; the request has the text, the source locale (default "en-US"), the store tag, and the list without the source locale |
| Translate.CollectTranslations | packages/utils/translate-release-notes.ts:139-149 | the loop builds exactly the specified record |
| Translate.SeparateTranslationsByStore | packages/utils/translate-release-notes.ts:116-170 | the method returns exactly the specified records |
| Translate.CollectedKeysAndValues | packages/utils/translate-release-notes.ts:140-147 | a locale is a key exactly when it is supported and has a non-empty translation, and its value is that translation |
| Translate.SeparationIsExact | packages/utils/translate-release-notes.ts:116-170 | both stores: keys, values, and an empty record for a store that is not selected |
| Translate.SeparationExample | packages/utils/translate-release-notes.ts:116-170 | English and French translations for three App Store locales give English and French only |
| Endpoints.SdkConfigOf | src/packages/stores/app-store/api-endpoints.ts:51-69 | the credentials are passed on as given; an unset expiration becomes 1200 seconds, a set one is kept |
| Endpoints.NormalizeNextLink | src/packages/stores/app-store/api-endpoints.ts:71-74 | null exactly for a missing or empty link; the link is unchanged when it lacks the base URL, and otherwise its first occurrence is cut out |
| Endpoints.NextLinkStripsBase | src/packages/stores/app-store/api-endpoints.ts:71-74 | the base URL followed by a path normalises to the path |
| Endpoints.NormalizeEndpoint | src/packages/stores/app-store/api-endpoints.ts:377-382 | the result starts with "http" or "/v1/"; such endpoints are kept; any other path is put under "/v1/" |
| Endpoints.NormalizeEndpointIdempotent | src/packages/stores/app-store/api-endpoints.ts:377-382 | normalising twice is normalising once |
| Endpoints.RequestTargetOf | src/packages/stores/app-store/api-endpoints.ts:384-394 | a URL exactly for an endpoint starting with "http"; otherwise the path sent is `normalizeEndpoint(endpoint)`, which starts with "/v1/" |
| Endpoints.RequestTargetExamples | src/packages/stores/app-store/api-endpoints.ts:377-394 | "apps" and "/apps" are both requested at "/v1/apps", and a "/v1/" path is sent as it is |
| Endpoints.NextPageRequestsItsPath | src/packages/stores/app-store/api-endpoints.ts:71-74 | a "next" link made of the base URL and a /v1/ path is requested as that path |
| Endpoints.WithLocale | src/packages/stores/app-store/api-endpoints.ts:256-260 | keeps exactly the localizations with the locale |
| Endpoints.WithLocaleCounts | src/packages/stores/app-store/api-endpoints.ts:256-260 | each localization with the locale is kept as many times as it occurs |
| Endpoints.WithLocaleDistributes | src/packages/stores/app-store/api-endpoints.ts:256-260 | the filter keeps order |
| Endpoints.FilterLocalizations | src/packages/stores/app-store/api-endpoints.ts:254-261 | without a locale the response is returned as is; with one, only the data changes, to the matching localizations in server order and with their multiplicity |
| Endpoints.AppStoreApiEndpoints.constructor | src/packages/stores/app-store/api-endpoints.ts:59-69 | empty memo; the SDK options come from the configuration |
| Endpoints.AppStoreApiEndpoints.GetApi | src/packages/stores/app-store/api-endpoints.ts:369-375 | a cached class gives its cached object and nothing changes; an uncached one is created once and cached; every class is created at most once |
| Endpoints.GetApiTwice | src/packages/stores/app-store/api-endpoints.ts:369-375 | two requests for a class give the same object, which was created exactly once |
| Endpoints.CreatedOnce | src/packages/stores/app-store/api-endpoints.ts:370-372 | in the log of creations, which has no repetitions, each created class occurs once |
| Endpoints.StatusTextOr | src/packages/stores/app-store/api-endpoints.ts:436 | the status text is never empty: "Unknown Error" replaces "" |
| Endpoints.AuthFailedMessage | src/packages/stores/app-store/api-endpoints.ts:416-423 | the 401 message names the issuer id and the key id and ends with the error body |
| Endpoints.FormatErrorPayload | src/packages/stores/app-store/api-endpoints.ts:397-405 | a missing body gives "", a string body is kept as it is, any other value gives its JSON rendering |
| Endpoints.HandleSdkError | src/packages/stores/app-store/api-endpoints.ts:397-447 | always throws; for a response error: the 401 message, the STATE_ERROR message on a 409 whose body mentions it, otherwise the status and status text; each message is given whole, with its "Error: " label where the source has one, and ends with the body; other errors are rethrown; other values are wrapped |
| Endpoints.NonAuthFailureIsApiError | src/packages/stores/app-store/api-endpoints.ts:425-439 | every response error other than 401, the STATE_ERROR case included, becomes a message starting "App Store Connect API error: " |
| Endpoints.AuthFailureIsRecognisable | src/packages/stores/app-store/api-endpoints.ts:416-439 | a response error's message starts with the authentication header exactly when the status is 401 |
| Endpoints.VersionCreateRequestOf | src/packages/stores/app-store/api-endpoints.ts:221-233 | type appStoreVersions, the version string and platform, linked to the app |
| Endpoints.LocalizationCreateRequestOf | src/packages/stores/app-store/api-endpoints.ts:319-333 | type appStoreVersionLocalizations, the locale and the attributes, linked to the version |

## Left out

- The clock, `fetch`, JSON parsing and serialisation, UTF-8, and ECDSA signing are not modelled. They are parameters:
  - `Auth.Crypto` holds the foreign functions;
  - `Sound` states what is assumed of them: parsing undoes serialising, and the outputs are non-empty.
- `Buffer.from(s, "base64url")` is lenient: it skips bad characters and tolerates padding. The model decodes only well-formed unpadded input. That is all the token code ever decodes.
- `createAppStoreJWT` and `getToken` each read the clock. The model takes both readings as the same instant `now`.
- `pullMetadata`, `pushMetadata`, `createVersion` and `pullReleaseNotes` are not threaded through `Http.AppStoreHttpClient`. They read the server's state directly, so their token handling is covered only by `Http.TwoRequests`.
- The source copies and sorts the version list, then takes its head. The model states only that head, as the first maximum under the comparator.
- Version strings are assumed to be made of digits and dots:
  - the model server refuses other strings with 409;
  - `Number` of any other piece is NaN, and the comparator is not modelled for it.
- Decimal pieces are read exactly. JavaScript's `Number` rounds pieces longer than 15 digits, and the model does not.
- The model server assumes these behaviours, because the real server is not part of this model:
  - a PATCH merges the attributes sent;
  - a POST appends;
  - ids come from a counter;
  - unknown ids give 404;
  - bad version strings give 409.
- A `Record<locale, text>` is modelled in two ways:
  - the metadata fields that `pullMetadata` builds and `pushMetadata` reads (`Client.LocaleMap`) are lists of entries in insertion order, read through the first entry with the key. JavaScript lists integer-like keys first; locale keys are never integer-like;
  - the translation records of `separateTranslationsByStore` are Dafny maps (`map<string, string>`). The key order of its output, which follows the order of the supported locales, is therefore not modelled: only which locales it holds and their texts.
- JavaScript numbers are modelled as unbounded integers. `now` and `expirationSeconds` of `createAppStoreJWT` are `int`: fractional, NaN and infinite values are not admitted, and `exp` is computed exactly rather than in double precision.
- Http.ResolveUrl: models `new URL(path, BASE_URL)` for absolute `http(s)` URLs, root-relative paths and relative paths only. Protocol-relative paths (`//host/…`) and other schemes (`mailto:…`) resolve differently in the WHATWG URL parser and are not modelled; every path the client builds has one of the three modelled shapes.
- Translation keys that collide with `Object.prototype` members (such as "constructor") are not modelled: a lookup of a missing key is treated as absent.
- The JSON rendering of an error body is given with the body. `formatErrorPayload`'s fallback to `String(payload)` is not modelled: the rendering is given, not computed, so a failing `JSON.stringify` does not arise. Bodies that are falsy numbers or `false` are not modelled either.
- The SDK calls behind the rest of `AppStoreApiEndpoints` are plain pass-throughs and are not modelled: listing apps, app infos, screenshots and the other update calls.
- Not modelled because these files are not part of this model:
  - the default platform of `createAppStoreVersion` and the API base URL (both parameters);
  - `checkPushPrerequisites` and the MCP tool layer.
- Client.CreateVersionIdempotent: holds only while the app has fewer than 50 iOS versions, because the lookup reads a single page of 50.
- Client.PushChangesNothingElse: identifies localizations by id and position, not by object identity.
- Endpoints.AppStoreApiEndpoints.GetApi: the cached value is the SDK object, not the promise of it; the model does not cover concurrent first calls.
