/** `AppStoreClient` of packages/app-store/client.ts: it resolves an app id,
    picks the latest version, and reads and writes that version's
    localizations on the server of module Remote.

    Each operation that only reads is a function of the server's state; each
    one that writes is a method on the `RemoteStore`, specified by a plan
    function of the state before the call. */
module Client {
  import opened Common
  import opened Text
  import opened VersionOrder
  import opened Remote

  const DEFAULT_LOCALE: string := "en-US"

  /** The `limit` of each list request the client makes. */
  const LATEST_PAGE: nat := 10
  const RELEASE_NOTES_PAGE: nat := 20
  const VERSION_LOOKUP_PAGE: nat := 50
  const LOCALIZATION_PAGE: nat := 200

  /** A `Record<locale, text>`: its entries in key order. */
  type LocaleMap = seq<(string, string)>

  datatype StoreMetadata = StoreMetadata(
    name: Option<LocaleMap>,
    subtitle: Option<LocaleMap>,
    description: Option<LocaleMap>,
    keywords: Option<LocaleMap>,
    supportUrl: Option<LocaleMap>,
    marketingUrl: Option<LocaleMap>,
    whatsNew: Option<LocaleMap>)

  /** The `raw` part of what `pullMetadata` returns. */
  datatype Raw = Raw(app: App, version: Option<Version>, localization: Option<Localization>)

  datatype Pulled = Pulled(metadata: StoreMetadata, raw: Raw)

  datatype ReleaseNote = ReleaseNote(locale: string, text: string)

  /** The `raw` of `createVersion`'s result: the version object itself when
      the version was found, the POST response body `{data: version}` when it
      was created. A caller reading `raw.id` gets the id only in the first
      case. */
  datatype CreatedRaw = FoundVersion(found: Version) | PostBody(data: Version)

  /** The version a `CreatedRaw` carries, whichever shape it has. */
  function RawVersion(raw: CreatedRaw): Version {
    match raw
    case FoundVersion(v) => v
    case PostBody(v) => v
  }

  datatype CreateVersionResult = CreateVersionResult(version: string, raw: CreatedRaw)

  /** Why an operation throws. */
  datatype ClientError =
    | AppNotFound(bundleId: string)
    | NoVersion
    | RequestFailed(status: nat)

  /** JavaScript truthiness of an optional string: present and not "". */
  predicate Truthy(v: Option<string>) {
    v.Some? && v.value != ""
  }

  /** `m?.[key]`: the text of the first entry with that key. */
  function Lookup(m: Option<LocaleMap>, key: string): (r: Option<string>)
    ensures r.Some? ==> m.Some? && FirstWithKey(m.value, key, r.value)
    ensures r.None? ==> m.None? || forall j :: 0 <= j < |m.value| ==> m.value[j].0 != key
  {
    if m.None? then None else LookupIn(m.value, key)
  }

  /** Some entry has `key` and `text`, and no entry before it has `key`. */
  predicate FirstWithKey(entries: LocaleMap, key: string, text: string) {
    exists j :: 0 <= j < |entries| && entries[j] == (key, text)
                && forall k :: 0 <= k < j ==> entries[k].0 != key
  }

  function LookupIn(entries: LocaleMap, key: string): (r: Option<string>)
    ensures r.Some? ==> FirstWithKey(entries, key, r.value)
    ensures r.None? ==> forall j :: 0 <= j < |entries| ==> entries[j].0 != key
  {
    if |entries| == 0 then None
    else if entries[0].0 == key then
      assert entries[0] == (key, entries[0].1);
      Some(entries[0].1)
    else
      assert forall j :: 1 <= j < |entries| ==> entries[j] == entries[1..][j - 1];
      var r := LookupIn(entries[1..], key);
      if r.Some? then
        var j :| 0 <= j < |entries[1..]| && entries[1..][j] == (key, r.value)
                 && forall k :: 0 <= k < j ==> entries[1..][k].0 != key;
        assert entries[j + 1] == (key, r.value);
        r
      else r
  }

  // ---------------------------------------------------------------- app ids

  /** `ensureAppId`: an all-digit input is an app id already; anything else is
      a bundle id looked up on the server, and an empty or missing answer
      throws. */
  function ResolveAppId(apps: seq<App>, input: string): (r: Result<string, ClientError>)
    ensures AllDigits(input) ==> r == Ok(input)
    ensures r.Ok? && !AllDigits(input) ==>
              r.value != "" && exists i :: 0 <= i < |apps| && apps[i].bundleId == Some(input) && apps[i].id == r.value
    ensures r.Err? ==> r.error == AppNotFound(input)
    ensures r.Err? <==> !AllDigits(input) && !Truthy(FindAppIdByBundleId(apps, input))
  {
    if AllDigits(input) then Ok(input)
    else
      var found := FindAppIdByBundleId(apps, input);
      if Truthy(found) then Ok(found.value) else Err(AppNotFound(input))
  }

  /** The length of the run of digits starting at `i`. */
  function DigitRun(s: string, i: nat): (n: nat)
    requires i <= |s|
    decreases |s| - i
    ensures i + n <= |s|
    ensures forall k :: i <= k < i + n ==> IsDigit(s[k])
    ensures i + n == |s| || !IsDigit(s[i + n])
  {
    if i < |s| && IsDigit(s[i]) then 1 + DigitRun(s, i + 1) else 0
  }

  /** `/id(\d{6,})/` matches at `i`. */
  predicate IdMatchAt(s: string, i: nat) {
    OccursAt(s, "id", i) && DigitRun(s, i + 2) >= 6
  }

  /** Where the regular expression's leftmost match starts, at or after `from`. */
  function FirstIdMatch(s: string, from: nat): (r: Option<nat>)
    decreases |s| - from
    ensures r.Some? ==> from <= r.value && IdMatchAt(s, r.value)
    ensures r.Some? ==> forall j: nat :: from <= j < r.value ==> !IdMatchAt(s, j)
    ensures r.None? ==> forall j: nat :: from <= j ==> !IdMatchAt(s, j)
  {
    if from + 2 > |s| then None
    else if IdMatchAt(s, from) then Some(from)
    else FirstIdMatch(s, from + 1)
  }

  /** `extractAppId(input)`: the digits of the leftmost "id" followed by at
      least six digits (the whole run, as the quantifier is greedy); else a
      bundle-id lookup when the input contains '.'; else nothing. */
  function ExtractAppId(apps: seq<App>, input: string): (r: Option<string>)
    ensures FirstIdMatch(input, 0).Some? ==>
              r.Some? && |r.value| >= 6 && AllDigits(r.value) && Contains(input, "id" + r.value)
    ensures FirstIdMatch(input, 0).Some? ==>
              var m := FirstIdMatch(input, 0).value;
              r == Some(input[m + 2..m + 2 + DigitRun(input, m + 2)])
    ensures FirstIdMatch(input, 0).None? && Contains(input, ".") ==> r == FindAppIdByBundleId(apps, input)
    ensures FirstIdMatch(input, 0).None? && !Contains(input, ".") ==> r.None?
  {
    match FirstIdMatch(input, 0)
    case Some(i) =>
      var n := DigitRun(input, i + 2);
      IdFollowedBy(input, i, n);
      Some(input[i + 2..i + 2 + n])
    case None =>
      if Contains(input, ".") then FindAppIdByBundleId(apps, input) else None
  }

  /** The text after an "id" at `i` follows that "id" in `s`. */
  lemma IdFollowedBy(s: string, i: nat, n: nat)
    requires OccursAt(s, "id", i) && i + 2 + n <= |s|
    ensures OccursAt(s, "id" + s[i + 2..i + 2 + n], i)
  {
    assert s[i..i + 2 + n] == s[i..i + 2] + s[i + 2..i + 2 + n];
  }

  /** An App Store URL: the id after "/id" is taken without asking the server. */
  lemma {:induction false} ExtractFromStoreUrl(apps: seq<App>, prefix: string, digits: string)
    requires !Contains(prefix, "id")
    requires AllDigits(digits) && |digits| >= 6
    ensures ExtractAppId(apps, prefix + "id" + digits) == Some(digits)
  {
    var s := prefix + "id" + digits;
    StoreUrlMatch(prefix, digits);
    assert s[|prefix| + 2..|prefix| + 2 + |digits|] == digits;
  }

  /** In such a URL the leftmost match is the "id" after the prefix, and its
      digit run is all of `digits`. */
  lemma StoreUrlMatch(prefix: string, digits: string)
    requires !Contains(prefix, "id")
    requires AllDigits(digits) && |digits| >= 6
    ensures var s := prefix + "id" + digits;
            FirstIdMatch(s, 0) == Some(|prefix|) && DigitRun(s, |prefix| + 2) == |digits|
  {
    var s := prefix + "id" + digits;
    MatchAfterPrefix(prefix, digits);
    NoMatchBefore(s, prefix);
    FirstMatchIs(s, |prefix|);
  }

  /** The "id" after the prefix starts a match whose digit run is `digits`. */
  lemma MatchAfterPrefix(prefix: string, digits: string)
    requires AllDigits(digits) && |digits| >= 6
    ensures var s := prefix + "id" + digits;
            && IdMatchAt(s, |prefix|) && DigitRun(s, |prefix| + 2) == |digits|
            && StartsWith(s, prefix) && s[|prefix|] == 'i'
  {
    var s := prefix + "id" + digits;
    var m := |prefix|;
    var t := "id" + digits;
    assert s == prefix + t;
    PrefixOfConcat(prefix, t);
    assert s[m..] == t;
    assert s[m..m + 2] == t[..2];
    assert s[m + 2..] == t[2..];
    DigitRunOfSuffix(s, m + 2, digits);
  }

  /** No match starts inside a prefix without "id" that is not followed by 'd'. */
  lemma NoMatchBefore(s: string, prefix: string)
    requires !Contains(prefix, "id") && StartsWith(s, prefix)
    requires |prefix| < |s| ==> s[|prefix|] != 'd'
    ensures forall j: nat :: j < |prefix| ==> !IdMatchAt(s, j)
  {
    forall j: nat | j < |prefix| ensures !IdMatchAt(s, j) {
      if OccursAt(s, "id", j) && j + 2 <= |prefix| {
        assert prefix[j..j + 2] == s[..|prefix|][j..j + 2];
        assert OccursAt(prefix, "id", j);
      }
    }
  }

  /** A match with none before it is the leftmost one. */
  lemma FirstMatchIs(s: string, m: nat)
    requires IdMatchAt(s, m)
    requires forall j: nat :: j < m ==> !IdMatchAt(s, j)
    ensures FirstIdMatch(s, 0) == Some(m)
  {
    var r := FirstIdMatch(s, 0);
    if r.None? || r.value != m {
      assert false;
    }
  }

  lemma {:induction false} DigitRunOfSuffix(s: string, i: nat, digits: string)
    requires i <= |s| && s[i..] == digits && AllDigits(digits)
    decreases |digits|
    ensures DigitRun(s, i) == |digits|
  {
    assert s[i] == digits[0];
    if |digits| > 1 {
      assert s[i + 1..] == digits[1..];
      DigitRunOfSuffix(s, i + 1, digits[1..]);
    } else {
      assert DigitRun(s, i + 1) == 0;
    }
  }

  /** A bundle id (dots, no "id"): the server is asked. */
  lemma ExtractBundleIdLooksUp(apps: seq<App>, bundleId: string, dot: nat)
    requires !Contains(bundleId, "id")
    requires dot < |bundleId| && bundleId[dot] == '.'
    ensures ExtractAppId(apps, bundleId) == FindAppIdByBundleId(apps, bundleId)
  {
    assert OccursAt(bundleId, ".", dot) by {
      assert bundleId[dot..dot + 1] == [bundleId[dot]];
    }
    forall j: nat ensures !IdMatchAt(bundleId, j) {
      assert !OccursAt(bundleId, "id", j);
    }
  }

  /** An id taken from a URL is accepted by `ensureAppId` as it is. */
  lemma ExtractedIdResolvesToItself(apps: seq<App>, input: string)
    requires FirstIdMatch(input, 0).Some?
    ensures ResolveAppId(apps, ExtractAppId(apps, input).value) == Ok(ExtractAppId(apps, input).value)
  {
  }

  // ------------------------------------------------------------- versions

  /** `listVersions(appId, limit)`: 404 for an app the server does not have. */
  function ListVersions(s: Server, appId: string, limit: nat): (r: Result<seq<Version>, ClientError>)
    ensures r.Err? <==> !AppExists(s.apps, appId)
    ensures r.Err? ==> r.error == RequestFailed(404)
    ensures r.Ok? ==> r.value == VersionsPage(s.versions, appId, limit)
  {
    if AppExists(s.apps, appId) then Ok(VersionsPage(s.versions, appId, limit)) else Err(RequestFailed(404))
  }

  function VersionStrings(page: seq<Version>): (ss: seq<string>)
    ensures |ss| == |page|
    ensures forall i :: 0 <= i < |page| ==> ss[i] == page[i].versionString
  {
    seq(|page|, i requires 0 <= i < |page| => page[i].versionString)
  }

  /** `getLatestVersion` once the list is in: null for an empty list, else the
      head of a copy stably sorted in descending version order, which is the
      first of the highest versions. */
  function LatestVersion(page: seq<Version>): (r: Option<Version>)
    requires ComparableVersions(page)
    ensures r.None? <==> |page| == 0
    ensures r.Some? ==> exists k :: 0 <= k < |page| && page[k] == r.value && IsFirstMaximum(VersionStrings(page), k)
  {
    if |page| == 0 then None
    else
      var ss := VersionStrings(page);
      LatestIndexIsFirstMaximum(ss);
      Some(page[LatestIndex(ss)])
  }

  /** `versions.find(v => v.attributes.versionString === versionString)` */
  function FindVersion(page: seq<Version>, versionString: string): (r: Option<Version>)
    ensures r.None? <==> forall k :: 0 <= k < |page| ==> page[k].versionString != versionString
    ensures r.Some? ==> exists k :: 0 <= k < |page| && page[k] == r.value && r.value.versionString == versionString
                          && forall j :: 0 <= j < k ==> page[j].versionString != versionString
  {
    if |page| == 0 then None
    else if page[0].versionString == versionString then Some(page[0])
    else
      var r := FindVersion(page[1..], versionString);
      assert forall k :: 1 <= k < |page| ==> page[k] == page[1..][k - 1];
      if r.Some? then
        var k :| 0 <= k < |page[1..]| && page[1..][k] == r.value && r.value.versionString == versionString
                 && forall j :: 0 <= j < k ==> page[1..][j].versionString != versionString;
        assert page[k + 1] == r.value && forall j :: 0 <= j < k + 1 ==> page[j].versionString != versionString;
        r
      else r
  }

  // -------------------------------------------------------------- locales

  /** The first key of a present mapping, unless it has none or it is "". */
  function FirstKey(m: Option<LocaleMap>): Option<string> {
    if m.Some? && |m.value| > 0 && m.value[0].0 != "" then Some(m.value[0].0) else None
  }

  /** The mappings `pickLocale` looks at, in its order. */
  function Candidates(p: StoreMetadata): seq<Option<LocaleMap>> {
    [p.description, p.keywords, p.subtitle, p.name, p.supportUrl, p.marketingUrl, p.whatsNew]
  }

  function PickFrom(candidates: seq<Option<LocaleMap>>): (r: Option<string>)
    ensures r.None? <==> forall k :: 0 <= k < |candidates| ==> FirstKey(candidates[k]).None?
    ensures r.Some? ==> exists k :: 0 <= k < |candidates| && FirstKey(candidates[k]) == r
                          && forall j :: 0 <= j < k ==> FirstKey(candidates[j]).None?
  {
    if |candidates| == 0 then None
    else if FirstKey(candidates[0]).Some? then FirstKey(candidates[0])
    else
      var r := PickFrom(candidates[1..]);
      assert forall k :: 1 <= k < |candidates| ==> candidates[k] == candidates[1..][k - 1];
      if r.Some? then
        var k :| 0 <= k < |candidates[1..]| && FirstKey(candidates[1..][k]) == r
                 && forall j :: 0 <= j < k ==> FirstKey(candidates[1..][j]).None?;
        assert FirstKey(candidates[k + 1]) == r && forall j :: 0 <= j < k + 1 ==> FirstKey(candidates[j]).None?;
        r
      else r
  }

  /** `pickLocale(payload)`: the loop over the present candidates, returning
      the first usable first key. */
  method PickLocale(p: StoreMetadata) returns (locale: Option<string>)
    ensures locale == PickFrom(Candidates(p))
  {
    var candidates := Candidates(p);
    var i := 0;
    while i < |candidates|
      invariant 0 <= i <= |candidates|
      invariant PickFrom(candidates) == PickFrom(candidates[i..])
    {
      var key := FirstKey(candidates[i]);
      if key.Some? {
        return key;
      }
      assert candidates[i..][1..] == candidates[i + 1..];
      i := i + 1;
    }
    return None;
  }

  /** `pickLocale(payload) ?? "en-US"` */
  function TargetLocale(p: StoreMetadata): (l: string)
    ensures l != ""
  {
    PickFrom(Candidates(p)).GetOr(DEFAULT_LOCALE)
  }

  /** The description's first key wins; an empty description defers to the
      keywords; with no usable key anywhere the target is "en-US". */
  lemma PickLocalePrecedence(p: StoreMetadata)
    ensures FirstKey(p.description).Some? ==> TargetLocale(p) == FirstKey(p.description).value
    ensures FirstKey(p.description).None? && FirstKey(p.keywords).Some? ==> TargetLocale(p) == FirstKey(p.keywords).value
    ensures (forall k :: 0 <= k < |Candidates(p)| ==> FirstKey(Candidates(p)[k]).None?) ==> TargetLocale(p) == DEFAULT_LOCALE
    ensures (p.description == Some([]) && FirstKey(p.name).Some? && p.keywords.None? && p.subtitle.None?)
              ==> TargetLocale(p) == FirstKey(p.name).value
  {
    var cs := Candidates(p);
    if FirstKey(p.description).None? && FirstKey(p.keywords).Some? {
      assert PickFrom(cs) == PickFrom(cs[1..]);
    }
    if p.description == Some([]) && FirstKey(p.name).Some? && p.keywords.None? && p.subtitle.None? {
      assert PickFrom(cs) == PickFrom(cs[1..]);
      assert PickFrom(cs[1..]) == PickFrom(cs[1..][1..]);
      assert PickFrom(cs[1..][1..]) == PickFrom(cs[1..][1..][1..]);
    }
  }

  /** `v` is what `field?.[target]` reads: the text of the first entry keyed
      by `target`, or nothing when the field is missing or has no such entry. */
  predicate ReadsEntry(field: Option<LocaleMap>, target: string, v: Option<string>) {
    && (v.Some? ==> field.Some? && FirstWithKey(field.value, target, v.value))
    && (v.None? ==> field.None? || forall j :: 0 <= j < |field.value| ==> field.value[j].0 != target)
  }

  /** The attributes `pushMetadata` sends: the target locale's entry of each
      field, the subtitle as `promotionalText`; the name is not among them. */
  function PushedAttrs(p: StoreMetadata, target: string): (sent: Attrs)
    ensures ReadsEntry(p.description, target, sent.description)
    ensures ReadsEntry(p.keywords, target, sent.keywords)
    ensures ReadsEntry(p.subtitle, target, sent.promotionalText)
    ensures ReadsEntry(p.supportUrl, target, sent.supportUrl)
    ensures ReadsEntry(p.marketingUrl, target, sent.marketingUrl)
    ensures ReadsEntry(p.whatsNew, target, sent.whatsNew)
  {
    Attrs(
      Lookup(p.description, target),
      Lookup(p.keywords, target),
      Lookup(p.subtitle, target),
      Lookup(p.supportUrl, target),
      Lookup(p.marketingUrl, target),
      Lookup(p.whatsNew, target))
  }

  // ------------------------------------------------------------ pushMetadata

  /** What `pushMetadata` writes, decided on the state before the call; the
      server would give a new localization the id `newId`. */
  function PushPlan(s: Server, input: string, p: StoreMetadata, newId: nat): Result<Edit, ClientError>
    requires ComparableVersions(s.versions)
  {
    match ResolveAppId(s.apps, input)
    case Err(e) => Err(e)
    case Ok(appId) =>
      var target := TargetLocale(p);
      match ListVersions(s, appId, LATEST_PAGE)
      case Err(e) => Err(e)
      case Ok(page) =>
        match LatestVersion(page)
        case None => Err(NoVersion)
        case Some(latest) =>
          var sent := PushedAttrs(p, target);
          match LocalizationFor(latest.localizations, target)
          case Some(existing) => Ok(PatchEdit(existing.id, sent))
          case None => Ok(AppendEdit(latest.id, Localization(newId, Some(target), sent)))
  }

  /** The write an edit is sent as. */
  function WriteOf(e: Edit): Write {
    match e
    case PatchEdit(lid, sent) => PatchedLocalization(lid, sent)
    case AppendEdit(vid, l) => PostedLocalization(vid, l.locale.GetOr(""), l.attrs)
  }

  /** The latest version of a page is one of the page's versions. */
  lemma LatestIsStored(page: seq<Version>)
    requires ComparableVersions(page) && LatestVersion(page).Some?
    ensures LatestVersion(page).value in page
  {
    var k :| 0 <= k < |page| && page[k] == LatestVersion(page).value && IsFirstMaximum(VersionStrings(page), k);
  }

  /** `pushMetadata(appIdOrBundleId, payload)` */
  method PushMetadata(remote: RemoteStore, input: string, p: StoreMetadata) returns (r: Result<(), ClientError>)
    requires remote.Valid()
    modifies remote
    ensures remote.Valid() && remote.apps == old(remote.apps)
    ensures var plan := PushPlan(old(remote.View()), input, p, old(remote.nextId));
            && (plan.Err? ==> r == Err(plan.error) && remote.versions == old(remote.versions)
                              && remote.nextId == old(remote.nextId) && remote.log == old(remote.log))
            && (plan.Ok? ==> r == Ok(()) && remote.versions == EditAll(old(remote.versions), plan.value)
                             && remote.log == old(remote.log) + [WriteOf(plan.value)]
                             && remote.nextId == old(remote.nextId) + (if plan.value.AppendEdit? then 1 else 0))
  {
    var s := remote.View();
    ghost var plan := PushPlan(s, input, p, remote.nextId);
    var resolved := ResolveAppId(remote.apps, input);
    if resolved.Err? {
      assert plan == Err(resolved.error);
      return Err(resolved.error);
    }
    var appId := resolved.value;
    var target := TargetLocale(p);
    var listed := ListVersions(s, appId, LATEST_PAGE);
    if listed.Err? {
      assert plan == Err(listed.error);
      return Err(listed.error);
    }
    var page := listed.value;
    var latest := LatestVersion(page);
    if latest.None? {
      assert plan == Err(NoVersion);
      return Err(NoVersion);
    }
    var version := latest.value;
    LatestIsStored(page);
    var sent := PushedAttrs(p, target);
    var existing := LocalizationFor(version.localizations, target);
    if existing.Some? {
      assert plan == Ok(PatchEdit(existing.value.id, sent));
      // The localization was just read from the server, so the PATCH finds it.
      FoundLocalizationIsStored(remote.versions, version, target);
      var status := remote.Patch(existing.value.id, sent);
    } else {
      assert plan == Ok(AppendEdit(version.id, Localization(remote.nextId, Some(target), sent)));
      // The version was just read from the server, so the POST finds it.
      assert HasVersion(remote.versions, version.id);
      var status, created := remote.PostLocalization(version.id, target, sent);
    }
    r := Ok(());
  }

  /** `pushMetadata` fails with "no version" exactly when the app has no iOS
      version on the server, and then nothing is written. */
  lemma PushWithoutVersions(s: Server, input: string, p: StoreMetadata, newId: nat, appId: string)
    requires ComparableVersions(s.versions)
    requires ResolveAppId(s.apps, input) == Ok(appId) && AppExists(s.apps, appId)
    ensures PushPlan(s, input, p, newId) == Err(NoVersion)
        <==> forall i :: 0 <= i < |s.versions| ==> !(s.versions[i].appId == appId && s.versions[i].platform == IOS)
  {
    var ios := IosVersions(s.versions, appId);
    if |ios| > 0 {
      assert ios[0] in ios;
    } else {
      forall i | 0 <= i < |s.versions| ensures !(s.versions[i].appId == appId && s.versions[i].platform == IOS) {
        if s.versions[i].appId == appId && s.versions[i].platform == IOS {
          assert false;
        }
      }
    }
  }

  /** Editing the server's versions commutes with reading a page of them. */
  lemma {:induction false} IosVersionsOfEdit(vs: seq<Version>, appId: string, e: Edit)
    ensures IosVersions(EditAll(vs, e), appId) == EditAll(IosVersions(vs, appId), e)
  {
    if |vs| > 0 {
      assert EditAll(vs, e)[1..] == EditAll(vs[1..], e);
      IosVersionsOfEdit(vs[1..], appId, e);
      var head := if vs[0].appId == appId && vs[0].platform == IOS then [vs[0]] else [];
      EditAllAppend(head, IosVersions(vs[1..], appId), e);
    }
  }

  lemma EditAllAppend(a: seq<Version>, b: seq<Version>, e: Edit)
    ensures EditAll(a + b, e) == EditAll(a, e) + EditAll(b, e)
  {
    assert |EditAll(a + b, e)| == |EditAll(a, e) + EditAll(b, e)|;
    forall i | 0 <= i < |a + b| ensures EditAll(a + b, e)[i] == (EditAll(a, e) + EditAll(b, e))[i] {
      if i >= |a| {
        assert (a + b)[i] == b[i - |a|];
      }
    }
  }

  lemma PageOfEdit(vs: seq<Version>, appId: string, limit: nat, e: Edit)
    ensures VersionsPage(EditAll(vs, e), appId, limit) == EditAll(VersionsPage(vs, appId, limit), e)
  {
    IosVersionsOfEdit(vs, appId, e);
    var ios := IosVersions(vs, appId);
    assert |Take(EditAll(ios, e), limit)| == |EditAll(Take(ios, limit), e)|;
  }

  /** An edit keeps every version string, so the latest version stays the
      same version. */
  lemma LatestOfEdit(page: seq<Version>, e: Edit)
    requires ComparableVersions(page) && |page| > 0
    ensures ComparableVersions(EditAll(page, e))
    ensures LatestVersion(EditAll(page, e)) == Some(EditVersion(LatestVersion(page).value, e))
  {
    assert VersionStrings(EditAll(page, e)) == VersionStrings(page);
  }

  lemma {:induction false} LocalizationForPatched(ls: seq<Localization>, locale: string, sent: Attrs)
    requires LocalizationFor(ls, locale).Some?
    ensures var found := LocalizationFor(ls, locale).value;
            LocalizationFor(PatchAll(ls, found.id, sent), locale) == Some(found.(attrs := Merge(found.attrs, sent)))
  {
    var found := LocalizationFor(ls, locale).value;
    var patched := PatchAll(ls, found.id, sent);
    if ls[0].locale != Some(locale) {
      assert patched[1..] == PatchAll(ls[1..], found.id, sent);
      LocalizationForPatched(ls[1..], locale, sent);
    }
  }

  lemma {:induction false} LocalizationForAppended(ls: seq<Localization>, l: Localization, locale: string)
    requires LocalizationFor(ls, locale).None? && l.locale == Some(locale)
    ensures LocalizationFor(ls + [l], locale) == Some(l)
  {
    if |ls| > 0 {
      assert (ls + [l])[1..] == ls[1..] + [l];
      LocalizationForAppended(ls[1..], l, locale);
    } else {
      assert ls + [l] == [l];
    }
  }

  /** After a successful push, the latest version is still the latest, and its
      localization for the target locale carries every attribute sent: the
      existing one merged with them, or a new one with exactly them and the
      server's new id. */
  lemma PushUpserts(s: Server, input: string, p: StoreMetadata, newId: nat, appId: string)
    requires ComparableVersions(s.versions)
    requires ResolveAppId(s.apps, input) == Ok(appId)
    requires PushPlan(s, input, p, newId).Ok?
    ensures var target := TargetLocale(p);
            var sent := PushedAttrs(p, target);
            var e := PushPlan(s, input, p, newId).value;
            var before := LatestVersion(VersionsPage(s.versions, appId, LATEST_PAGE));
            var after := LatestVersion(VersionsPage(EditAll(s.versions, e), appId, LATEST_PAGE));
            && before.Some? && after.Some? && after.value.id == before.value.id
            && after.value.versionString == before.value.versionString
            && var l := LocalizationFor(after.value.localizations, target);
               && l.Some? && l.value.locale == Some(target)
               && (l.value.attrs == Merge(l.value.attrs, sent))
               && (LocalizationFor(before.value.localizations, target).Some? ==>
                     l.value == LocalizationFor(before.value.localizations, target).value.(attrs := l.value.attrs))
               && (LocalizationFor(before.value.localizations, target).None? ==>
                     l.value == Localization(newId, Some(target), sent))
  {
    var target := TargetLocale(p);
    var sent := PushedAttrs(p, target);
    var e := PushPlan(s, input, p, newId).value;
    var page := VersionsPage(s.versions, appId, LATEST_PAGE);
    PageOfEdit(s.versions, appId, LATEST_PAGE, e);
    LatestOfEdit(page, e);
    var latest := LatestVersion(page).value;
    match LocalizationFor(latest.localizations, target)
    case Some(found) =>
      LocalizationForPatched(latest.localizations, target, sent);
      MergeTwice(found.attrs, sent);
    case None =>
      LocalizationForAppended(latest.localizations, Localization(newId, Some(target), sent), target);
      MergeTwice(sent, sent);
  }

  /** Merging the same attributes again changes nothing. */
  lemma MergeTwice(current: Attrs, sent: Attrs)
    ensures Merge(Merge(current, sent), sent) == Merge(current, sent)
    ensures Merge(sent, sent) == sent
  {
  }

  /** A push changes only the localization it targets: every version keeps its
      id, app, version string and platform; every localization other than the
      one written keeps its place and content; and only the latest version can
      gain a localization, at its end. */
  lemma PushChangesNothingElse(s: Server, input: string, p: StoreMetadata, newId: nat)
    requires ComparableVersions(s.versions) && IdsBelow(s.versions, newId)
    requires PushPlan(s, input, p, newId).Ok?
    ensures var e := PushPlan(s, input, p, newId).value;
            var vs, after := s.versions, EditAll(s.versions, e);
            var written := if e.PatchEdit? then e.localizationId else newId;
            && |after| == |vs|
            && (forall i :: 0 <= i < |vs| ==>
                  after[i].id == vs[i].id && after[i].appId == vs[i].appId
                  && after[i].versionString == vs[i].versionString && after[i].platform == vs[i].platform)
            && (forall i, j :: 0 <= i < |vs| && 0 <= j < |vs[i].localizations| && vs[i].localizations[j].id != written ==>
                  j < |after[i].localizations| && after[i].localizations[j] == vs[i].localizations[j])
            && (forall i :: 0 <= i < |vs| && (e.PatchEdit? || vs[i].id != e.versionId) ==>
                  |after[i].localizations| == |vs[i].localizations|)
            && (forall i :: 0 <= i < |vs| && e.AppendEdit? && vs[i].id == e.versionId ==>
                  after[i].localizations == vs[i].localizations + [e.localization])
  {
  }

  /** The name is never written: a payload differing only in its name sends the
      same write, as long as it targets the same locale. */
  lemma PushNeverWritesName(s: Server, input: string, p: StoreMetadata, name: Option<LocaleMap>, newId: nat)
    requires ComparableVersions(s.versions)
    requires TargetLocale(p.(name := name)) == TargetLocale(p)
    ensures PushPlan(s, input, p.(name := name), newId) == PushPlan(s, input, p, newId)
  {
    assert PushedAttrs(p.(name := name), TargetLocale(p)) == PushedAttrs(p, TargetLocale(p));
  }

  // ------------------------------------------------------------ pullMetadata

  /** `{ [locale]: value }` when the value is truthy, else undefined. */
  function KeyedBy(locale: string, v: Option<string>): (m: Option<LocaleMap>)
    ensures m.Some? <==> Truthy(v)
    ensures m.Some? ==> m.value == [(locale, v.value)]
  {
    if Truthy(v) then Some([(locale, v.value)]) else None
  }

  /** `pullMetadata(appIdOrBundleId)`: fails as the id resolution does, or
      with 404 for an unknown app; otherwise reads the app and the latest iOS
      version of the first page. Support and marketing URLs and release notes
      are never pulled. */
  function PullMetadata(s: Server, input: string): (r: Result<Pulled, ClientError>)
    requires ComparableVersions(s.versions)
    ensures ResolveAppId(s.apps, input).Err? ==> r == Err(ResolveAppId(s.apps, input).error)
    ensures ResolveAppId(s.apps, input).Ok? ==>
              var appId := ResolveAppId(s.apps, input).value;
              && (r.Err? <==> AppById(s.apps, appId).None?)
              && (r.Err? ==> r.error == RequestFailed(404))
              && (r.Ok? ==> r.value.raw.app == AppById(s.apps, appId).value
                            && r.value.raw.version == LatestVersion(VersionsPage(s.versions, appId, LATEST_PAGE)))
    ensures r.Ok? ==> r.value.metadata.supportUrl.None? && r.value.metadata.marketingUrl.None? && r.value.metadata.whatsNew.None?
  {
    match ResolveAppId(s.apps, input)
    case Err(e) => Err(e)
    case Ok(appId) =>
      match AppById(s.apps, appId)
      case None => Err(RequestFailed(404))
      case Some(app) =>
        var primary := app.primaryLocale.GetOr(DEFAULT_LOCALE);
        var latest := LatestVersion(VersionsPage(s.versions, appId, LATEST_PAGE));
        var loc := if latest.Some? then LocalizationFor(latest.value.localizations, primary) else None;
        var subtitle :=
          if loc.Some? && Truthy(loc.value.attrs.promotionalText) then KeyedBy(primary, loc.value.attrs.promotionalText)
          else KeyedBy(primary, app.subtitle);
        var description := if loc.Some? then KeyedBy(primary, loc.value.attrs.description) else None;
        var keywords := if loc.Some? then KeyedBy(primary, loc.value.attrs.keywords) else None;
        Ok(Pulled(
          StoreMetadata(KeyedBy(primary, app.name), subtitle, description, keywords, None, None, None),
          Raw(app, latest, loc)))
  }

  /** Every field `pullMetadata` fills is a one-entry mapping keyed by the
      app's primary locale ("en-US" when it has none) with a non-empty text;
      description and keywords come only from a localization, and the
      subtitle prefers the localization's promotional text. */
  lemma PulledFields(s: Server, input: string)
    requires ComparableVersions(s.versions)
    requires PullMetadata(s, input).Ok?
    ensures var r := PullMetadata(s, input).value;
            var primary := r.raw.app.primaryLocale.GetOr(DEFAULT_LOCALE);
            var m := r.metadata;
            && (forall f :: f in [m.name, m.subtitle, m.description, m.keywords] && f.Some? ==>
                  |f.value| == 1 && f.value[0].0 == primary && f.value[0].1 != "")
            && (r.raw.localization.None? ==> m.description.None? && m.keywords.None?)
            && (r.raw.localization.Some? && Truthy(r.raw.localization.value.attrs.promotionalText) ==>
                  m.subtitle == Some([(primary, r.raw.localization.value.attrs.promotionalText.value)]))
            && (!(r.raw.localization.Some? && Truthy(r.raw.localization.value.attrs.promotionalText)) ==>
                  m.subtitle == KeyedBy(primary, r.raw.app.subtitle))
            && m.supportUrl.None? && m.marketingUrl.None? && m.whatsNew.None?
  {
  }

  /** Pushing and then pulling: when the push targets the app's primary
      locale, the pull reads back every non-empty description, keyword list
      and subtitle the push sent. */
  lemma PullAfterPush(s: Server, input: string, p: StoreMetadata, newId: nat, app: App)
    requires ComparableVersions(s.versions)
    requires PushPlan(s, input, p, newId).Ok?
    requires ResolveAppId(s.apps, input).Ok? && AppById(s.apps, ResolveAppId(s.apps, input).value) == Some(app)
    requires app.primaryLocale.GetOr(DEFAULT_LOCALE) == TargetLocale(p)
    ensures var after := Server(s.apps, EditAll(s.versions, PushPlan(s, input, p, newId).value));
            var sent := PushedAttrs(p, TargetLocale(p));
            var target := TargetLocale(p);
            var pulled := PullMetadata(after, input);
            && pulled.Ok?
            && (Truthy(sent.description) ==> pulled.value.metadata.description == Some([(target, sent.description.value)]))
            && (Truthy(sent.keywords) ==> pulled.value.metadata.keywords == Some([(target, sent.keywords.value)]))
            && (Truthy(sent.promotionalText) ==> pulled.value.metadata.subtitle == Some([(target, sent.promotionalText.value)]))
  {
    var appId := ResolveAppId(s.apps, input).value;
    var e := PushPlan(s, input, p, newId).value;
    PushUpserts(s, input, p, newId, appId);
  }

  // ------------------------------------------------------------ createVersion

  /** What `createVersion` returns and the server's versions afterwards,
      decided on the state before the call; a new version gets id `newId`. */
  function CreateVersionPlan(s: Server, input: string, versionString: string, newId: nat)
    : (Result<CreateVersionResult, ClientError>, seq<Version>)
  {
    match ResolveAppId(s.apps, input)
    case Err(e) => (Err(e), s.versions)
    case Ok(appId) =>
      match ListVersions(s, appId, VERSION_LOOKUP_PAGE)
      case Err(e) => (Err(e), s.versions)
      case Ok(page) =>
        match FindVersion(page, versionString)
        case Some(existing) => (Ok(CreateVersionResult(versionString, FoundVersion(existing))), s.versions)
        case None =>
          if !IsVersionString(versionString) then (Err(RequestFailed(409)), s.versions)
          else
            var v := Version(newId, appId, versionString, IOS, []);
            (Ok(CreateVersionResult(versionString, PostBody(v))), s.versions + [v])
  }

  /** `createVersion(appIdOrBundleId, version)` */
  method CreateVersion(remote: RemoteStore, input: string, versionString: string)
    returns (r: Result<CreateVersionResult, ClientError>)
    requires remote.Valid()
    modifies remote
    ensures remote.Valid() && remote.apps == old(remote.apps)
    ensures (r, remote.versions) == CreateVersionPlan(old(remote.View()), input, versionString, old(remote.nextId))
    ensures remote.versions == old(remote.versions) ==> remote.log == old(remote.log) && remote.nextId == old(remote.nextId)
    ensures remote.versions != old(remote.versions) ==>
              r.Ok? && r.value.raw.PostBody?
              && remote.log == old(remote.log) + [PostedVersion(r.value.raw.data.appId, versionString)]
              && remote.nextId == old(remote.nextId) + 1
  {
    var s := remote.View();
    var resolved := ResolveAppId(remote.apps, input);
    if resolved.Err? {
      return Err(resolved.error);
    }
    var appId := resolved.value;
    var listed := ListVersions(s, appId, VERSION_LOOKUP_PAGE);
    if listed.Err? {
      return Err(listed.error);
    }
    var existing := FindVersion(listed.value, versionString);
    if existing.Some? {
      return Ok(CreateVersionResult(versionString, FoundVersion(existing.value)));
    }
    var status, created := remote.PostVersion(appId, versionString);
    if created.None? {
      return Err(RequestFailed(status));
    }
    r := Ok(CreateVersionResult(versionString, PostBody(created.value)));
  }

  /** `createVersion` answers with the version it found, unchanged servers, or
      with the POST body of a new iOS version of the resolved app, exactly when
      it added that version; either way the version string is the one asked
      for. */
  lemma CreateVersionShapes(s: Server, input: string, versionString: string, newId: nat)
    ensures var (r, vs) := CreateVersionPlan(s, input, versionString, newId);
            && (r.Err? ==> vs == s.versions)
            && (r.Ok? ==> r.value.version == versionString && RawVersion(r.value.raw).versionString == versionString)
            && (r.Ok? ==> (r.value.raw.PostBody? <==> vs != s.versions))
            && (r.Ok? && r.value.raw.FoundVersion? ==> r.value.raw.found in s.versions)
            && (r.Ok? && r.value.raw.PostBody? ==>
                  && ResolveAppId(s.apps, input).Ok?
                  && vs == s.versions + [r.value.raw.data]
                  && r.value.raw.data == Version(newId, ResolveAppId(s.apps, input).value, versionString, IOS, []))
  {
    var (r, vs) := CreateVersionPlan(s, input, versionString, newId);
    if r.Ok? && r.value.raw.FoundVersion? {
      var appId := ResolveAppId(s.apps, input).value;
      var page := ListVersions(s, appId, VERSION_LOOKUP_PAGE).value;
      assert r.value.raw.found in page;
    }
  }

  lemma IosVersionsAppend(vs: seq<Version>, v: Version, appId: string)
    requires v.appId == appId && v.platform == IOS
    ensures IosVersions(vs + [v], appId) == IosVersions(vs, appId) + [v]
  {
    IosVersionsDistributes(vs, [v], appId);
    assert [v][1..] == [];
  }

  /** `createVersion` is idempotent while the app has fewer than 50 iOS
      versions: a second call with the same version string finds the version
      the first call made (or found) and writes nothing. */
  lemma CreateVersionIdempotent(s: Server, input: string, versionString: string, n1: nat, n2: nat, appId: string)
    requires ResolveAppId(s.apps, input) == Ok(appId)
    requires |IosVersions(s.versions, appId)| < VERSION_LOOKUP_PAGE
    ensures var (r1, vs1) := CreateVersionPlan(s, input, versionString, n1);
            var (r2, vs2) := CreateVersionPlan(Server(s.apps, vs1), input, versionString, n2);
            && vs2 == vs1
            && (r1.Ok? ==> r2.Ok? && r2.value.raw.FoundVersion? && r2.value.raw.found.versionString == versionString)
  {
    var (r1, vs1) := CreateVersionPlan(s, input, versionString, n1);
    if AppExists(s.apps, appId) && r1.Ok? {
      FoundAfterCreate(s, input, versionString, n1, appId);
      assert ListVersions(Server(s.apps, vs1), appId, VERSION_LOOKUP_PAGE)
          == Ok(VersionsPage(vs1, appId, VERSION_LOOKUP_PAGE));
    }
  }

  /** After a successful `createVersion`, the version string is on the first
      page of the app's iOS versions. */
  lemma FoundAfterCreate(s: Server, input: string, versionString: string, newId: nat, appId: string)
    requires ResolveAppId(s.apps, input) == Ok(appId)
    requires |IosVersions(s.versions, appId)| < VERSION_LOOKUP_PAGE
    requires CreateVersionPlan(s, input, versionString, newId).0.Ok?
    ensures FindVersion(VersionsPage(CreateVersionPlan(s, input, versionString, newId).1, appId, VERSION_LOOKUP_PAGE), versionString).Some?
  {
    var vs1 := CreateVersionPlan(s, input, versionString, newId).1;
    var page1 := VersionsPage(vs1, appId, VERSION_LOOKUP_PAGE);
    if vs1 != s.versions {
      var v := Version(newId, appId, versionString, IOS, []);
      assert vs1 == s.versions + [v];
      IosVersionsAppend(s.versions, v, appId);
      assert page1 == IosVersions(s.versions, appId) + [v];
      assert page1[|page1| - 1] == v;
    } else {
      assert page1 == VersionsPage(s.versions, appId, VERSION_LOOKUP_PAGE);
    }
  }

  // --------------------------------------------------------- pullReleaseNotes

  /** The note a localization gives: both its locale and its "what's new" text
      must be truthy. */
  function NoteOf(l: Localization): seq<ReleaseNote> {
    if Truthy(l.locale) && Truthy(l.attrs.whatsNew) then [ReleaseNote(l.locale.value, l.attrs.whatsNew.value)] else []
  }

  function NotesOfLocalizations(ls: seq<Localization>): seq<ReleaseNote> {
    if |ls| == 0 then [] else NotesOfLocalizations(ls[..|ls| - 1]) + NoteOf(ls[|ls| - 1])
  }

  function NotesOfVersions(vs: seq<Version>): seq<ReleaseNote> {
    if |vs| == 0 then []
    else NotesOfVersions(vs[..|vs| - 1]) + NotesOfLocalizations(Take(vs[|vs| - 1].localizations, LOCALIZATION_PAGE))
  }

  /** The notes `pullReleaseNotes` returns, from the state of the server. */
  function ReleaseNotes(s: Server, input: string): Result<seq<ReleaseNote>, ClientError> {
    match ResolveAppId(s.apps, input)
    case Err(e) => Err(e)
    case Ok(appId) =>
      match ListVersions(s, appId, RELEASE_NOTES_PAGE)
      case Err(e) => Err(e)
      case Ok(page) => Ok(NotesOfVersions(page))
  }

  /** The inner loop of `pullReleaseNotes`: one version's localizations,
      each pushing its note onto `notes`. */
  method PushNotes(notes: seq<ReleaseNote>, locs: seq<Localization>) returns (out: seq<ReleaseNote>)
    ensures out == notes + NotesOfLocalizations(locs)
  {
    out := notes;
    var j := 0;
    while j < |locs|
      invariant 0 <= j <= |locs|
      invariant out == notes + NotesOfLocalizations(locs[..j])
    {
      var loc := locs[j];
      assert locs[..j + 1][..j] == locs[..j];
      assert NotesOfLocalizations(locs[..j + 1]) == NotesOfLocalizations(locs[..j]) + NoteOf(loc);
      if loc.locale.Some? && loc.locale.value != "" && loc.attrs.whatsNew.Some? && loc.attrs.whatsNew.value != "" {
        out := out + [ReleaseNote(loc.locale.value, loc.attrs.whatsNew.value)];
      }
      j := j + 1;
    }
    assert locs[..j] == locs;
  }

  /** `pullReleaseNotes(appIdOrBundleId)`: the loop over the listed versions,
      collecting the notes of each one's localizations. */
  method PullReleaseNotes(remote: RemoteStore, input: string) returns (r: Result<seq<ReleaseNote>, ClientError>)
    ensures r == ReleaseNotes(remote.View(), input)
  {
    var s := remote.View();
    var resolved := ResolveAppId(s.apps, input);
    if resolved.Err? {
      return Err(resolved.error);
    }
    var listed := ListVersions(s, resolved.value, RELEASE_NOTES_PAGE);
    if listed.Err? {
      return Err(listed.error);
    }
    var versions := listed.value;
    var notes: seq<ReleaseNote> := [];
    var i := 0;
    while i < |versions|
      invariant 0 <= i <= |versions|
      invariant notes == NotesOfVersions(versions[..i])
    {
      var locs := Take(versions[i].localizations, LOCALIZATION_PAGE);
      assert versions[..i + 1][..i] == versions[..i] && versions[..i + 1][i] == versions[i];
      assert NotesOfVersions(versions[..i + 1]) == NotesOfVersions(versions[..i]) + NotesOfLocalizations(locs);
      notes := PushNotes(notes, locs);
      i := i + 1;
    }
    assert versions[..i] == versions;
    assert ReleaseNotes(s, input) == Ok(NotesOfVersions(versions));
    r := Ok(notes);
  }

  /** A note is in the list exactly when one of the first 200 localizations
      of one of the listed versions has that locale and that text, both
      non-empty. */
  lemma {:induction false} NoteMembership(vs: seq<Version>, note: ReleaseNote)
    ensures note in NotesOfVersions(vs)
        <==> exists i, j :: 0 <= i < |vs| && 0 <= j < |Take(vs[i].localizations, LOCALIZATION_PAGE)|
               && NoteOf(Take(vs[i].localizations, LOCALIZATION_PAGE)[j]) == [note]
  {
    if |vs| > 0 {
      var last := |vs| - 1;
      var init := vs[..last];
      var ls := Take(vs[last].localizations, LOCALIZATION_PAGE);
      assert NotesOfVersions(vs) == NotesOfVersions(init) + NotesOfLocalizations(ls);
      NoteMembership(init, note);
      LocalizationNoteMembership(ls, note);
      if note in NotesOfVersions(init) {
        var i, j :| 0 <= i < |init| && 0 <= j < |Take(init[i].localizations, LOCALIZATION_PAGE)|
                    && NoteOf(Take(init[i].localizations, LOCALIZATION_PAGE)[j]) == [note];
        assert vs[i] == init[i];
      } else if note in NotesOfLocalizations(ls) {
        var j :| 0 <= j < |ls| && NoteOf(ls[j]) == [note];
        assert vs[last] == vs[|vs| - 1];
      } else {
        forall i, j | 0 <= i < |vs| && 0 <= j < |Take(vs[i].localizations, LOCALIZATION_PAGE)|
          ensures NoteOf(Take(vs[i].localizations, LOCALIZATION_PAGE)[j]) != [note]
        {
          if i < last {
            assert vs[i] == init[i];
          }
        }
      }
    }
  }

  lemma {:induction false} LocalizationNoteMembership(ls: seq<Localization>, note: ReleaseNote)
    ensures note in NotesOfLocalizations(ls) <==> exists j :: 0 <= j < |ls| && NoteOf(ls[j]) == [note]
  {
    if |ls| > 0 {
      var last := |ls| - 1;
      LocalizationNoteMembership(ls[..last], note);
      assert forall j :: 0 <= j < last ==> ls[..last][j] == ls[j];
      if note in NoteOf(ls[last]) {
        assert NoteOf(ls[last]) == [note];
      }
    }
  }
}
