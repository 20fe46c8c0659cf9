/** The App Store Connect server as packages/app-store/client.ts sees it:
    apps, each app's versions, and each version's localizations. The client
    reads it through filtered GETs and changes it through POST and PATCH.

    The server is not code of the repository; it is the collaborator the
    client's requests go to, and what it answers is stated here once:
    filters keep server order, `limit` takes a prefix, a PATCH changes only
    the attributes it sends, a POST appends a resource with a fresh id, and
    a request naming a resource that does not exist is answered 404. */
module Remote {
  import opened Common
  import opened Text
  import opened VersionOrder

  const IOS: string := "IOS"

  datatype App = App(
    id: string,
    name: Option<string>,
    subtitle: Option<string>,
    primaryLocale: Option<string>,
    bundleId: Option<string>)

  /** The writable attributes of an App Store version localization; None is
      an attribute the resource does not have (or a request does not send). */
  datatype Attrs = Attrs(
    description: Option<string>,
    keywords: Option<string>,
    promotionalText: Option<string>,
    supportUrl: Option<string>,
    marketingUrl: Option<string>,
    whatsNew: Option<string>)

  datatype Localization = Localization(id: nat, locale: Option<string>, attrs: Attrs)

  datatype Version = Version(
    id: nat,
    appId: string,
    versionString: string,
    platform: string,
    localizations: seq<Localization>)

  /** What the server holds, as a value. */
  datatype Server = Server(apps: seq<App>, versions: seq<Version>)

  /** The writes the client sends, in order. */
  datatype Write =
    | PatchedLocalization(localizationId: nat, attrs: Attrs)
    | PostedLocalization(versionId: nat, locale: string, attrs: Attrs)
    | PostedVersion(appId: string, versionString: string)

  /** Every version string on the server is made of digits and dots. */
  predicate ComparableVersions(vs: seq<Version>) {
    forall i :: 0 <= i < |vs| ==> IsVersionString(vs[i].versionString)
  }

  predicate AppExists(apps: seq<App>, appId: string) {
    exists i :: 0 <= i < |apps| && apps[i].id == appId
  }

  /** GET v1/apps/{appId}: the app, or None for the 404. */
  function AppById(apps: seq<App>, appId: string): (r: Option<App>)
    ensures r.Some? <==> AppExists(apps, appId)
    ensures r.Some? ==> r.value in apps && r.value.id == appId
  {
    if |apps| == 0 then None
    else if apps[0].id == appId then Some(apps[0])
    else
      var r := AppById(apps[1..], appId);
      assert AppExists(apps[1..], appId) ==> AppExists(apps, appId);
      assert AppExists(apps, appId) ==> AppExists(apps[1..], appId) by {
        if AppExists(apps, appId) {
          var i :| 0 <= i < |apps| && apps[i].id == appId;
          assert apps[1..][i - 1].id == appId;
        }
      }
      r
  }

  /** GET v1/apps?filter[bundleId]=b, then `data[0]?.id`: the id of the first
      app with that bundle id. */
  function FindAppIdByBundleId(apps: seq<App>, bundleId: string): (r: Option<string>)
    ensures r.None? <==> forall i :: 0 <= i < |apps| ==> apps[i].bundleId != Some(bundleId)
    ensures r.Some? ==> exists i :: 0 <= i < |apps| && apps[i].bundleId == Some(bundleId) && apps[i].id == r.value
                          && forall j :: 0 <= j < i ==> apps[j].bundleId != Some(bundleId)
  {
    if |apps| == 0 then None
    else if apps[0].bundleId == Some(bundleId) then Some(apps[0].id)
    else
      var r := FindAppIdByBundleId(apps[1..], bundleId);
      assert forall i :: 1 <= i < |apps| ==> apps[i] == apps[1..][i - 1];
      if r.Some? then
        var i :| 0 <= i < |apps[1..]| && apps[1..][i].bundleId == Some(bundleId) && apps[1..][i].id == r.value
                 && forall j :: 0 <= j < i ==> apps[1..][j].bundleId != Some(bundleId);
        assert apps[i + 1].bundleId == Some(bundleId) && forall j :: 0 <= j < i + 1 ==> apps[j].bundleId != Some(bundleId);
        r
      else r
  }

  /** `filter[platform]=IOS` on an app's versions, in server order. */
  function IosVersions(vs: seq<Version>, appId: string): (r: seq<Version>)
    ensures |r| <= |vs|
    ensures forall v :: v in r <==> v in vs && v.appId == appId && v.platform == IOS
  {
    if |vs| == 0 then []
    else
      assert forall v :: v in vs <==> v == vs[0] || v in vs[1..];
      (if vs[0].appId == appId && vs[0].platform == IOS then [vs[0]] else []) + IosVersions(vs[1..], appId)
  }

  /** The filter keeps every iOS version of the app as often as the server lists it. */
  lemma {:induction false} IosVersionsCounts(vs: seq<Version>, appId: string, v: Version)
    requires v.appId == appId && v.platform == IOS
    ensures multiset(IosVersions(vs, appId))[v] == multiset(vs)[v]
  {
    if |vs| > 0 {
      IosVersionsCounts(vs[1..], appId, v);
      assert vs == [vs[0]] + vs[1..];
      var head := if vs[0].appId == appId && vs[0].platform == IOS then [vs[0]] else [];
      assert IosVersions(vs, appId) == head + IosVersions(vs[1..], appId);
      assert multiset(vs) == multiset([vs[0]]) + multiset(vs[1..]);
    }
  }

  /** The filter keeps server order: it works piece by piece. */
  lemma {:induction false} IosVersionsDistributes(a: seq<Version>, b: seq<Version>, appId: string)
    ensures IosVersions(a + b, appId) == IosVersions(a, appId) + IosVersions(b, appId)
  {
    if |a| > 0 {
      var ab := a + b;
      assert ab[0] == a[0] && ab[1..] == a[1..] + b;
      IosVersionsDistributes(a[1..], b, appId);
      var head := if a[0].appId == appId && a[0].platform == IOS then [a[0]] else [];
      assert IosVersions(ab, appId) == head + IosVersions(a[1..] + b, appId);
      assert IosVersions(a, appId) == head + IosVersions(a[1..], appId);
    } else {
      assert a + b == b;
    }
  }

  /** `limit=n`: the first n items. */
  function Take<T>(s: seq<T>, n: nat): (r: seq<T>)
    ensures |r| <= n && |r| <= |s|
    ensures |s| <= n ==> r == s
    ensures |s| > n ==> |r| == n && r == s[..n]
    ensures forall i :: 0 <= i < |r| ==> r[i] == s[i]
    ensures forall x :: x in r ==> x in s
  {
    if |s| <= n then s else s[..n]
  }

  /** GET v1/apps/{appId}/appStoreVersions?filter[platform]=IOS&limit=n */
  function VersionsPage(vs: seq<Version>, appId: string, limit: nat): (page: seq<Version>)
    ensures ComparableVersions(vs) ==> ComparableVersions(page)
    ensures forall i :: 0 <= i < |page| ==> page[i] in vs
  {
    var page := Take(IosVersions(vs, appId), limit);
    assert forall i :: 0 <= i < |page| ==> page[i] in vs;
    page
  }

  /** A localization found on a stored version is stored: a PATCH of its id finds it. */
  lemma FoundLocalizationIsStored(vs: seq<Version>, v: Version, locale: string)
    requires v in vs && LocalizationFor(v.localizations, locale).Some?
    ensures HasLocalization(vs, LocalizationFor(v.localizations, locale).value.id)
    ensures HasVersion(vs, v.id)
  {
    var l := LocalizationFor(v.localizations, locale).value;
    var i :| 0 <= i < |vs| && vs[i] == v;
    var j :| 0 <= j < |v.localizations| && v.localizations[j] == l;
    assert vs[i].localizations[j].id == l.id;
  }

  /** GET v1/appStoreVersions/{id}/appStoreVersionLocalizations?filter[locale]=l&limit=1,
      then `data[0]`: the first localization of the version with that locale. */
  function LocalizationFor(ls: seq<Localization>, locale: string): (r: Option<Localization>)
    ensures r.None? <==> forall j :: 0 <= j < |ls| ==> ls[j].locale != Some(locale)
    ensures r.Some? ==> exists j :: 0 <= j < |ls| && ls[j] == r.value && r.value.locale == Some(locale)
                          && forall k :: 0 <= k < j ==> ls[k].locale != Some(locale)
  {
    if |ls| == 0 then None
    else if ls[0].locale == Some(locale) then Some(ls[0])
    else
      var r := LocalizationFor(ls[1..], locale);
      assert forall j :: 1 <= j < |ls| ==> ls[j] == ls[1..][j - 1];
      if r.Some? then
        var j :| 0 <= j < |ls[1..]| && ls[1..][j] == r.value && r.value.locale == Some(locale)
                 && forall k :: 0 <= k < j ==> ls[1..][k].locale != Some(locale);
        assert ls[j + 1] == r.value && forall k :: 0 <= k < j + 1 ==> ls[k].locale != Some(locale);
        r
      else r
  }

  /** A PATCH changes exactly the attributes it sends (JSON drops the
      undefined ones). */
  function Merge(current: Attrs, sent: Attrs): (m: Attrs)
    ensures sent.description.Some? ==> m.description == sent.description
    ensures sent.description.None? ==> m.description == current.description
    ensures sent.keywords.Some? ==> m.keywords == sent.keywords
    ensures sent.keywords.None? ==> m.keywords == current.keywords
    ensures sent.promotionalText.Some? ==> m.promotionalText == sent.promotionalText
    ensures sent.promotionalText.None? ==> m.promotionalText == current.promotionalText
    ensures sent.supportUrl.Some? ==> m.supportUrl == sent.supportUrl
    ensures sent.supportUrl.None? ==> m.supportUrl == current.supportUrl
    ensures sent.marketingUrl.Some? ==> m.marketingUrl == sent.marketingUrl
    ensures sent.marketingUrl.None? ==> m.marketingUrl == current.marketingUrl
    ensures sent.whatsNew.Some? ==> m.whatsNew == sent.whatsNew
    ensures sent.whatsNew.None? ==> m.whatsNew == current.whatsNew
  {
    Attrs(
      Override(current.description, sent.description),
      Override(current.keywords, sent.keywords),
      Override(current.promotionalText, sent.promotionalText),
      Override(current.supportUrl, sent.supportUrl),
      Override(current.marketingUrl, sent.marketingUrl),
      Override(current.whatsNew, sent.whatsNew))
  }

  function Override(current: Option<string>, sent: Option<string>): Option<string> {
    if sent.Some? then sent else current
  }

  /** A change of the server's versions: a PATCH of the localization with an
      id, or a localization appended to the version with an id. */
  datatype Edit =
    | PatchEdit(localizationId: nat, attrs: Attrs)
    | AppendEdit(versionId: nat, localization: Localization)

  /** Every localization with the id gets the attributes merged in. */
  function PatchAll(ls: seq<Localization>, lid: nat, sent: Attrs): (r: seq<Localization>)
    ensures |r| == |ls|
    ensures forall j :: 0 <= j < |ls| ==> r[j].id == ls[j].id && r[j].locale == ls[j].locale
    ensures forall j :: 0 <= j < |ls| ==> r[j] == if ls[j].id == lid then ls[j].(attrs := Merge(ls[j].attrs, sent)) else ls[j]
  {
    if |ls| == 0 then []
    else
      var r := PatchAll(ls[1..], lid, sent);
      var head := if ls[0].id == lid then ls[0].(attrs := Merge(ls[0].attrs, sent)) else ls[0];
      assert forall j :: 1 <= j < |ls| ==> ([head] + r)[j] == r[j - 1] && ls[j] == ls[1..][j - 1];
      [head] + r
  }

  function EditVersion(v: Version, e: Edit): (r: Version)
    ensures r.id == v.id && r.appId == v.appId && r.versionString == v.versionString && r.platform == v.platform
  {
    match e
    case PatchEdit(lid, sent) => v.(localizations := PatchAll(v.localizations, lid, sent))
    case AppendEdit(vid, l) => if v.id == vid then v.(localizations := v.localizations + [l]) else v
  }

  function EditAll(vs: seq<Version>, e: Edit): (r: seq<Version>)
    ensures |r| == |vs|
    ensures forall i :: 0 <= i < |vs| ==> r[i] == EditVersion(vs[i], e)
    ensures ComparableVersions(vs) ==> ComparableVersions(r)
  {
    if |vs| == 0 then []
    else
      var r := EditAll(vs[1..], e);
      assert forall i :: 1 <= i < |vs| ==> ([EditVersion(vs[0], e)] + r)[i] == r[i - 1] && vs[i] == vs[1..][i - 1];
      [EditVersion(vs[0], e)] + r
  }

  predicate HasVersion(vs: seq<Version>, vid: nat) {
    exists i :: 0 <= i < |vs| && vs[i].id == vid
  }

  predicate HasLocalization(vs: seq<Version>, lid: nat) {
    exists i, j :: 0 <= i < |vs| && 0 <= j < |vs[i].localizations| && vs[i].localizations[j].id == lid
  }

  /** Every id the server has handed out is below `next`. */
  predicate IdsBelow(vs: seq<Version>, next: nat) {
    forall i :: 0 <= i < |vs| ==>
      vs[i].id < next && forall j :: 0 <= j < |vs[i].localizations| ==> vs[i].localizations[j].id < next
  }

  lemma EditKeepsIdsBelow(vs: seq<Version>, e: Edit, next: nat)
    requires IdsBelow(vs, next)
    requires e.AppendEdit? ==> e.localization.id < next
    ensures IdsBelow(EditAll(vs, e), next)
  {
    var r := EditAll(vs, e);
    forall i | 0 <= i < |vs|
      ensures r[i].id < next && forall j :: 0 <= j < |r[i].localizations| ==> r[i].localizations[j].id < next
    {
      match e
      case PatchEdit(lid, sent) =>
      case AppendEdit(vid, l) =>
        if vs[i].id == vid {
          assert forall j :: 0 <= j < |vs[i].localizations| ==> r[i].localizations[j] == vs[i].localizations[j];
        }
    }
  }

  /** The server. Its state is the fields; `log` records the writes it
      accepted, in order. */
  class RemoteStore {
    var apps: seq<App>
    var versions: seq<Version>
    var nextId: nat
    var log: seq<Write>

    function View(): Server
      reads this
    {
      Server(apps, versions)
    }

    ghost predicate Valid()
      reads this
    {
      ComparableVersions(versions) && IdsBelow(versions, nextId)
    }

    constructor (apps: seq<App>, versions: seq<Version>, nextId: nat)
      requires ComparableVersions(versions) && IdsBelow(versions, nextId)
      ensures Valid()
      ensures this.apps == apps && this.versions == versions && this.nextId == nextId && log == []
    {
      this.apps := apps;
      this.versions := versions;
      this.nextId := nextId;
      log := [];
    }

    /** PATCH v1/appStoreVersionLocalizations/{lid} */
    method Patch(lid: nat, sent: Attrs) returns (status: nat)
      requires Valid()
      modifies this
      ensures Valid()
      ensures apps == old(apps) && nextId == old(nextId)
      ensures HasLocalization(old(versions), lid) ==>
                status == 200
                && versions == EditAll(old(versions), PatchEdit(lid, sent))
                && log == old(log) + [PatchedLocalization(lid, sent)]
      ensures !HasLocalization(old(versions), lid) ==>
                status == 404 && versions == old(versions) && log == old(log)
    {
      if HasLocalization(versions, lid) {
        EditKeepsIdsBelow(versions, PatchEdit(lid, sent), nextId);
        versions := EditAll(versions, PatchEdit(lid, sent));
        log := log + [PatchedLocalization(lid, sent)];
        status := 200;
      } else {
        status := 404;
      }
    }

    /** POST v1/appStoreVersionLocalizations with a relationship to version `vid`. */
    method PostLocalization(vid: nat, locale: string, sent: Attrs) returns (status: nat, created: Option<Localization>)
      requires Valid()
      modifies this
      ensures Valid()
      ensures apps == old(apps)
      ensures HasVersion(old(versions), vid) ==>
                var l := Localization(old(nextId), Some(locale), sent);
                status == 201 && created == Some(l)
                && versions == EditAll(old(versions), AppendEdit(vid, l))
                && nextId == old(nextId) + 1
                && log == old(log) + [PostedLocalization(vid, locale, sent)]
      ensures !HasVersion(old(versions), vid) ==>
                status == 404 && created == None
                && versions == old(versions) && nextId == old(nextId) && log == old(log)
    {
      if HasVersion(versions, vid) {
        var l := Localization(nextId, Some(locale), sent);
        EditKeepsIdsBelow(versions, AppendEdit(vid, l), nextId + 1);
        versions := EditAll(versions, AppendEdit(vid, l));
        nextId := nextId + 1;
        log := log + [PostedLocalization(vid, locale, sent)];
        status, created := 201, Some(l);
      } else {
        status, created := 404, None;
      }
    }

    /** POST v1/appStoreVersions with a relationship to app `appId`; a version
        string the server cannot read is refused with 409. */
    method PostVersion(appId: string, versionString: string) returns (status: nat, created: Option<Version>)
      requires Valid()
      modifies this
      ensures Valid()
      ensures apps == old(apps)
      ensures AppExists(old(apps), appId) && IsVersionString(versionString) ==>
                var v := Version(old(nextId), appId, versionString, IOS, []);
                status == 201 && created == Some(v)
                && versions == old(versions) + [v]
                && nextId == old(nextId) + 1
                && log == old(log) + [PostedVersion(appId, versionString)]
      ensures !AppExists(old(apps), appId) ==>
                status == 404 && created == None && versions == old(versions) && nextId == old(nextId) && log == old(log)
      ensures AppExists(old(apps), appId) && !IsVersionString(versionString) ==>
                status == 409 && created == None && versions == old(versions) && nextId == old(nextId) && log == old(log)
    {
      if !AppExists(apps, appId) {
        status, created := 404, None;
      } else if !IsVersionString(versionString) {
        status, created := 409, None;
      } else {
        var v := Version(nextId, appId, versionString, IOS, []);
        versions := versions + [v];
        nextId := nextId + 1;
        log := log + [PostedVersion(appId, versionString)];
        status, created := 201, Some(v);
      }
    }
  }
}
