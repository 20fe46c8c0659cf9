/** packages/utils/translate-release-notes.ts: from a registered app's
    per-store locale lists, the translation requests to make and, once the
    translations are in, the translations each store receives. */
module Translate {
  import opened Common

  datatype StoreType = AppStore | GooglePlay | Both

  const DEFAULT_SOURCE_LOCALE: string := "en-US"

  /** The part of a registered app's store entry these functions read. */
  datatype StoreInfo = StoreInfo(supportedLocales: Option<seq<string>>)

  datatype RegisteredApp = RegisteredApp(appStore: Option<StoreInfo>, googlePlay: Option<StoreInfo>)

  datatype StoreLocales = StoreLocales(appStore: seq<string>, googlePlay: seq<string>)

  datatype TranslationRequest = TranslationRequest(
    sourceText: string,
    sourceLocale: string,
    targetLocales: seq<string>,
    store: StoreType)

  datatype TranslationRequests = TranslationRequests(
    appStore: Option<TranslationRequest>,
    googlePlay: Option<TranslationRequest>)

  /** `Record<locale, text>` per store. */
  datatype StoreTranslations = StoreTranslations(appStore: map<string, string>, googlePlay: map<string, string>)

  /** `store === "both" || store === which` */
  predicate Selects(store: StoreType, which: StoreType) {
    store == Both || store == which
  }

  /** `info?.supportedLocales` when the store is selected, else nothing. */
  function SelectedLocales(selected: bool, info: Option<StoreInfo>): (ls: seq<string>)
    ensures selected && info.Some? && info.value.supportedLocales.Some? ==> ls == info.value.supportedLocales.value
    ensures !(selected && info.Some? && info.value.supportedLocales.Some?) ==> ls == []
  {
    if selected && info.Some? && info.value.supportedLocales.Some? then info.value.supportedLocales.value else []
  }

  /** What `collectSupportedLocales` returns. */
  function SupportedLocales(app: RegisteredApp, store: StoreType): StoreLocales {
    StoreLocales(SelectedLocales(Selects(store, AppStore), app.appStore),
                 SelectedLocales(Selects(store, GooglePlay), app.googlePlay))
  }

  /** `collectSupportedLocales({app, store})`: each list starts empty and
      receives the store's supported locales, in order, when the store is
      selected and has a list. */
  method CollectSupportedLocales(app: RegisteredApp, store: StoreType) returns (locales: StoreLocales)
    ensures locales == SupportedLocales(app, store)
    ensures store == AppStore ==> locales.googlePlay == []
    ensures store == GooglePlay ==> locales.appStore == []
  {
    var appStoreLocales: seq<string> := [];
    var googlePlayLocales: seq<string> := [];
    if Selects(store, AppStore) && app.appStore.Some? && app.appStore.value.supportedLocales.Some? {
      appStoreLocales := appStoreLocales + app.appStore.value.supportedLocales.value;
    }
    if Selects(store, GooglePlay) && app.googlePlay.Some? && app.googlePlay.value.supportedLocales.Some? {
      googlePlayLocales := googlePlayLocales + app.googlePlay.value.supportedLocales.value;
    }
    locales := StoreLocales(appStoreLocales, googlePlayLocales);
  }

  // ------------------------------------------------------- translation requests

  /** `locales.filter(l => l !== x)` */
  function Without(locales: seq<string>, x: string): (r: seq<string>)
    ensures x !in r
    ensures forall y :: y != x ==> multiset(r)[y] == multiset(locales)[y]
  {
    if |locales| == 0 then []
    else
      var rest := Without(locales[1..], x);
      assert locales == [locales[0]] + locales[1..];
      if locales[0] == x then rest else [locales[0]] + rest
  }

  /** The filter keeps order: it works piece by piece. */
  lemma {:induction false} WithoutDistributes(a: seq<string>, b: seq<string>, x: string)
    ensures Without(a + b, x) == Without(a, x) + Without(b, x)
  {
    if |a| > 0 {
      var ab := a + b;
      assert ab[0] == a[0] && ab[1..] == a[1..] + b;
      WithoutDistributes(a[1..], b, x);
      var head := if a[0] == x then [] else [a[0]];
      assert Without(ab, x) == head + Without(a[1..] + b, x);
      assert Without(a, x) == head + Without(a[1..], x);
    } else {
      assert a + b == b;
    }
  }

  /** The guard at the request: the filtered list is empty only when every
      locale is the source locale, and then the list contains it. */
  lemma {:induction false} RequestGuardHolds(locales: seq<string>, x: string)
    requires |locales| > 0
    ensures |Without(locales, x)| > 0 || x in locales
  {
    if locales[0] != x {
      assert Without(locales, x)[0] == locales[0];
    }
  }

  /** The request for one store, when its list is non-empty. */
  function RequestFor(locales: seq<string>, sourceText: string, sourceLocale: string, store: StoreType)
    : Option<TranslationRequest>
  {
    if |locales| > 0 then
      var targets := Without(locales, sourceLocale);
      if |targets| > 0 || sourceLocale in locales then Some(TranslationRequest(sourceText, sourceLocale, targets, store))
      else None
    else None
  }

  /** What `createTranslationRequests` returns; `sourceLocale` and `store`
      are the optional arguments. */
  function TranslationRequestsOf(app: RegisteredApp, sourceText: string, sourceLocale: Option<string>, store: Option<StoreType>)
    : TranslationRequests
  {
    var source := sourceLocale.GetOr(DEFAULT_SOURCE_LOCALE);
    var locales := SupportedLocales(app, store.GetOr(Both));
    TranslationRequests(RequestFor(locales.appStore, sourceText, source, AppStore),
                        RequestFor(locales.googlePlay, sourceText, source, GooglePlay))
  }

  /** `createTranslationRequests({app, sourceText, sourceLocale, store})` */
  method CreateTranslationRequests(app: RegisteredApp, sourceText: string, sourceLocale: Option<string>, store: Option<StoreType>)
    returns (result: TranslationRequests)
    ensures result == TranslationRequestsOf(app, sourceText, sourceLocale, store)
  {
    var source := sourceLocale.GetOr(DEFAULT_SOURCE_LOCALE);
    var locales := CollectSupportedLocales(app, store.GetOr(Both));
    result := TranslationRequests(None, None);
    if |locales.appStore| > 0 {
      var targetLocales := Without(locales.appStore, source);
      if |targetLocales| > 0 || source in locales.appStore {
        result := result.(appStore := Some(TranslationRequest(sourceText, source, targetLocales, AppStore)));
      }
    }
    if |locales.googlePlay| > 0 {
      var targetLocales := Without(locales.googlePlay, source);
      if |targetLocales| > 0 || source in locales.googlePlay {
        result := result.(googlePlay := Some(TranslationRequest(sourceText, source, targetLocales, GooglePlay)));
      }
    }
  }

  /** A store gets a request exactly when its supported list is non-empty; the
      request carries the text, the source locale (default "en-US"), its own
      store tag, and the list without the source locale. */
  lemma RequestsAreExact(app: RegisteredApp, sourceText: string, sourceLocale: Option<string>, store: Option<StoreType>)
    ensures var r := TranslationRequestsOf(app, sourceText, sourceLocale, store);
            var source := sourceLocale.GetOr(DEFAULT_SOURCE_LOCALE);
            var locales := SupportedLocales(app, store.GetOr(Both));
            && (r.appStore.Some? <==> |locales.appStore| > 0)
            && (r.googlePlay.Some? <==> |locales.googlePlay| > 0)
            && (r.appStore.Some? ==>
                  r.appStore.value == TranslationRequest(sourceText, source, Without(locales.appStore, source), AppStore)
                  && source !in r.appStore.value.targetLocales)
            && (r.googlePlay.Some? ==>
                  r.googlePlay.value == TranslationRequest(sourceText, source, Without(locales.googlePlay, source), GooglePlay)
                  && source !in r.googlePlay.value.targetLocales)
  {
    var source := sourceLocale.GetOr(DEFAULT_SOURCE_LOCALE);
    var locales := SupportedLocales(app, store.GetOr(Both));
    if |locales.appStore| > 0 {
      RequestGuardHolds(locales.appStore, source);
    }
    if |locales.googlePlay| > 0 {
      RequestGuardHolds(locales.googlePlay, source);
    }
  }

  // --------------------------------------------------- separating translations

  /** `translations[locale]` is truthy: present and not "". */
  predicate HasText(translations: map<string, string>, locale: string) {
    locale in translations && translations[locale] != ""
  }

  /** The record one store's loop builds from its locales, in order. */
  function Collected(translations: map<string, string>, locales: seq<string>): map<string, string> {
    if |locales| == 0 then map[]
    else
      var before := Collected(translations, locales[..|locales| - 1]);
      var locale := locales[|locales| - 1];
      if HasText(translations, locale) then before[locale := translations[locale]] else before
  }

  /** One store's loop of `separateTranslationsByStore`. */
  method CollectTranslations(translations: map<string, string>, locales: seq<string>, sourceLocale: string)
    returns (out: map<string, string>)
    ensures out == Collected(translations, locales)
  {
    out := map[];
    var i := 0;
    while i < |locales|
      invariant 0 <= i <= |locales|
      invariant out == Collected(translations, locales[..i])
    {
      var locale := locales[i];
      if HasText(translations, locale) {
        out := out[locale := translations[locale]];
      } else if locale == sourceLocale && HasText(translations, sourceLocale) {
        // The source's fallback to `translations[sourceLocale]`: the same
        // lookup that just failed, so this branch is never taken.
        assert false;
      }
      assert locales[..i + 1][..i] == locales[..i];
      i := i + 1;
    }
    assert locales[..i] == locales;
  }

  /** What `separateTranslationsByStore` returns. */
  function SeparatedTranslations(translations: map<string, string>, app: RegisteredApp, store: StoreType): StoreTranslations {
    var locales := SupportedLocales(app, store);
    StoreTranslations(Collected(translations, locales.appStore), Collected(translations, locales.googlePlay))
  }

  /** `separateTranslationsByStore({translations, app, sourceLocale, store})` */
  method SeparateTranslationsByStore(translations: map<string, string>, app: RegisteredApp, sourceLocale: string, store: StoreType)
    returns (result: StoreTranslations)
    ensures result == SeparatedTranslations(translations, app, store)
  {
    var locales := CollectSupportedLocales(app, store);
    var appStoreTranslations: map<string, string> := map[];
    var googlePlayTranslations: map<string, string> := map[];
    if |locales.appStore| > 0 {
      appStoreTranslations := CollectTranslations(translations, locales.appStore, sourceLocale);
    }
    if |locales.googlePlay| > 0 {
      googlePlayTranslations := CollectTranslations(translations, locales.googlePlay, sourceLocale);
    }
    result := StoreTranslations(appStoreTranslations, googlePlayTranslations);
  }

  /** A locale is a key exactly when it is supported and has a non-empty
      translation, and its value is that translation: nothing is made up. */
  lemma {:induction false} CollectedKeysAndValues(translations: map<string, string>, locales: seq<string>)
    ensures forall l :: l in Collected(translations, locales) <==> l in locales && HasText(translations, l)
    ensures forall l :: l in Collected(translations, locales) ==> l in translations && Collected(translations, locales)[l] == translations[l]
  {
    if |locales| > 0 {
      var init := locales[..|locales| - 1];
      CollectedKeysAndValues(translations, init);
      assert locales == init + [locales[|locales| - 1]];
      assert forall l :: l in locales <==> l in init || l == locales[|locales| - 1];
    }
  }

  /** Per store: keys are the supported locales with a translation, values are
      the translations, and a store the selector leaves out gets nothing. */
  lemma SeparationIsExact(translations: map<string, string>, app: RegisteredApp, store: StoreType)
    ensures var r := SeparatedTranslations(translations, app, store);
            var locales := SupportedLocales(app, store);
            && (forall l :: l in r.appStore <==> l in locales.appStore && HasText(translations, l))
            && (forall l :: l in r.googlePlay <==> l in locales.googlePlay && HasText(translations, l))
            && (forall l :: l in r.appStore ==> l in translations && r.appStore[l] == translations[l])
            && (forall l :: l in r.googlePlay ==> l in translations && r.googlePlay[l] == translations[l])
            && (!Selects(store, AppStore) ==> r.appStore == map[])
            && (!Selects(store, GooglePlay) ==> r.googlePlay == map[])
  {
    var locales := SupportedLocales(app, store);
    CollectedKeysAndValues(translations, locales.appStore);
    CollectedKeysAndValues(translations, locales.googlePlay);
  }

  /** English and French in, three supported App Store locales: German has
      no translation and is left out; the Google Play record stays empty. */
  lemma SeparationExample()
    ensures var app := RegisteredApp(Some(StoreInfo(Some(["en-US", "fr-FR", "de-DE"]))), None);
            SeparatedTranslations(map["en-US" := "Hi", "fr-FR" := "Salut"], app, AppStore)
            == StoreTranslations(map["en-US" := "Hi", "fr-FR" := "Salut"], map[])
  {
    var t := map["en-US" := "Hi", "fr-FR" := "Salut"];
    var ls := ["en-US", "fr-FR", "de-DE"];
    assert ls[..2] == ["en-US", "fr-FR"] && ls[..2][..1] == ["en-US"] && ls[..2][..1][..0] == [];
    assert HasText(t, "en-US") && HasText(t, "fr-FR") && !HasText(t, "de-DE");
    assert Collected(t, ["en-US"]) == map["en-US" := "Hi"];
    assert Collected(t, ["en-US", "fr-FR"]) == map["en-US" := "Hi"]["fr-FR" := "Salut"];
    assert map["en-US" := "Hi"]["fr-FR" := "Salut"] == t;
    assert Collected(t, ls) == t;
  }
}
