/**
 * The site-wide configuration tables (config/site.js): the locale registry,
 * its default-locale rules, and the sitemap priority rules.
 */
module SiteConfig {
  import opened Wrappers
  import opened Strings

  /** One value of `SUPPORTED_LOCALES`; a missing `isDefault` reads as false. */
  datatype LocaleEntry = LocaleEntry(
    name: string,
    localeName: string,
    ogLocale: string,
    htmlLang: string,
    titleSuffix: string,
    isDefault: bool)

  /** `SUPPORTED_LOCALES` as its `Object.entries`: key and entry, in declaration order. */
  type Registry = seq<(string, LocaleEntry)>

  /** An object literal has distinct keys; locale codes are non-empty. */
  predicate ValidRegistry(reg: Registry) {
    && (forall i, j :: 0 <= i < j < |reg| ==> reg[i].0 != reg[j].0)
    && (forall i :: 0 <= i < |reg| ==> reg[i].0 != "")
  }

  /** `Object.keys(SUPPORTED_LOCALES)`. */
  function Keys(reg: Registry): (ks: seq<string>)
    ensures |ks| == |reg|
    ensures forall i :: 0 <= i < |reg| ==> ks[i] == reg[i].0
  {
    if reg == [] then [] else Keys(reg[..|reg| - 1]) + [reg[|reg| - 1].0]
  }

  /** The index of the first entry flagged `isDefault`, if any (`entries.find(([_, c]) => c.isDefault)`). */
  function FirstFlagged(reg: Registry): (r: Option<nat>)
    ensures r.Some? ==> r.value < |reg| && reg[r.value].1.isDefault
    ensures r.Some? ==> forall i :: 0 <= i < r.value ==> !reg[i].1.isDefault
    ensures r.None? ==> forall i :: 0 <= i < |reg| ==> !reg[i].1.isDefault
  {
    if reg == [] then None
    else if reg[0].1.isDefault then Some(0)
    else match FirstFlagged(reg[1..])
      case Some(i) => Some(i + 1)
      case None => None
  }

  /** The index of the entry for `key` (`SUPPORTED_LOCALES[key]`), if any. */
  function IndexOfKey(reg: Registry, key: string): (r: Option<nat>)
    ensures r.Some? ==> r.value < |reg| && reg[r.value].0 == key
    ensures r.Some? ==> forall i :: 0 <= i < r.value ==> reg[i].0 != key
    ensures r.None? <==> key !in Keys(reg)
  {
    if reg == [] then None
    else if reg[0].0 == key then Some(0)
    else
      KeysCons(reg);
      var rest := IndexOfKey(reg[1..], key);
      if rest.Some? then
        assert reg[1..][rest.value] == reg[rest.value + 1];
        Some(rest.value + 1)
      else None
  }

  lemma KeysCons(reg: Registry)
    requires reg != []
    ensures Keys(reg) == [reg[0].0] + Keys(reg[1..])
  {
  }

  /** `find(...)?.[0] || fallback`: the first flagged key, unless there is none or it is empty. */
  function FlaggedKeyOr(reg: Registry, fallback: string): string
  {
    match FirstFlagged(reg)
    case Some(i) => if reg[i].0 != "" then reg[i].0 else fallback
    case None => fallback
  }

  /**
   * `getDefaultLocale()`: a single entry is the default whatever its flag;
   * otherwise the first flagged entry, else the first entry.
   */
  function GetDefaultLocale(reg: Registry): (e: LocaleEntry)
    requires |reg| > 0
    ensures |reg| == 1 ==> e == reg[0].1
    ensures |reg| > 1 && FirstFlagged(reg).Some? ==> e == reg[FirstFlagged(reg).value].1
    ensures FirstFlagged(reg).None? ==> e == reg[0].1
    ensures exists i :: 0 <= i < |reg| && reg[i].1 == e
  {
    if |reg| == 1 then reg[0].1
    else match FirstFlagged(reg)
      case Some(i) => reg[i].1
      case None => reg[0].1
  }

  /** The Next.js `i18nConfig` record derived from the registry. */
  datatype I18nConfig = I18nConfig(locales: seq<string>, defaultLocale: string)

  /** `i18nConfig`: the keys in order; the first flagged key, else the first key. */
  function MakeI18nConfig(reg: Registry): (c: I18nConfig)
    requires |reg| > 0
  {
    I18nConfig(Keys(reg), FlaggedKeyOr(reg, Keys(reg)[0]))
  }

  /**
   * The default locale is always one of the locales, and it names the very
   * entry that `getDefaultLocale()` returns.
   */
  lemma I18nConfigDefaultAgrees(reg: Registry)
    requires |reg| > 0 && ValidRegistry(reg)
    ensures MakeI18nConfig(reg).defaultLocale in MakeI18nConfig(reg).locales
    ensures exists i :: 0 <= i < |reg| && reg[i].0 == MakeI18nConfig(reg).defaultLocale
                        && reg[i].1 == GetDefaultLocale(reg)
  {
    var c := MakeI18nConfig(reg);
    match FirstFlagged(reg) {
      case Some(i) =>
        assert Keys(reg)[i] == c.defaultLocale;
        if |reg| == 1 { assert i == 0; }
      case None =>
        assert Keys(reg)[0] == c.defaultLocale;
    }
  }

  /** The sitemap change frequencies used by the rule table. */
  datatype ChangeFreq = Daily | Weekly | Monthly

  /**
   * The regular-expression shapes the rule table uses: `^/$` (exactly this
   * text), `^/x` (starts with this text) and `.*` (anything).
   */
  datatype Pattern = Exactly(text: string) | StartsWithText(text: string) | AnyPath

  /** `new RegExp(pattern).test(path)` for the three shapes. */
  predicate Matches(p: Pattern, path: string) {
    match p
    case Exactly(t) => path == t
    case StartsWithText(t) => StartsWith(path, t)
    case AnyPath => true
  }

  /** A rule of `URL_PRIORITIES`; the priority is kept in tenths (1.0 is 10). */
  datatype UrlRule = UrlRule(pattern: Pattern, priorityTenths: nat, changefreq: ChangeFreq)

  /** `URL_PRIORITIES` as shipped. */
  const UrlPriorities: seq<UrlRule> := [
    UrlRule(Exactly("/"), 10, Daily),
    UrlRule(StartsWithText("/games"), 9, Weekly),
    UrlRule(StartsWithText("/guides"), 8, Weekly),
    UrlRule(StartsWithText("/about"), 7, Monthly),
    UrlRule(AnyPath, 5, Weekly)
  ]

  /** `SUPPORTED_LOCALES` as shipped: English (flagged default) and Simplified Chinese. */
  const SupportedLocales: Registry := [
    ("en", LocaleEntry("English", "English", "en_US", "en", "- Game Launch Boost", true)),
    ("zh", LocaleEntry("简体中文", "简体中文", "zh_CN", "zh", "- Game Launch Boost", false))
  ]

  /** `SITE_CONFIG.url` and `SITE_CONFIG.features.i18n` as shipped. */
  const SiteUrl := "https://example.com"
  const I18nEnabled := true

  /** The last rule of the shipped table matches every path, so lookup never falls through. */
  lemma ShippedTableEndsWithCatchAll(path: string)
    ensures Matches(UrlPriorities[|UrlPriorities| - 1].pattern, path)
  {
  }

  /** The shipped keys are `en` then `zh`, and `en` is the one flagged as default. */
  lemma ShippedKeys()
    ensures Keys(SupportedLocales) == ["en", "zh"]
    ensures FirstFlagged(SupportedLocales) == Some(0)
  {
    assert SupportedLocales[..1][..0] == [];
  }

  /** The shipped registry is well formed and its default is `en`. */
  lemma ShippedRegistryDefault()
    ensures ValidRegistry(SupportedLocales)
    ensures GetDefaultLocale(SupportedLocales).htmlLang == "en"
    ensures MakeI18nConfig(SupportedLocales) == I18nConfig(["en", "zh"], "en")
  {
    assert FirstFlagged(SupportedLocales) == Some(0);
  }
}
