/**
 * The theme configuration object (theme.config.jsx): the `i18n` block derived
 * from the locale registry, and the locale and canonical link of its `head`.
 * The lookup `config.find(c => c.locale === locale) || config[0]` that the head
 * tags and the locale switch apply to this block lives here too.
 */
module ThemeConfig {
  import opened Wrappers
  import opened Strings
  import opened SiteConfig

  /** One record of `i18n.config`: the registry entry without `localeName`, plus its key. */
  datatype LocaleConfig = LocaleConfig(
    locale: string,
    name: string,
    ogLocale: string,
    htmlLang: string,
    titleSuffix: string,
    isDefault: bool)

  /** The `i18n` block of the theme configuration; `defaultLocale` is `undefined` for an empty registry. */
  datatype ThemeI18n = ThemeI18n(defaultLocale: Option<string>, locales: seq<string>, config: seq<LocaleConfig>)

  /** `{ locale, name, ogLocale, htmlLang, titleSuffix, isDefault }` for one registry entry. */
  function ToLocaleConfig(key: string, e: LocaleEntry): LocaleConfig {
    LocaleConfig(key, e.name, e.ogLocale, e.htmlLang, e.titleSuffix, e.isDefault)
  }

  /** `Object.entries(SUPPORTED_LOCALES).map(...)`: one record per entry, in key order. */
  function LocaleConfigs(reg: Registry): (cs: seq<LocaleConfig>)
    ensures |cs| == |reg|
    ensures forall i :: 0 <= i < |reg| ==>
      && cs[i].locale == reg[i].0
      && cs[i].name == reg[i].1.name
      && cs[i].ogLocale == reg[i].1.ogLocale
      && cs[i].htmlLang == reg[i].1.htmlLang
      && cs[i].titleSuffix == reg[i].1.titleSuffix
      && cs[i].isDefault == reg[i].1.isDefault
  {
    seq(|reg|, i requires 0 <= i < |reg| => ToLocaleConfig(reg[i].0, reg[i].1))
  }

  /** `SITE_CONFIG.features.i18n ? { defaultLocale, locales, config } : undefined`. */
  function I18nBlock(reg: Registry, i18n: bool): (b: Option<ThemeI18n>)
    ensures b.Some? <==> i18n
    ensures b.Some? ==> b.value.locales == Keys(reg) && b.value.config == LocaleConfigs(reg)
    ensures b.Some? && |reg| > 0 ==> b.value.defaultLocale == Some(MakeI18nConfig(reg).defaultLocale)
    ensures b.Some? && |reg| == 0 ==> b.value.defaultLocale == None
  {
    if !i18n then None
    else
      var defaultLocale := if |reg| == 0 then None else Some(FlaggedKeyOr(reg, reg[0].0));
      Some(ThemeI18n(defaultLocale, Keys(reg), LocaleConfigs(reg)))
  }

  /** The block's default locale is one of its locales, and its record is the one `getDefaultLocale()` returns. */
  lemma I18nBlockDefault(reg: Registry)
    requires |reg| > 0 && ValidRegistry(reg)
    ensures var b := I18nBlock(reg, true).value;
      && b.defaultLocale.Some? && b.defaultLocale.value in b.locales
      && exists i :: 0 <= i < |reg| && b.config[i].locale == b.defaultLocale.value
           && b.config[i] == ToLocaleConfig(reg[i].0, GetDefaultLocale(reg))
  {
    I18nConfigDefaultAgrees(reg);
  }

  /** `config.find(c => c.locale === locale) || config[0]`: the matching record, else the first, else nothing. */
  function FindLocaleConfig(configs: seq<LocaleConfig>, locale: string): (c: Option<LocaleConfig>)
    ensures configs == [] <==> c.None?
    ensures c.Some? ==> c.value in configs
    ensures (exists i :: 0 <= i < |configs| && configs[i].locale == locale) ==> c.Some? && c.value.locale == locale
    ensures (forall i :: 0 <= i < |configs| ==> configs[i].locale != locale) && configs != [] ==> c == Some(configs[0])
    ensures c.Some? ==> exists i :: 0 <= i < |configs| && c.value == configs[i] && forall j :: 0 <= j < i ==> configs[j].locale != locale
  {
    match FindByLocale(configs, locale)
    case Some(c) => Some(c)
    case None => if configs == [] then None else Some(configs[0])
  }

  function FindByLocale(configs: seq<LocaleConfig>, locale: string): (c: Option<LocaleConfig>)
    ensures c.Some? ==> c.value in configs && c.value.locale == locale
    ensures c.None? <==> forall i :: 0 <= i < |configs| ==> configs[i].locale != locale
    ensures c.Some? ==> exists i :: 0 <= i < |configs| && c.value == configs[i] && forall j :: 0 <= j < i ==> configs[j].locale != locale
  {
    if configs == [] then None
    else if configs[0].locale == locale then Some(configs[0])
    else
      var r := FindByLocale(configs[1..], locale);
      assert forall i :: 1 <= i < |configs| ==> configs[i] == configs[1..][i - 1];
      if r.Some? then
        var k :| 0 <= k < |configs[1..]| && r.value == configs[1..][k] && forall j :: 0 <= j < k ==> configs[1..][j].locale != locale;
        assert forall j :: 0 <= j < k + 1 ==> configs[j].locale != locale by {
          forall j | 0 <= j < k + 1 ensures configs[j].locale != locale {
            if j > 0 { assert configs[j] == configs[1..][j - 1]; }
          }
        }
        r
      else r
  }

  /** On the registry's own records, the lookup of a registry key gives that key's entry. */
  lemma FindLocaleConfigOfKey(reg: Registry, key: string)
    requires ValidRegistry(reg)
    requires IndexOfKey(reg, key).Some?
    ensures FindLocaleConfig(LocaleConfigs(reg), key) == Some(ToLocaleConfig(key, reg[IndexOfKey(reg, key).value].1))
  {
    var cs := LocaleConfigs(reg);
    var k := IndexOfKey(reg, key).value;
    assert cs[k].locale == key;
    var c := FindLocaleConfig(cs, key).value;
    assert c.locale == key;
    var j :| 0 <= j < |cs| && c == cs[j] && forall i :: 0 <= i < j ==> cs[i].locale != key;
    assert j == k by {
      assert reg[j].0 == key;
    }
    assert cs[k] == ToLocaleConfig(key, reg[k].1);
  }

  /**
   * The locale record the `head` uses: with i18n, the registry entry for the
   * router locale if there is one, else `getDefaultLocale()`; without i18n,
   * always the default.
   */
  function HeadLocale(reg: Registry, i18n: bool, routerLocale: Option<string>): (e: LocaleEntry)
    requires |reg| > 0
    ensures !i18n ==> e == GetDefaultLocale(reg)
    ensures i18n && routerLocale.Some? && IndexOfKey(reg, routerLocale.value).Some? ==>
      e == reg[IndexOfKey(reg, routerLocale.value).value].1
    ensures i18n && (routerLocale.None? || routerLocale.value !in Keys(reg)) ==> e == GetDefaultLocale(reg)
  {
    if !i18n then GetDefaultLocale(reg)
    else if routerLocale.None? then GetDefaultLocale(reg)
    else match IndexOfKey(reg, routerLocale.value)
      case Some(i) => reg[i].1
      case None => GetDefaultLocale(reg)
  }

  /** The tags the `head` function emits that the model keeps: `og:locale` and the canonical link. */
  datatype HeadTags = HeadTags(ogLocale: string, canonical: string)

  /** `head()`: the canonical link is the site url followed by `asPath`, verbatim. */
  function ThemeHead(reg: Registry, i18n: bool, siteUrl: string, routerLocale: Option<string>, asPath: string): (h: HeadTags)
    requires |reg| > 0
    ensures StartsWith(h.canonical, siteUrl) && h.canonical[|siteUrl|..] == asPath
    ensures h.ogLocale == HeadLocale(reg, i18n, routerLocale).ogLocale
  {
    HeadTags(HeadLocale(reg, i18n, routerLocale).ogLocale, siteUrl + asPath)
  }

  /** With the shipped registry, an unknown router locale falls back to English. */
  lemma ShippedHeadFallback(routerLocale: string)
    requires routerLocale != "en" && routerLocale != "zh"
    ensures HeadLocale(SupportedLocales, true, Some(routerLocale)).ogLocale == "en_US"
  {
    assert FirstFlagged(SupportedLocales) == Some(0);
    assert Keys(SupportedLocales) == ["en", "zh"];
  }
}
