/**
 * The page `<head>` (theme/src/components/Head.tsx): the cleaned path, the
 * title and description, the canonical url and the hreflang alternates.
 */
module Head {
  import opened Wrappers
  import opened Strings
  import opened PageTree
  import opened ThemeConfig

  /** The parts of the merged theme configuration the head reads. */
  datatype HeadConfig = HeadConfig(
    url: Option<string>,
    title: Option<string>,
    description: Option<string>,
    i18nEnabled: bool,
    i18n: Option<ThemeI18n>)

  /** `const { locale = 'en' } = router`. */
  function RouterLocale(routerLocale: Option<string>): string {
    routerLocale.GetOr("en")
  }

  /**
   * `currentLocaleConfig`: the block's first record for the locale, else its
   * first record, else nothing.
   */
  function CurrentLocaleConfig(config: HeadConfig, locale: string): (c: Option<LocaleConfig>)
    ensures c.None? <==> config.i18n.None? || config.i18n.value.config == []
    ensures c.Some? && c.value.locale == locale ==>
      exists i :: 0 <= i < |config.i18n.value.config| && c.value == config.i18n.value.config[i] &&
        forall j :: 0 <= j < i ==> config.i18n.value.config[j].locale != locale
    ensures config.i18n.Some? && (exists i :: 0 <= i < |config.i18n.value.config| && config.i18n.value.config[i].locale == locale) ==>
      c.Some? && c.value.locale == locale
    ensures (config.i18n.Some? && config.i18n.value.config != [] &&
             forall i :: 0 <= i < |config.i18n.value.config| ==> config.i18n.value.config[i].locale != locale) ==>
      c == Some(config.i18n.value.config[0])
  {
    match config.i18n
    case None => None
    case Some(b) => FindLocaleConfig(b.config, locale)
  }

  // ---------------------------------------------------------------------------
  // The cleaned path

  /** Does `s` end with `ext`, comparing ASCII letters without regard to case (the `/i` flag)? */
  predicate EndsWithIgnoringCase(s: string, ext: string) {
    |ext| <= |s| && forall i :: 0 <= i < |ext| ==> ToLower(s[|s| - |ext| + i]) == ToLower(ext[i])
  }

  /** `path.replace(/\.(mdx|md)$/i, "")`: one trailing `.mdx` or `.md`, in any case, goes. */
  function StripMarkdownExtension(s: string): (r: string)
    ensures EndsWithIgnoringCase(s, ".mdx") ==> r == s[..|s| - 4]
    ensures !EndsWithIgnoringCase(s, ".mdx") && EndsWithIgnoringCase(s, ".md") ==> r == s[..|s| - 3]
    ensures !EndsWithIgnoringCase(s, ".mdx") && !EndsWithIgnoringCase(s, ".md") ==> r == s
  {
    if EndsWithIgnoringCase(s, ".mdx") then s[..|s| - 4]
    else if EndsWithIgnoringCase(s, ".md") then s[..|s| - 3]
    else s
  }

  /**
   * `cleanPath`: strip the extension, then cut at the first `?`, then at the
   * first `#`; what is left is the longest prefix of the stripped path holding
   * neither character.
   */
  function CleanPath(asPath: string): (p: string)
    ensures '?' !in p && '#' !in p
    ensures StartsWith(StripMarkdownExtension(asPath), p)
    ensures |p| < |StripMarkdownExtension(asPath)| ==>
      StripMarkdownExtension(asPath)[|p|] == '?' || StripMarkdownExtension(asPath)[|p|] == '#'
  {
    PathPart(StripMarkdownExtension(asPath))
  }

  /** A path without query or fragment loses only its extension. */
  lemma CleanPathOfPlainPath(asPath: string)
    requires '?' !in asPath && '#' !in asPath
    ensures CleanPath(asPath) == StripMarkdownExtension(asPath)
  {
    var s := StripMarkdownExtension(asPath);
    assert '?' !in s && '#' !in s by {
      assert s == asPath[..|s|];
    }
    assert IndexOf(s, '?') == |s| && IndexOf(s, '#') == |s|;
  }

  /** The extension is only stripped at the very end, so `/a.md?x=1` keeps it: `/a.md`. */
  lemma ExtensionBeforeQueryKept(p: string, q: string)
    requires '?' !in p && '#' !in p
    requires !EndsWithIgnoringCase(p + "?" + q, ".mdx") && !EndsWithIgnoringCase(p + "?" + q, ".md")
    ensures CleanPath(p + "?" + q) == p
  {
    var s := p + "?" + q;
    assert IndexOf(s, '?') == |p| by {
      assert s[|p|] == '?';
      IndexOfAtMost(s, '?', |p|);
      assert s[..IndexOf(s, '?')] == p[..IndexOf(s, '?')];
    }
    assert BeforeFirst(s, '?') == p;
    assert IndexOf(p, '#') == |p|;
  }

  // ---------------------------------------------------------------------------
  // Title, description, image

  /** `a || b` where the fallback may itself be missing. */
  function Or(a: Option<string>, b: Option<string>): (r: Option<string>)
    ensures a.Some? && a.value != "" ==> r == a
    ensures (a.None? || a.value == "") ==> r == b
  {
    if a.Some? && a.value != "" then a else b
  }

  /**
   * `pageTitle`: the first non-empty title among the front matter, the first
   * page-map item's data and the theme config (else `''`), followed directly
   * by the locale's `titleSuffix` when i18n is on and that suffix is non-empty.
   */
  function PageTitle(fm: FrontMatter, metaTitle: Option<string>, config: HeadConfig, current: Option<LocaleConfig>): (t: string)
    ensures var base := OrElse(fm.title, OrElse(metaTitle, OrElse(config.title, "")));
      && (config.i18nEnabled && current.Some? && current.value.titleSuffix != "" ==> t == base + current.value.titleSuffix)
      && (!config.i18nEnabled || current.None? || current.value.titleSuffix == "" ==> t == base)
  {
    var base := OrElse(fm.title, OrElse(metaTitle, OrElse(config.title, "")));
    var suffix := if config.i18nEnabled && current.Some? && current.value.titleSuffix != "" then current.value.titleSuffix else "";
    base + suffix
  }

  /** The title precedence: the front matter wins whenever it has a non-empty title. */
  lemma PageTitlePrecedence(fm: FrontMatter, metaTitle: Option<string>, config: HeadConfig, current: Option<LocaleConfig>)
    ensures fm.title.Some? && fm.title.value != "" ==> StartsWith(PageTitle(fm, metaTitle, config, current), fm.title.value)
    ensures !config.i18nEnabled ==> PageTitle(fm, metaTitle, config, current) == OrElse(fm.title, OrElse(metaTitle, OrElse(config.title, "")))
    ensures OrElse(fm.title, "") == "" && OrElse(metaTitle, "") == "" && OrElse(config.title, "") == "" && !config.i18nEnabled
      ==> PageTitle(fm, metaTitle, config, current) == ""
  {
  }

  /** `pageDescription`: front matter, else the page-map data, else the config (which may be absent). */
  function PageDescription(fm: FrontMatter, metaDescription: Option<string>, config: HeadConfig): (d: Option<string>)
    ensures d.Some? && d.value != "" ==> d == fm.description || d == metaDescription || d == config.description
    ensures fm.description.Some? && fm.description.value != "" ==> d == fm.description
    ensures OrElse(fm.description, "") == "" && OrElse(metaDescription, "") != "" ==> d == metaDescription
    ensures OrElse(fm.description, "") == "" && OrElse(metaDescription, "") == "" ==> d == config.description
  {
    Or(fm.description, Or(metaDescription, config.description))
  }

  /** `ogImage`: the cover, else the icon, else `/og-image.jpg`; never empty. */
  function OgImage(fm: FrontMatter): (img: string)
    ensures img != ""
    ensures fm.cover.Some? && fm.cover.value != "" ==> img == fm.cover.value
    ensures OrElse(fm.cover, "") == "" && fm.icon.Some? && fm.icon.value != "" ==> img == fm.icon.value
    ensures OrElse(fm.cover, "") == "" && OrElse(fm.icon, "") == "" ==> img == "/og-image.jpg"
  {
    OrElse(fm.cover, OrElse(fm.icon, "/og-image.jpg"))
  }

  // ---------------------------------------------------------------------------
  // Canonical and alternate urls

  /** `${themeConfig.url}` in a template: a missing url prints as `undefined`. */
  function UrlText(url: Option<string>): string {
    url.GetOr("undefined")
  }

  /** Is the url set and non-empty (`themeConfig?.url` truthy)? */
  predicate HasUrl(config: HeadConfig) {
    config.url.Some? && config.url.value != ""
  }

  /** The path under a non-default locale: `/{locale}` plus the path without a leading `/{locale}`. */
  function LocalizedPath(lang: string, locale: string, cleanPath: string): string {
    "/" + lang + StripPrefix(cleanPath, "/" + locale)
  }

  /**
   * `canonicalUrl`: the bare path without a site url; otherwise the url plus
   * the path for the default locale (or without i18n), and the url plus
   * `/{locale}` plus the path without its `/{locale}` for any other locale,
   * with one trailing `/` removed in each url branch.
   */
  function CanonicalUrl(config: HeadConfig, locale: string, cleanPath: string): (u: string)
    ensures !HasUrl(config) ==> u == cleanPath
    ensures HasUrl(config) && config.i18nEnabled && config.i18n.Some? && config.i18n.value.defaultLocale != Some(locale) ==>
      u == DropTrailingSlash(config.url.value + LocalizedPath(locale, locale, cleanPath))
    ensures HasUrl(config) && (!config.i18nEnabled || config.i18n.None? || config.i18n.value.defaultLocale == Some(locale)) ==>
      u == DropTrailingSlash(config.url.value + cleanPath)
  {
    if !HasUrl(config) then cleanPath
    else if config.i18nEnabled && config.i18n.Some? then
      var url := if config.i18n.value.defaultLocale == Some(locale)
        then config.url.value + cleanPath
        else config.url.value + LocalizedPath(locale, locale, cleanPath);
      DropTrailingSlash(url)
    else DropTrailingSlash(config.url.value + cleanPath)
  }

  /** A non-default locale appears once in the canonical url, whether or not the path already carries it. */
  lemma CanonicalLocaleNotDoubled(config: HeadConfig, locale: string, rest: string)
    requires HasUrl(config) && config.i18nEnabled && config.i18n.Some? && config.i18n.value.defaultLocale != Some(locale)
    requires !StartsWith(rest, "/" + locale)
    ensures CanonicalUrl(config, locale, "/" + locale + rest) == CanonicalUrl(config, locale, rest)
  {
    var p := "/" + locale + rest;
    assert StartsWith(p, "/" + locale) by { assert p[..|"/" + locale|] == "/" + locale; }
    assert StripPrefix(p, "/" + locale) == rest;
  }

  /** An alternate link. */
  datatype Alternate = Alternate(hrefLang: string, href: string)

  /** Where the link for `lang` points: the default locale at the clean path as it is, any other under `/{lang}`. */
  function AlternateHref(lang: string, locale: string, defaultLocale: Option<string>, url: Option<string>, cleanPath: string): string {
    UrlText(url) + (if Some(lang) == defaultLocale then cleanPath else LocalizedPath(lang, locale, cleanPath))
  }

  /** The locale of every record, in order. */
  function ConfigLocales(configs: seq<LocaleConfig>): (ls: seq<string>)
    ensures |ls| == |configs| && forall i :: 0 <= i < |configs| ==> ls[i] == configs[i].locale
  {
    seq(|configs|, i requires 0 <= i < |configs| => configs[i].locale)
  }

  /** The language of every link, in order. */
  function HrefLangs(alts: seq<Alternate>): (ls: seq<string>)
    ensures |ls| == |alts| && forall i :: 0 <= i < |alts| ==> ls[i] == alts[i].hrefLang
  {
    seq(|alts|, i requires 0 <= i < |alts| => alts[i].hrefLang)
  }

  /**
   * The alternate links: one per configured locale other than the current
   * one; the default locale points at the url plus the clean path as it is,
   * any other at the url plus `/{lang}` plus the path without `/{current}`.
   */
  function LocaleAlternates(configs: seq<LocaleConfig>, locale: string, defaultLocale: Option<string>,
                            url: Option<string>, cleanPath: string): (alts: seq<Alternate>)
    ensures |alts| <= |configs|
    ensures forall a :: a in alts ==> a.hrefLang != locale
    ensures forall a :: a in alts ==> exists c :: c in configs && c.locale == a.hrefLang
    ensures forall a :: a in alts ==> a.href == AlternateHref(a.hrefLang, locale, defaultLocale, url, cleanPath)
  {
    if configs == [] then []
    else
      var lang := configs[|configs| - 1];
      var rest := LocaleAlternates(configs[..|configs| - 1], locale, defaultLocale, url, cleanPath);
      if lang.locale == locale then rest
      else
        rest + [Alternate(lang.locale, AlternateHref(lang.locale, locale, defaultLocale, url, cleanPath))]
  }

  /** The links of a non-empty list: those of all but its last record, then that record's link unless it is the current locale. */
  lemma LocaleAlternatesStep(configs: seq<LocaleConfig>, locale: string, defaultLocale: Option<string>,
                             url: Option<string>, cleanPath: string)
    requires configs != []
    ensures var last := configs[|configs| - 1];
      var rest := LocaleAlternates(configs[..|configs| - 1], locale, defaultLocale, url, cleanPath);
      LocaleAlternates(configs, locale, defaultLocale, url, cleanPath)
        == if last.locale == locale then rest
           else rest + [Alternate(last.locale, AlternateHref(last.locale, locale, defaultLocale, url, cleanPath))]
  {
  }

  /** Adding one `x` and then dropping every `l` adds `x` after the drop unless `x` is `l`. */
  lemma DropAllStep(m: multiset<string>, x: string, l: string)
    ensures (m + multiset{x})[l := 0] == if x == l then m[l := 0] else m[l := 0] + multiset{x}
  {
  }

  /**
   * One link per record whose locale is not the current one: as a multiset,
   * the links' languages are the records' locales with every occurrence of the
   * current locale removed.
   */
  lemma {:induction false} LocaleAlternatesLangs(configs: seq<LocaleConfig>, locale: string, defaultLocale: Option<string>,
                                                 url: Option<string>, cleanPath: string)
    ensures multiset(HrefLangs(LocaleAlternates(configs, locale, defaultLocale, url, cleanPath))) == multiset(ConfigLocales(configs))[locale := 0]
    decreases |configs|
  {
    if configs != [] {
      var init := configs[..|configs| - 1];
      var last := configs[|configs| - 1];
      LocaleAlternatesStep(configs, locale, defaultLocale, url, cleanPath);
      LocaleAlternatesLangs(init, locale, defaultLocale, url, cleanPath);
      ConfigLocalesStep(configs);
      DropAllStep(multiset(ConfigLocales(init)), last.locale, locale);
      if last.locale != locale {
        HrefLangsStep(LocaleAlternates(init, locale, defaultLocale, url, cleanPath),
                      Alternate(last.locale, AlternateHref(last.locale, locale, defaultLocale, url, cleanPath)));
      }
    }
  }

  lemma ConfigLocalesStep(configs: seq<LocaleConfig>)
    requires configs != []
    ensures multiset(ConfigLocales(configs)) == multiset(ConfigLocales(configs[..|configs| - 1])) + multiset{configs[|configs| - 1].locale}
  {
    assert ConfigLocales(configs) == ConfigLocales(configs[..|configs| - 1]) + [configs[|configs| - 1].locale];
  }

  lemma HrefLangsStep(alts: seq<Alternate>, a: Alternate)
    ensures multiset(HrefLangs(alts + [a])) == multiset(HrefLangs(alts)) + multiset{a.hrefLang}
  {
    assert HrefLangs(alts + [a]) == HrefLangs(alts) + [a.hrefLang];
  }

  /** The links the head emits: the per-locale alternates, then `x-default` when present. */
  datatype AlternateLinks = AlternateLinks(locales: seq<Alternate>, xDefault: Option<Alternate>)

  /**
   * Alternates appear only with i18n on and an `i18n` block; `x-default` only
   * with i18n on and a url, pointing at the url plus the clean path without
   * one trailing `/`.
   */
  function Alternates(config: HeadConfig, locale: string, cleanPath: string): (links: AlternateLinks)
    ensures !config.i18nEnabled ==> links == AlternateLinks([], None)
    ensures config.i18n.None? ==> links.locales == []
    ensures links.xDefault.Some? <==> config.i18nEnabled && HasUrl(config)
    ensures links.xDefault.Some? ==> links.xDefault.value == Alternate("x-default", config.url.value + DropTrailingSlash(cleanPath))
    ensures config.i18nEnabled && config.i18n.Some? ==>
      links.locales == LocaleAlternates(config.i18n.value.config, locale, config.i18n.value.defaultLocale, config.url, cleanPath)
  {
    var locales := if config.i18nEnabled && config.i18n.Some?
      then LocaleAlternates(config.i18n.value.config, locale, config.i18n.value.defaultLocale, config.url, cleanPath)
      else [];
    var xDefault := if config.i18nEnabled && HasUrl(config)
      then Some(Alternate("x-default", config.url.value + DropTrailingSlash(cleanPath)))
      else None;
    AlternateLinks(locales, xDefault)
  }

  /** What the model keeps of the rendered head. */
  datatype HeadView = HeadView(
    title: string,
    description: Option<string>,
    ogImage: string,
    canonical: string,
    htmlLang: Option<string>,
    ogLocale: Option<string>,
    alternates: AlternateLinks)

  /** The whole `<Head>` for one page. */
  function RenderHead(fm: FrontMatter, metaTitle: Option<string>, metaDescription: Option<string>,
                      config: HeadConfig, routerLocale: Option<string>, asPath: string): (h: HeadView)
    ensures var locale := RouterLocale(routerLocale);
      && h.canonical == CanonicalUrl(config, locale, CleanPath(asPath))
      && h.alternates == Alternates(config, locale, CleanPath(asPath))
      && (CurrentLocaleConfig(config, locale).None? ==> h.htmlLang.None? && h.ogLocale.None?)
      && (CurrentLocaleConfig(config, locale).Some? ==>
            h.htmlLang == Some(CurrentLocaleConfig(config, locale).value.htmlLang)
            && h.ogLocale == Some(CurrentLocaleConfig(config, locale).value.ogLocale))
      && h.title == PageTitle(fm, metaTitle, config, CurrentLocaleConfig(config, locale))
      && h.description == PageDescription(fm, metaDescription, config)
      && h.ogImage == OgImage(fm)
  {
    var locale := RouterLocale(routerLocale);
    var current := CurrentLocaleConfig(config, locale);
    var cleanPath := CleanPath(asPath);
    HeadView(
      PageTitle(fm, metaTitle, config, current),
      PageDescription(fm, metaDescription, config),
      OgImage(fm),
      CanonicalUrl(config, locale, cleanPath),
      if current.Some? then Some(current.value.htmlLang) else None,
      if current.Some? then Some(current.value.ogLocale) else None,
      Alternates(config, locale, cleanPath))
  }
}
