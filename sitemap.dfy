/**
 * The sitemap transform (next-sitemap.config.js): one entry per path in
 * single-locale mode, one entry per locale with hreflang alternates in
 * multi-locale mode.
 */
module Sitemap {
  import opened Wrappers
  import opened Strings
  import opened SiteConfig

  /** `DEFAULT_LANGUAGE`: the first flagged key, else the literal `en` (not the first key). */
  function DefaultLanguage(reg: Registry): (l: string)
    ensures FirstFlagged(reg).None? ==> l == "en"
    ensures FirstFlagged(reg).Some? && ValidRegistry(reg) ==> l == reg[FirstFlagged(reg).value].0
  {
    FlaggedKeyOr(reg, "en")
  }

  /** The index of the rule `findUrlConfig` picks among `rules[k..]`: the first that matches, else the last. */
  function FindFrom(rules: seq<UrlRule>, path: string, k: nat): (r: nat)
    requires k < |rules|
    ensures k <= r < |rules|
    ensures Matches(rules[r].pattern, path) ==> forall j :: k <= j < r ==> !Matches(rules[j].pattern, path)
    ensures !Matches(rules[r].pattern, path) ==> r == |rules| - 1 && forall j :: k <= j < |rules| ==> !Matches(rules[j].pattern, path)
    decreases |rules| - k
  {
    if Matches(rules[k].pattern, path) || k == |rules| - 1 then k
    else FindFrom(rules, path, k + 1)
  }

  /**
   * `findUrlConfig(path)`: the first rule, in list order, whose pattern matches
   * the path; the last rule when none does.
   */
  function FindUrlConfig(rules: seq<UrlRule>, path: string): (rule: UrlRule)
    requires |rules| > 0
    ensures exists k :: (0 <= k < |rules| && rule == rules[k] &&
      (Matches(rules[k].pattern, path) ==> forall j :: 0 <= j < k ==> !Matches(rules[j].pattern, path)) &&
      (!Matches(rules[k].pattern, path) ==> k == |rules| - 1))
    ensures (forall j :: 0 <= j < |rules| ==> !Matches(rules[j].pattern, path)) ==> rule == rules[|rules| - 1]
  {
    rules[FindFrom(rules, path, 0)]
  }

  /** What the shipped rule table gives: note that `/gamesx` counts as a `/games` page. */
  lemma ShippedPriorities(path: string)
    ensures path == "/" ==> FindUrlConfig(UrlPriorities, path) == UrlRule(Exactly("/"), 10, Daily)
    ensures StartsWith(path, "/games") ==> FindUrlConfig(UrlPriorities, path).priorityTenths == 9
    ensures StartsWith(path, "/guides") ==> FindUrlConfig(UrlPriorities, path).priorityTenths == 8
    ensures StartsWith(path, "/about") ==> FindUrlConfig(UrlPriorities, path) == UrlRule(StartsWithText("/about"), 7, Monthly)
    ensures path != "/" && !StartsWith(path, "/games") && !StartsWith(path, "/guides") && !StartsWith(path, "/about")
      ==> FindUrlConfig(UrlPriorities, path) == UrlRule(AnyPath, 5, Weekly)
    ensures FindUrlConfig(UrlPriorities, "/gamesx").priorityTenths == 9
  {
    if StartsWith(path, "/games") || StartsWith(path, "/guides") || StartsWith(path, "/about") {
      assert path != "/" by { assert |path| > 1; }
    }
    if StartsWith(path, "/guides") {
      assert !StartsWith(path, "/games") by { assert path[2] == 'u'; }
    }
    if StartsWith(path, "/about") {
      assert !StartsWith(path, "/games") by { assert path[1] == 'a'; }
      assert !StartsWith(path, "/guides") by { assert path[1] == 'a'; }
    }
    assert StartsWith("/gamesx", "/games");
    assert FindFrom(UrlPriorities, path, 0) == if Matches(UrlPriorities[0].pattern, path) then 0 else FindFrom(UrlPriorities, path, 1);
    assert FindFrom(UrlPriorities, path, 1) == if Matches(UrlPriorities[1].pattern, path) then 1 else FindFrom(UrlPriorities, path, 2);
    assert FindFrom(UrlPriorities, path, 2) == if Matches(UrlPriorities[2].pattern, path) then 2 else FindFrom(UrlPriorities, path, 3);
    assert FindFrom(UrlPriorities, path, 3) == if Matches(UrlPriorities[3].pattern, path) then 3 else 4;
  }

  /** An alternate link of a sitemap entry. */
  datatype AlternateRef = AlternateRef(href: string, hreflang: string)

  /** One `<url>` entry; the priority is in tenths. */
  datatype SitemapEntry = SitemapEntry(
    loc: string,
    changefreq: ChangeFreq,
    priorityTenths: nat,
    lastmod: Option<string>,
    alternateRefs: seq<AlternateRef>)

  /** `config.autoLastmod ? new Date().toISOString() : undefined`, the clock reading passed in. */
  function Lastmod(autoLastmod: bool, now: string): (m: Option<string>)
    ensures m.Some? <==> autoLastmod
    ensures m.Some? ==> m.value == now
  {
    if autoLastmod then Some(now) else None
  }

  /**
   * The single-locale transform: `loc` is the site url and the path, unchanged;
   * change frequency and priority come from the rule `findUrlConfig` picks for
   * the path.
   */
  function SingleLocaleTransform(siteUrl: string, path: string, rules: seq<UrlRule>, autoLastmod: bool, now: string)
    : (e: SitemapEntry)
    requires |rules| > 0
    ensures e.loc == siteUrl + path && e.alternateRefs == []
    ensures e.changefreq == FindUrlConfig(rules, path).changefreq
    ensures e.priorityTenths == FindUrlConfig(rules, path).priorityTenths
    ensures e.lastmod == Lastmod(autoLastmod, now)
  {
    var rule := FindUrlConfig(rules, path);
    SitemapEntry(siteUrl + path, rule.changefreq, rule.priorityTenths, Lastmod(autoLastmod, now), [])
  }

  /**
   * `` `${siteUrl}/${lang}/${cleanPath}`.replace(/\/+/g, "/").replace(/\/$/, "") ``:
   * every run of `/` collapses, including the `//` after the scheme, then one
   * trailing `/` goes. Apart from its slashes, the url is the site url, the
   * language and the path, in that order.
   */
  function LocaleUrl(siteUrl: string, lang: string, cleanPath: string): (u: string)
    ensures NoRuns(u, '/')
    ensures |u| == 0 || u[|u| - 1] != '/'
    ensures RemoveAll(u, '/') == RemoveAll(siteUrl + lang + cleanPath, '/')
  {
    var joined := CollapseRuns(siteUrl + "/" + lang + "/" + cleanPath, '/');
    CollapseRunsFacts(siteUrl + "/" + lang + "/" + cleanPath, '/');
    DropTrailingSlashNoRuns(joined);
    JoinedText(siteUrl, lang, cleanPath);
    DropTrailingSlashText(joined);
    DropTrailingSlash(joined)
  }

  /** The slashes `LocaleUrl` puts between the parts carry no other text. */
  lemma JoinedText(siteUrl: string, lang: string, cleanPath: string)
    ensures RemoveAll(siteUrl + "/" + lang + "/" + cleanPath, '/') == RemoveAll(siteUrl + lang + cleanPath, '/')
  {
    assert RemoveAll("/", '/') == [];
    RemoveAllConcat(siteUrl, "/", '/');
    RemoveAllConcat(siteUrl + "/", lang, '/');
    RemoveAllConcat(siteUrl + "/" + lang, "/", '/');
    RemoveAllConcat(siteUrl + "/" + lang + "/", cleanPath, '/');
    RemoveAllConcat(siteUrl, lang, '/');
    RemoveAllConcat(siteUrl + lang, cleanPath, '/');
  }

  /** Dropping a trailing `/` keeps every other character. */
  lemma DropTrailingSlashText(s: string)
    ensures RemoveAll(DropTrailingSlash(s), '/') == RemoveAll(s, '/')
  {
    if |s| > 0 && s[|s| - 1] == '/' {
      assert RemoveAll("/", '/') == [];
      RemoveAllConcat(DropTrailingSlash(s), "/", '/');
    }
  }

  lemma DropTrailingSlashNoRuns(s: string)
    requires NoRuns(s, '/')
    ensures NoRuns(DropTrailingSlash(s), '/')
    ensures DropTrailingSlash(s) == [] || DropTrailingSlash(s)[|DropTrailingSlash(s)| - 1] != '/'
  {
    if |s| > 1 && s[|s| - 1] == '/' {
      assert s[|s| - 2] != '/';
    }
  }

  /**
   * Since no `loc` holds `//` (see `LocaleUrl`), none starts with `https://`:
   * a site url such as `https://host` comes out as `https:/host/...`.
   */
  lemma LocaleUrlLosesSchemeSlash(siteUrl: string, lang: string, cleanPath: string)
    ensures !StartsWith(LocaleUrl(siteUrl, lang, cleanPath), "https://")
  {
    var u := LocaleUrl(siteUrl, lang, cleanPath);
    if |u| >= 8 {
      assert !(u[6] == '/' && u[7] == '/');
      assert u[..8][6] == u[6] && u[..8][7] == u[7];
    }
  }

  /** The last character survives collapsing. */
  lemma {:induction false} CollapseKeepsLast(s: string, c: char)
    requires |s| > 0
    ensures |CollapseRuns(s, c)| > 0 && CollapseRuns(s, c)[|CollapseRuns(s, c)| - 1] == s[|s| - 1]
    decreases |s|
  {
    if |s| > 1 {
      CollapseKeepsLast(s[1..], c);
    }
  }

  /** A tail that starts with another character and holds no run is left as it is. */
  lemma {:induction false} CollapseTail(a: string, w: string, c: char)
    requires |w| > 0 && w[0] != c && NoRuns(w, c)
    ensures CollapseRuns(a + w, c) == CollapseRuns(a, c) + w
    decreases |a|
  {
    if a == [] {
      assert a + w == w;
      CollapseNoRuns(w, c);
    } else if |a| == 1 {
      assert (a + w)[1..] == w;
      CollapseNoRuns(w, c);
    } else {
      assert (a + w)[1..] == a[1..] + w;
      CollapseTail(a[1..], w, c);
    }
  }

  /**
   * The shape of a `loc`: the site url with its runs collapsed and a `/`
   * after it, the language, a `/`, and the clean path, less one trailing `/`.
   * It holds for every language that is a non-empty `/`-free segment and
   * every path `CleanPath` produces (see `CleanPathShape`).
   */
  lemma LocaleUrlShape(siteUrl: string, lang: string, cleanPath: string)
    requires lang != "" && '/' !in lang
    requires NoRuns(cleanPath, '/') && (cleanPath == [] || cleanPath[0] != '/')
    ensures LocaleUrl(siteUrl, lang, cleanPath)
      == DropTrailingSlash(CollapseRuns(siteUrl + "/", '/') + lang + "/" + cleanPath)
  {
    var w := lang + "/" + cleanPath;
    assert w[0] == lang[0];
    assert NoRuns(w, '/') by {
      forall i | 0 <= i < |w| - 1 ensures !(w[i] == '/' && w[i + 1] == '/') {
        if i < |lang| {
          assert w[i] == lang[i];
        } else if i == |lang| {
          assert w[i + 1] == cleanPath[0];
        } else {
          assert w[i] == cleanPath[i - |lang| - 1] && w[i + 1] == cleanPath[i - |lang|];
        }
      }
    }
    assert siteUrl + "/" + lang + "/" + cleanPath == (siteUrl + "/") + w;
    CollapseTail(siteUrl + "/", w, '/');
    assert CollapseRuns(siteUrl + "/", '/') + w == CollapseRuns(siteUrl + "/", '/') + lang + "/" + cleanPath;
  }

  /** `cleanPath` holds no run of `/` and does not start with one. */
  lemma CleanPathShape(path: string)
    ensures NoRuns(CleanPath(path), '/')
    ensures CleanPath(path) == [] || CleanPath(path)[0] != '/'
  {
    var s := CollapsedPath(path);
    CollapseRunsFacts(path, '/');
    var cp := CleanPath(path);
    if StartsWith(s, "/") {
      assert cp == s[1..];
      forall i | 0 <= i < |cp| - 1 ensures !(cp[i] == '/' && cp[i + 1] == '/') {
        assert cp[i] == s[i + 1] && cp[i + 1] == s[i + 2];
      }
      if |cp| > 0 {
        assert s[0] == '/' && cp[0] == s[1];
      }
    }
  }

  /** Path `/` cleans to the empty path, so each `loc` ends with its own locale segment. */
  lemma RootPathEndsAtLocale(siteUrl: string, lang: string)
    requires lang != "" && '/' !in lang
    ensures CleanPath("/") == ""
    ensures EndsWith(LocaleUrl(siteUrl, lang, CleanPath("/")), "/" + lang)
  {
    assert CollapseRuns("/", '/') == "/";
    assert StartsWith("/", "/");
    var w := lang + "/";
    assert NoRuns(w, '/') by {
      forall i | 0 <= i < |w| - 1 ensures w[i] != '/' {
        assert w[i] == lang[i];
      }
    }
    assert siteUrl + "/" + lang + "/" + "" == (siteUrl + "/") + w;
    CollapseTail(siteUrl + "/", w, '/');
    var head := CollapseRuns(siteUrl + "/", '/');
    CollapseKeepsLast(siteUrl + "/", '/');
    var u := LocaleUrl(siteUrl, lang, "");
    assert u == head + lang;
    assert u[|u| - |lang| - 1..] == [head[|head| - 1]] + lang;
  }

  /** The alternates every multi-locale entry carries: one per language, then `x-default`. */
  function Alternates(siteUrl: string, langs: seq<string>, defaultLang: string, cleanPath: string): (alts: seq<AlternateRef>)
    ensures |alts| == |langs| + 1
    ensures forall j :: 0 <= j < |langs| ==> alts[j] == AlternateRef(LocaleUrl(siteUrl, langs[j], cleanPath), langs[j])
    ensures alts[|langs|] == AlternateRef(LocaleUrl(siteUrl, defaultLang, cleanPath), "x-default")
  {
    seq(|langs|, j requires 0 <= j < |langs| => AlternateRef(LocaleUrl(siteUrl, langs[j], cleanPath), langs[j]))
    + [AlternateRef(LocaleUrl(siteUrl, defaultLang, cleanPath), "x-default")]
  }

  /** `path.replace(/\/+/g, "/")`, then `cleanPath` drops one leading `/`. */
  function CollapsedPath(path: string): string {
    CollapseRuns(path, '/')
  }

  function CleanPath(path: string): string {
    StripPrefix(CollapsedPath(path), "/")
  }

  /** The multi-locale transform: one entry per locale key, in key order. */
  function MultiLocaleTransform(siteUrl: string, path: string, reg: Registry, rules: seq<UrlRule>, autoLastmod: bool, now: string)
    : (entries: seq<SitemapEntry>)
    requires |rules| > 0
    ensures |entries| == |reg|
    ensures forall i :: 0 <= i < |entries| ==> |entries[i].alternateRefs| == |reg| + 1
  {
    var langs := Keys(reg);
    var cleanPath := CleanPath(path);
    var rule := FindUrlConfig(rules, CollapsedPath(path));
    var alts := Alternates(siteUrl, langs, DefaultLanguage(reg), cleanPath);
    seq(|langs|, i requires 0 <= i < |langs| =>
      SitemapEntry(LocaleUrl(siteUrl, langs[i], cleanPath), rule.changefreq, rule.priorityTenths,
                   Lastmod(autoLastmod, now), alts))
  }

  /**
   * Multi-locale output: exactly one entry per locale, in key order, all with
   * the rule of the collapsed path; every entry carries the same L+1
   * alternates, the j-th pointing at the j-th entry's own `loc`, and the last,
   * `x-default`, at the default language's url (the default entry's `loc`
   * whenever the default language is a key).
   */
  lemma MultiLocaleTransformSpec(siteUrl: string, path: string, reg: Registry, rules: seq<UrlRule>, autoLastmod: bool, now: string)
    requires |rules| > 0
    ensures var entries := MultiLocaleTransform(siteUrl, path, reg, rules, autoLastmod, now);
      && |entries| == |reg|
      && (forall i :: 0 <= i < |entries| ==>
            && entries[i].loc == LocaleUrl(siteUrl, reg[i].0, CleanPath(path))
            && entries[i].changefreq == FindUrlConfig(rules, CollapsedPath(path)).changefreq
            && entries[i].priorityTenths == FindUrlConfig(rules, CollapsedPath(path)).priorityTenths
            && entries[i].alternateRefs == entries[0].alternateRefs
            && entries[i].alternateRefs[|reg|].hreflang == "x-default")
      && (forall i, j :: 0 <= i < |entries| && 0 <= j < |entries| ==>
            entries[i].alternateRefs[j] == AlternateRef(entries[j].loc, reg[j].0))
      && (forall i, d :: 0 <= i < |entries| && 0 <= d < |reg| && reg[d].0 == DefaultLanguage(reg) ==>
            entries[i].alternateRefs[|reg|].href == entries[d].loc)
  {
    var entries := MultiLocaleTransform(siteUrl, path, reg, rules, autoLastmod, now);
    var cleanPath := CleanPath(path);
    var alts := Alternates(siteUrl, Keys(reg), DefaultLanguage(reg), cleanPath);
    forall i | 0 <= i < |entries|
      ensures entries[i].alternateRefs == alts
      ensures entries[i].loc == LocaleUrl(siteUrl, reg[i].0, cleanPath)
    {
    }
  }

  /**
   * The `loc` of the entry for a key that is a non-empty `/`-free segment: the
   * collapsed `{siteUrl}/`, then `{lang}/{cleanPath}`, less one trailing `/`.
   */
  lemma MultiLocaleLocShape(siteUrl: string, path: string, reg: Registry, rules: seq<UrlRule>, autoLastmod: bool, now: string, i: nat)
    requires |rules| > 0 && i < |reg| && reg[i].0 != "" && '/' !in reg[i].0
    ensures i < |MultiLocaleTransform(siteUrl, path, reg, rules, autoLastmod, now)|
    ensures MultiLocaleTransform(siteUrl, path, reg, rules, autoLastmod, now)[i].loc
      == DropTrailingSlash(CollapseRuns(siteUrl + "/", '/') + reg[i].0 + "/" + CleanPath(path))
  {
    MultiLocaleTransformSpec(siteUrl, path, reg, rules, autoLastmod, now);
    CleanPathShape(path);
    LocaleUrlShape(siteUrl, reg[i].0, CleanPath(path));
  }

  /** Which transform the config exports: the multi-locale one iff `features.i18n` is set. */
  function Transform(i18n: bool, siteUrl: string, path: string, reg: Registry, rules: seq<UrlRule>, autoLastmod: bool, now: string)
    : (entries: seq<SitemapEntry>)
    requires |rules| > 0
    ensures i18n ==> entries == MultiLocaleTransform(siteUrl, path, reg, rules, autoLastmod, now)
    ensures i18n ==> |entries| == |reg|
    ensures !i18n ==> entries == [SingleLocaleTransform(siteUrl, path, rules, autoLastmod, now)]
  {
    if i18n then MultiLocaleTransform(siteUrl, path, reg, rules, autoLastmod, now)
    else [SingleLocaleTransform(siteUrl, path, rules, autoLastmod, now)]
  }
}
