/**
 * The `lang` attribute of the single-language document
 * (pages-single-lang/_document.tsx): the first segment of the page path when it
 * names a supported locale, otherwise the registry's default, otherwise `en`.
 */
module Document {
  import opened Wrappers
  import opened Strings
  import opened SiteConfig

  /** `pathname.split('/', 2)[1]`: the text between the first and second `/`, absent without a `/`. */
  function LangCandidate(pathname: string): (f: Option<string>)
    ensures f.None? <==> '/' !in pathname
    ensures f.Some? ==> '/' !in f.value
  {
    SecondField(pathname, '/')
  }

  /** The `lang` of `<Html>`: the candidate when it is a registry key, else the first flagged key, else `en`. */
  function DocumentLang(reg: Registry, pathname: string): (lang: string)
    ensures lang in Keys(reg) || lang == "en"
    ensures LangCandidate(pathname).Some? && LangCandidate(pathname).value in Keys(reg) ==>
      lang == LangCandidate(pathname).value
    ensures !(LangCandidate(pathname).Some? && LangCandidate(pathname).value in Keys(reg)) ==>
      lang == FlaggedKeyOr(reg, "en")
  {
    var candidate := LangCandidate(pathname);
    if candidate.Some? && candidate.value in Keys(reg) then candidate.value
    else
      FlaggedKeyInKeys(reg);
      FlaggedKeyOr(reg, "en")
  }

  /** The first flagged key is a key; without one the fallback is used. */
  lemma FlaggedKeyInKeys(reg: Registry)
    ensures FlaggedKeyOr(reg, "en") in Keys(reg) || FlaggedKeyOr(reg, "en") == "en"
    ensures FirstFlagged(reg).None? ==> FlaggedKeyOr(reg, "en") == "en"
  {
    match FirstFlagged(reg) {
      case Some(i) => assert Keys(reg)[i] == reg[i].0;
      case None =>
    }
  }

  /** A page under a supported locale gets that locale, whatever follows it. */
  lemma LangOfLocalePage(reg: Registry, key: string, rest: string)
    requires key in Keys(reg) && '/' !in key
    requires rest == [] || rest[0] == '/'
    ensures DocumentLang(reg, "/" + key + rest) == key
  {
    var p := "/" + key + rest;
    assert IndexOf(p, '/') == 0;
    assert p[1..] == key + rest;
    LeadingField(key, rest);
  }

  /** The text before the first `/` of `key + rest` is `key` when `rest` is empty or starts a new segment. */
  lemma {:induction false} LeadingField(key: string, rest: string)
    requires '/' !in key
    requires rest == [] || rest[0] == '/'
    ensures BeforeFirst(key + rest, '/') == key
    decreases |key|
  {
    if key == [] {
      assert key + rest == rest;
    } else {
      assert (key + rest)[1..] == key[1..] + rest;
      LeadingField(key[1..], rest);
    }
  }

  /** With the shipped registry, Chinese pages are `zh` and every other page is `en`. */
  lemma ShippedDocumentLang(rest: string)
    requires rest == [] || rest[0] == '/'
    ensures DocumentLang(SupportedLocales, "/zh" + rest) == "zh"
    ensures DocumentLang(SupportedLocales, "/games") == "en"
  {
    ShippedChinesePage(rest);
    ShippedGamesPage();
  }

  lemma ShippedChinesePage(rest: string)
    requires rest == [] || rest[0] == '/'
    ensures DocumentLang(SupportedLocales, "/zh" + rest) == "zh"
  {
    ShippedKeys();
    LangOfLocalePage(SupportedLocales, "zh", rest);
    assert "/zh" + rest == "/" + "zh" + rest;
  }

  lemma ShippedGamesPage()
    ensures DocumentLang(SupportedLocales, "/games") == "en"
  {
    assert LangCandidate("/games") == Some("games") by {
      assert IndexOf("/games", '/') == 0;
      assert "/games"[1..] == "games";
      LeadingField("games", "");
      assert "games" + "" == "games";
    }
    ShippedKeys();
  }
}
