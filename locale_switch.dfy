/**
 * The language switcher (theme/src/components/LocaleSwitch.tsx): whether it is
 * shown, which record its button names, which entry of its list carries the
 * check mark, and the path it navigates to when another language is picked.
 */
module LocaleSwitch {
  import opened Wrappers
  import opened Strings
  import opened SiteConfig
  import opened ThemeConfig

  /** `^\/[a-z]{2}`: a `/` and two lower-case ASCII letters at the start. */
  predicate HasLocalePrefix(path: string) {
    |path| >= 3 && path[0] == '/' && IsLower(path[1]) && IsLower(path[2])
  }

  /**
   * `asPath.replace(/^\/[a-z]{2}/, '/' + newLocale)`: the first three
   * characters are replaced when they match, whatever follows them, and the
   * path is kept as it is otherwise.
   */
  function RewriteLocale(path: string, newLocale: string): (r: string)
    ensures HasLocalePrefix(path) ==> StartsWith(r, "/" + newLocale) && r[|newLocale| + 1..] == path[3..]
    ensures !HasLocalePrefix(path) ==> r == path
  {
    if HasLocalePrefix(path) then "/" + newLocale + path[3..] else path
  }

  /** A path under a two-letter locale moves to the same page under the new locale. */
  lemma RewriteLocalizedPath(prev: string, newLocale: string, rest: string)
    requires |prev| == 2 && IsLower(prev[0]) && IsLower(prev[1])
    ensures RewriteLocale("/" + prev + rest, newLocale) == "/" + newLocale + rest
  {
    var p := "/" + prev + rest;
    assert p[1] == prev[0] && p[2] == prev[1];
    assert p[3..] == rest;
  }

  /** Switching twice to two-letter locales is the same as switching once to the second. */
  lemma RewriteTwice(path: string, a: string, b: string)
    requires |a| == 2 && IsLower(a[0]) && IsLower(a[1])
    ensures RewriteLocale(RewriteLocale(path, a), b) == RewriteLocale(path, b)
  {
    if HasLocalePrefix(path) {
      RewriteLocalizedPath(a, b, path[3..]);
    }
  }

  /**
   * The pattern is not bounded by a `/`: an unprefixed page whose first
   * segment starts with two lower-case letters loses them.
   */
  lemma RewriteCutsFirstSegment()
    ensures RewriteLocale("/games", "zh") == "/zhmes"
    ensures RewriteLocale("/", "zh") == "/"
    ensures RewriteLocale("/Games", "zh") == "/Games"
  {
    assert HasLocalePrefix("/games");
    assert "/games"[3..] == "mes";
    assert !HasLocalePrefix("/Games");
  }

  /** The switcher renders only when the i18n feature is on and the block lists at least one locale. */
  predicate Shown(featuresI18n: bool, block: Option<ThemeI18n>) {
    featuresI18n && block.Some? && |block.value.config| > 0
  }

  /** With the theme configuration built from the registry, the switcher shows exactly when i18n is on and the registry is non-empty. */
  lemma ShownForTheme(reg: Registry, i18n: bool)
    ensures Shown(i18n, I18nBlock(reg, i18n)) <==> i18n && |reg| > 0
  {
  }

  /**
   * `currentLocaleConfig`: the record of the router locale, else the first
   * record; an absent router locale matches no record.
   */
  function CurrentLocaleConfig(configs: seq<LocaleConfig>, current: Option<string>): (c: Option<LocaleConfig>)
    ensures configs == [] <==> c.None?
    ensures current.Some? && (exists i :: 0 <= i < |configs| && configs[i].locale == current.value) ==>
      c.Some? && c.value.locale == current.value
    ensures (current.None? || forall i :: 0 <= i < |configs| ==> configs[i].locale != current.value) && configs != [] ==>
      c == Some(configs[0])
    ensures c.Some? ==> c.value in configs
    ensures current.Some? && c.Some? && c.value.locale == current.value ==>
      exists i :: 0 <= i < |configs| && c.value == configs[i] &&
        forall j :: 0 <= j < i ==> configs[j].locale != current.value
  {
    match current
    case None => if configs == [] then None else Some(configs[0])
    case Some(l) => FindLocaleConfig(configs, l)
  }

  /** One button of the open list: the record's name and whether it carries the check mark. */
  datatype Choice = Choice(locale: string, name: string, checked: bool)

  /** The open list: one button per record, in order, checked when its locale is the current one. */
  function Choices(configs: seq<LocaleConfig>, current: Option<string>): (cs: seq<Choice>)
    ensures |cs| == |configs|
    ensures forall i :: 0 <= i < |cs| ==>
      cs[i].locale == configs[i].locale && cs[i].name == configs[i].name
      && (cs[i].checked <==> current == Some(configs[i].locale))
  {
    seq(|configs|, i requires 0 <= i < |configs| => Choice(configs[i].locale, configs[i].name, current == Some(configs[i].locale)))
  }

  /** On the registry's records at most one button is checked, and it is the one the button label names. */
  lemma OneChecked(reg: Registry, current: Option<string>, i: nat, j: nat)
    requires ValidRegistry(reg)
    requires i < |reg| && j < |reg|
    ensures var cs := Choices(LocaleConfigs(reg), current);
      cs[i].checked && cs[j].checked ==> i == j
    ensures var cs := Choices(LocaleConfigs(reg), current);
      cs[i].checked ==> CurrentLocaleConfig(LocaleConfigs(reg), current) == Some(LocaleConfigs(reg)[i])
  {
    var configs := LocaleConfigs(reg);
    var cs := Choices(configs, current);
    if cs[i].checked {
      var c := CurrentLocaleConfig(configs, current).value;
      assert c.locale == configs[i].locale;
      var k :| 0 <= k < |configs| && configs[k] == c;
      assert reg[k].0 == reg[i].0;
    }
  }
}
