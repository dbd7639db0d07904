/**
 * Page lookup and page titles (theme/src/utils/pageConfig.ts). `findPage` is a
 * recursive loop that stops at the first item, in pre-order, whose route is
 * the pathname and writes that page's front matter into the enclosing config
 * object; the config is a class here and `FindPage` a method that updates it.
 */
module PageConfig {
  import opened Wrappers
  import opened Strings
  import opened PageTree

  /** Does this node's own route equal the pathname (`'route' in item && item.route === pathname`)? */
  predicate RouteIs(n: Node, pathname: string) {
    n.route == Some(pathname)
  }

  /** The node `findPage` stops at: own route checked before the children, earlier siblings first. */
  function FirstMatch(items: seq<Node>, pathname: string): Option<Node>
  {
    if items == [] then None
    else
      var before := FirstMatch(items[..|items| - 1], pathname);
      if before.Some? then before else FirstMatchOf(items[|items| - 1], pathname)
  }

  function FirstMatchOf(n: Node, pathname: string): Option<Node>
  {
    if RouteIs(n, pathname) then Some(n)
    else match n
      case Leaf(_, _, _) => None
      case Folder(_, _, children) => FirstMatch(children, pathname)
  }

  /** Reference definition: the first element of a flat node sequence whose route is the pathname. */
  function FirstWith(nodes: seq<Node>, pathname: string): (r: Option<Node>)
    ensures r.Some? ==> r.value in nodes && RouteIs(r.value, pathname)
    ensures r.None? ==> forall n :: n in nodes ==> !RouteIs(n, pathname)
  {
    if nodes == [] then None
    else
      var before := FirstWith(nodes[..|nodes| - 1], pathname);
      if before.Some? then before
      else if RouteIs(nodes[|nodes| - 1], pathname) then Some(nodes[|nodes| - 1])
      else None
  }

  lemma {:induction false} FirstWithAppend(a: seq<Node>, b: seq<Node>, pathname: string)
    ensures FirstWith(a + b, pathname)
      == if FirstWith(a, pathname).Some? then FirstWith(a, pathname) else FirstWith(b, pathname)
    decreases |b|
  {
    if b == [] {
      assert a + b == a;
    } else {
      var b' := b[..|b| - 1];
      assert (a + b)[..|a + b| - 1] == a + b';
      assert (a + b)[|a + b| - 1] == b[|b| - 1];
      FirstWithAppend(a, b', pathname);
    }
  }

  /** `findPage` finds the first node of the tree's pre-order listing whose route is the pathname. */
  lemma {:induction false} FirstMatchIsPreorderFirst(items: seq<Node>, pathname: string)
    ensures FirstMatch(items, pathname) == FirstWith(Nodes(items), pathname)
    decreases items, 1
  {
    if items != [] {
      var init, last := items[..|items| - 1], items[|items| - 1];
      FirstMatchIsPreorderFirst(init, pathname);
      FirstMatchOfIsPreorderFirst(last, pathname);
      FirstWithAppend(Nodes(init), NodesOf(last), pathname);
    }
  }

  lemma {:induction false} FirstMatchOfIsPreorderFirst(n: Node, pathname: string)
    ensures FirstMatchOf(n, pathname) == FirstWith(NodesOf(n), pathname)
    decreases n, 0
  {
    match n {
      case Leaf(_, _, _) =>
        assert [n][..0] == [];
      case Folder(_, _, children) =>
        FirstMatchIsPreorderFirst(children, pathname);
        FirstWithAppend([n], Nodes(children), pathname);
        assert [n][..0] == [];
    }
  }

  /** The config `getPageConfig` returns, as a value: defaults unless the first match is a page. */
  datatype Config = Config(title: Option<string>, frontMatter: FrontMatter)

  const DefaultConfig := Config(None, EmptyFrontMatter)

  function ConfigFor(pageMap: seq<Node>, pathname: string): Config
  {
    match FirstMatch(pageMap, pathname)
    case Some(Leaf(_, _, fm)) => Config(fm.title, fm)
    case _ => DefaultConfig
  }

  /**
   * What `getPageConfig` returns, stated over the pre-order listing: the first
   * node with that route decides; a page sets front matter and title, a folder
   * stops the search and keeps the defaults, no match keeps the defaults.
   */
  lemma ConfigForSpec(pageMap: seq<Node>, pathname: string)
    ensures var m := FirstWith(Nodes(pageMap), pathname);
      && (m.Some? && m.value.Leaf? ==>
            ConfigFor(pageMap, pathname) == Config(m.value.frontMatter.title, m.value.frontMatter))
      && (m.Some? && m.value.Folder? ==> ConfigFor(pageMap, pathname) == DefaultConfig)
      && ((forall n :: n in Nodes(pageMap) ==> !RouteIs(n, pathname)) ==> ConfigFor(pageMap, pathname) == DefaultConfig)
  {
    FirstMatchIsPreorderFirst(pageMap, pathname);
  }

  /** The mutable `config` object that `findPage` writes into. */
  class PageConfigObject {
    var title: Option<string>
    var frontMatter: FrontMatter

    /** `{ frontMatter: {} }`. */
    constructor ()
      ensures title == None && frontMatter == EmptyFrontMatter
    {
      title := None;
      frontMatter := EmptyFrontMatter;
    }

    function Value(): Config
      reads this
    {
      Config(title, frontMatter)
    }

    /**
     * `findPage(items)`: true iff some node of `items` has the route; on the
     * first such node, a page's front matter and title are written here.
     */
    method FindPage(items: seq<Node>, pathname: string) returns (found: bool)
      modifies this
      ensures found == FirstMatch(items, pathname).Some?
      ensures !found ==> Value() == old(Value())
      ensures found && FirstMatch(items, pathname).value.Leaf? ==>
        Value() == Config(FirstMatch(items, pathname).value.frontMatter.title, FirstMatch(items, pathname).value.frontMatter)
      ensures found && FirstMatch(items, pathname).value.Folder? ==> Value() == old(Value())
      decreases items
    {
      for i := 0 to |items|
        invariant FirstMatch(items[..i], pathname).None?
        invariant Value() == old(Value())
      {
        assert items[..i + 1][..i] == items[..i];
        var item := items[i];
        if RouteIs(item, pathname) {
          if item.Leaf? {
            frontMatter := item.frontMatter;
            title := item.frontMatter.title;
          }
          FirstMatchPrefix(items, i + 1, pathname);
          return true;
        }
        if item.Folder? {
          var inner := FindPage(item.children, pathname);
          if inner {
            FirstMatchPrefix(items, i + 1, pathname);
            return true;
          }
        }
      }
      assert items[..|items|] == items;
      return false;
    }
  }

  /** Once a prefix of the forest holds a match, the rest of it is never looked at. */
  lemma {:induction false} FirstMatchPrefix(items: seq<Node>, k: nat, pathname: string)
    requires k <= |items|
    requires FirstMatch(items[..k], pathname).Some?
    ensures FirstMatch(items, pathname) == FirstMatch(items[..k], pathname)
    decreases |items| - k
  {
    if k < |items| {
      assert items[..k + 1][..k] == items[..k];
      FirstMatchPrefix(items, k + 1, pathname);
    } else {
      assert items[..k] == items;
    }
  }

  /** `getPageConfig(pageMap, pathname)`: a fresh config, filled in by `findPage`. */
  method GetPageConfig(pageMap: seq<Node>, pathname: string) returns (config: PageConfigObject)
    ensures fresh(config)
    ensures config.Value() == ConfigFor(pageMap, pathname)
  {
    config := new PageConfigObject();
    var _ := config.FindPage(pageMap, pathname);
  }

  /**
   * The path `usePageConfig` looks up: the full path with i18n on; with i18n
   * off, the full path with a leading `/{locale}` stripped by text.
   */
  function LookupPath(asPath: string, locale: string, i18n: bool): (p: string)
    ensures '?' !in p && '#' !in p
    ensures i18n ==> p == PathPart(asPath)
    ensures !i18n ==> p == StripPrefix(PathPart(asPath), "/" + locale)
    ensures !i18n ==> StartsWith(asPath, p) || StartsWith(asPath, "/" + locale + p)
  {
    var fullPath := PathPart(asPath);
    if i18n then fullPath else StripPrefix(fullPath, "/" + locale)
  }

  /** `usePageConfig()`: the static and the dynamic page maps, one after the other, searched for the lookup path. */
  method UsePageConfig(staticMap: seq<Node>, dynamicMap: seq<Node>, asPath: string, locale: string, i18n: bool)
    returns (config: PageConfigObject)
    ensures fresh(config)
    ensures config.Value() == ConfigFor(staticMap + dynamicMap, LookupPath(asPath, locale, i18n))
  {
    config := GetPageConfig(staticMap + dynamicMap, LookupPath(asPath, locale, i18n));
  }


  /** The title before any suffix: front-matter title, else config title, else the default. */
  function ChosenTitle(config: Config, defaultTitle: string): (t: string)
    ensures config.frontMatter.title.Some? && config.frontMatter.title.value != "" ==> t == config.frontMatter.title.value
    ensures OrElse(config.frontMatter.title, "") == "" && OrElse(config.title, "") != "" ==> t == config.title.value
    ensures OrElse(config.frontMatter.title, "") == "" && OrElse(config.title, "") == "" ==> t == defaultTitle
    ensures t == "" ==> defaultTitle == ""
  {
    OrElse(config.frontMatter.title, OrElse(config.title, defaultTitle))
  }

  /**
   * `getPageTitle(config, defaultTitle)`: with i18n on, the title ends with the
   * default title and equals it exactly when the chosen title is the default.
   */
  function GetPageTitle(config: Config, defaultTitle: string, i18n: bool): (t: string)
    ensures !i18n ==> t == ChosenTitle(config, defaultTitle)
    ensures i18n ==> EndsWith(t, defaultTitle)
    ensures i18n ==> (t == defaultTitle <==> ChosenTitle(config, defaultTitle) == defaultTitle)
    ensures i18n && ChosenTitle(config, defaultTitle) != defaultTitle ==> StartsWith(t, ChosenTitle(config, defaultTitle) + " | ")
  {
    var title := ChosenTitle(config, defaultTitle);
    if !i18n then title
    else if title == defaultTitle then title
    else title + " | " + defaultTitle
  }

  /**
   * With i18n off the chosen title is returned unchanged; with i18n on the
   * result always ends in the default title and holds it exactly once when the
   * chosen title is the default.
   */
  lemma PageTitleSpec(config: Config, defaultTitle: string)
    ensures GetPageTitle(config, defaultTitle, false) == ChosenTitle(config, defaultTitle)
    ensures EndsWith(GetPageTitle(config, defaultTitle, true), defaultTitle)
    ensures ChosenTitle(config, defaultTitle) == defaultTitle ==> GetPageTitle(config, defaultTitle, true) == defaultTitle
    ensures ChosenTitle(config, defaultTitle) != defaultTitle ==>
      GetPageTitle(config, defaultTitle, true) == ChosenTitle(config, defaultTitle) + " | " + defaultTitle
  {
    var t := GetPageTitle(config, defaultTitle, true);
    assert t[|t| - |defaultTitle|..] == defaultTitle;
  }

  /** The title of a page found by route: its own non-empty title wins over the default. */
  lemma FoundPageTitle(pageMap: seq<Node>, pathname: string, defaultTitle: string)
    requires FirstMatch(pageMap, pathname).Some? && FirstMatch(pageMap, pathname).value.Leaf?
    requires FirstMatch(pageMap, pathname).value.frontMatter.title.Some?
    requires FirstMatch(pageMap, pathname).value.frontMatter.title.value != ""
    ensures GetPageTitle(ConfigFor(pageMap, pathname), defaultTitle, false)
      == FirstMatch(pageMap, pathname).value.frontMatter.title.value
  {
  }
}
