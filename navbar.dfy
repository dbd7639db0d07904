/**
 * The navigation bar (theme/src/components/Navbar.tsx): the menu read from the
 * `_meta` configuration, the route of each entry and submenu entry, and the
 * test that highlights the entry of the current page.
 */
module Navbar {
  import opened Wrappers
  import opened Strings

  /** A submenu entry of a `_meta` file: only its `href` matters to the routes. */
  datatype SubItem = SubItem(title: string, href: Option<string>)

  /** A top-level entry of a `_meta` file; `kind` is its `type` (`page`, `menu`, ...). */
  datatype MenuEntry = MenuEntry(title: string, kind: string, href: Option<string>, items: Option<seq<(string, SubItem)>>)

  /** A menu configuration as its `Object.entries`: key and entry, in insertion order. */
  type MenuConfig = seq<(string, MenuEntry)>

  /** The `meta` prop: absent (or another falsy value), a function returning the config, or the config itself. */
  datatype Meta = Missing | Thunk(result: MenuConfig) | Value(config: MenuConfig)

  /** `menuConfig`: `{}` for a missing meta, the function's result for a function, else the value. */
  function MenuConfigOf(meta: Meta): MenuConfig {
    match meta
    case Missing => []
    case Thunk(r) => r
    case Value(c) => c
  }

  /**
   * A missing meta gives an empty menu; a function and a plain value that
   * yield the same configuration give the same menu.
   */
  lemma MenuOfMeta(config: MenuConfig, locale: string)
    ensures MenuItems(MenuConfigOf(Missing), locale) == []
    ensures MenuItems(MenuConfigOf(Thunk(config)), locale) == MenuItems(MenuConfigOf(Value(config)), locale)
    ensures |MenuItems(MenuConfigOf(Value(config)), locale)| == |config|
  {
  }

  /** A menu item as the bar renders it: the entry with its `key` and a `route`. */
  datatype MenuItem = MenuItem(key: string, entry: MenuEntry, route: string)

  /** `route: item.href || '/{locale}/{key}'`. */
  function ItemRoute(key: string, entry: MenuEntry, locale: string): (route: string)
    ensures entry.href.Some? && entry.href.value != "" ==> route == entry.href.value
    ensures (entry.href.None? || entry.href.value == "") ==> route == "/" + locale + "/" + key
    ensures route != ""
  {
    OrElse(entry.href, "/" + locale + "/" + key)
  }

  /** `menuItems`: one item per configured entry, same keys, same order. */
  function MenuItems(config: MenuConfig, locale: string): (items: seq<MenuItem>)
    ensures |items| == |config|
    ensures forall i :: 0 <= i < |config| ==>
      items[i] == MenuItem(config[i].0, config[i].1, ItemRoute(config[i].0, config[i].1, locale))
  {
    seq(|config|, i requires 0 <= i < |config| => MenuItem(config[i].0, config[i].1, ItemRoute(config[i].0, config[i].1, locale)))
  }

  /** `subitem.href || '{item.route}/{key}'`: the route of a submenu entry. */
  function SubRoute(item: MenuItem, key: string, sub: SubItem): (route: string)
    ensures sub.href.Some? && sub.href.value != "" ==> route == sub.href.value
    ensures (sub.href.None? || sub.href.value == "") ==> route == item.route + "/" + key
  {
    OrElse(sub.href, item.route + "/" + key)
  }

  /** The routes of a menu's submenu, in order. */
  function SubmenuRoutes(item: MenuItem): (routes: seq<string>)
    ensures item.entry.items.None? ==> routes == []
    ensures item.entry.items.Some? ==> (|routes| == |item.entry.items.value|
      && forall i :: 0 <= i < |routes| ==>
           routes[i] == SubRoute(item, item.entry.items.value[i].0, item.entry.items.value[i].1))
  {
    match item.entry.items
    case None => []
    case Some(subs) => seq(|subs|, i requires 0 <= i < |subs| => SubRoute(item, subs[i].0, subs[i].1))
  }

  /** A path with a leading `/{locale}` (by text) and one trailing `/` removed. */
  function Normalize(path: string, locale: string): string {
    DropTrailingSlash(StripPrefix(path, "/" + locale))
  }

  /** The submenu path compared against: `(subitem.href || '{itemPath}/{key}')` without one trailing `/`; no locale stripping. */
  function SubmenuPath(itemPath: string, key: string, sub: SubItem): string {
    DropTrailingSlash(OrElse(sub.href, itemPath + "/" + key))
  }

  predicate SomeSubmenuMatches(subs: seq<(string, SubItem)>, itemPath: string, currentPath: string) {
    exists i :: 0 <= i < |subs| && currentPath == SubmenuPath(itemPath, subs[i].0, subs[i].1)
  }

  /**
   * `isMenuItemActive(item)`: never on an empty `asPath`; a `page` item when
   * the normalised paths agree; a `menu` item when the current path starts
   * with its path or equals one of its submenu paths; nothing else.
   */
  predicate IsMenuItemActive(item: MenuItem, asPath: string, locale: string) {
    if asPath == "" then false
    else
      var currentPath := Normalize(asPath, locale);
      var itemPath := Normalize(OrElse(item.entry.href, item.route), locale);
      if item.entry.kind == "page" then currentPath == itemPath
      else if item.entry.kind == "menu" then
        StartsWith(currentPath, itemPath)
        || (item.entry.items.Some? && SomeSubmenuMatches(item.entry.items.value, itemPath, currentPath))
      else false
  }

  /** The highlight rules, case by case. */
  lemma ActiveRules(item: MenuItem, asPath: string, locale: string)
    ensures asPath == "" ==> !IsMenuItemActive(item, asPath, locale)
    ensures item.entry.kind != "page" && item.entry.kind != "menu" ==> !IsMenuItemActive(item, asPath, locale)
    ensures asPath != "" && item.entry.kind == "page" ==>
      (IsMenuItemActive(item, asPath, locale) <==>
        Normalize(asPath, locale) == Normalize(OrElse(item.entry.href, item.route), locale))
    ensures asPath != "" && item.entry.kind == "menu" ==>
      (IsMenuItemActive(item, asPath, locale) <==>
        var itemPath := Normalize(OrElse(item.entry.href, item.route), locale);
        StartsWith(Normalize(asPath, locale), itemPath) ||
        (item.entry.items.Some? &&
         (exists i :: 0 <= i < |item.entry.items.value| &&
            Normalize(asPath, locale) == SubmenuPath(itemPath, item.entry.items.value[i].0, item.entry.items.value[i].1))))
    ensures asPath != "" && item.entry.kind == "menu" && Normalize(OrElse(item.entry.href, item.route), locale) == "" ==>
      IsMenuItemActive(item, asPath, locale)
  {
    if asPath != "" && item.entry.kind == "menu" && Normalize(OrElse(item.entry.href, item.route), locale) == "" {
      assert StartsWith(Normalize(asPath, locale), "");
    }
  }

  /** A `page` entry is highlighted on its path whether or not the current path carries the locale. */
  lemma PageActiveWithOrWithoutLocale(key: string, entry: MenuEntry, locale: string, p: string)
    requires entry.kind == "page" && entry.href == Some("/" + locale + p)
    requires p != "" && p[0] == '/' && !StartsWith(p, "/" + locale)
    ensures IsMenuItemActive(MenuItem(key, entry, ItemRoute(key, entry, locale)), p, locale)
    ensures IsMenuItemActive(MenuItem(key, entry, ItemRoute(key, entry, locale)), "/" + locale + p, locale)
  {
    var q := "/" + locale + p;
    assert StartsWith(q, "/" + locale) by { assert q[..|"/" + locale|] == "/" + locale; }
    assert StripPrefix(q, "/" + locale) == p;
  }

  /**
   * A `menu` entry is highlighted on every path under its own, whether or not
   * the current path carries the locale.
   */
  lemma MenuActiveWithOrWithoutLocale(key: string, entry: MenuEntry, locale: string, p: string, rest: string)
    requires entry.kind == "menu" && entry.href == Some("/" + locale + p)
    requires p != "" && p[|p| - 1] != '/' && (rest == "" || rest[|rest| - 1] != '/')
    requires !StartsWith(p + rest, "/" + locale)
    ensures IsMenuItemActive(MenuItem(key, entry, ItemRoute(key, entry, locale)), p + rest, locale)
    ensures IsMenuItemActive(MenuItem(key, entry, ItemRoute(key, entry, locale)), "/" + locale + p + rest, locale)
  {
    var pre := "/" + locale;
    assert StartsWith(pre + p, pre) by { assert (pre + p)[..|pre|] == pre; }
    assert StripPrefix(pre + p, pre) == p;
    var q := pre + p + rest;
    assert StartsWith(q, pre) by { assert q[..|pre|] == pre; }
    assert StripPrefix(q, pre) == p + rest;
    var r := p + rest;
    assert r[|r| - 1] != '/' by {
      if rest == "" { assert r == p; } else { assert r[|r| - 1] == rest[|rest| - 1]; }
    }
    assert StartsWith(r, p) by { assert r[..|p|] == p; }
  }
}
