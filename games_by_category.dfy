/**
 * Game listings assembled from the page map (theme/src/utils/getGamesByCategory.ts):
 * every page under a category prefix, and the pages directly inside the folder
 * of the current path. Both walk the tree depth first and push entries into a
 * local list, so both are methods proved against a specification function.
 */
module GamesByCategory {
  import opened Wrappers
  import opened Strings
  import opened PageTree

  /** The route prefix a category page must start with: `/{locale}/{category}/` with i18n, else `/{category}/`. */
  function CategoryPrefix(category: string, locale: string, i18n: bool): (p: string)
    ensures |p| > 0 && p[0] == '/' && p[|p| - 1] == '/'
    ensures !i18n ==> p == "/" + category + "/"
  {
    if i18n then "/" + locale + "/" + category + "/" else "/" + category + "/"
  }

  /** A leaf that `getGamesByCategory` turns into an entry: not `index`, route under the prefix. */
  predicate Listed(n: Node, prefix: string) {
    n.Leaf? && n.name != "index" && StartsWith(RouteOrEmpty(n), prefix)
  }

  /** `{ ...frontMatter, slug: route }`: the leaf's front matter with `slug` replaced. */
  function Entry(fm: FrontMatter, slug: Option<string>): (e: FrontMatter)
    ensures e.slug == slug
    ensures e.(slug := fm.slug) == fm
  {
    fm.(slug := slug)
  }

  // ---------------------------------------------------------------------------
  // Category listing (getGamesByCategory)

  /** What the traversal pushes for the forest `items`, in visiting order. */
  function CategoryEntries(items: seq<Node>, prefix: string): seq<FrontMatter>
  {
    if items == [] then []
    else CategoryEntries(items[..|items| - 1], prefix) + CategoryEntriesOf(items[|items| - 1], prefix)
  }

  function CategoryEntriesOf(n: Node, prefix: string): seq<FrontMatter>
  {
    match n
    case Folder(_, _, children) => CategoryEntries(children, prefix)
    case Leaf(name, _, fm) =>
      if name != "index" && StartsWith(RouteOrEmpty(n), prefix) then [Entry(fm, Some(RouteOrEmpty(n)))] else []
  }

  /** Reference definition: keep the listed leaves of a leaf sequence, project each. */
  function SelectListed(leaves: seq<Node>, prefix: string): seq<FrontMatter>
  {
    if leaves == [] then []
    else
      var l := leaves[|leaves| - 1];
      SelectListed(leaves[..|leaves| - 1], prefix)
      + (if Listed(l, prefix) then [Entry(l.frontMatter, Some(RouteOrEmpty(l)))] else [])
  }

  lemma {:induction false} SelectListedAppend(a: seq<Node>, b: seq<Node>, prefix: string)
    ensures SelectListed(a + b, prefix) == SelectListed(a, prefix) + SelectListed(b, prefix)
    decreases |b|
  {
    if b != [] {
      var b' := b[..|b| - 1];
      assert (a + b)[..|a + b| - 1] == a + b';
      assert (a + b)[|a + b| - 1] == b[|b| - 1];
      SelectListedAppend(a, b', prefix);
    } else {
      assert a + b == a;
    }
  }

  /**
   * The category listing is the document-order sequence of the tree's leaves,
   * filtered to the listed ones: folders only contribute their descendants,
   * and nothing is reordered.
   */
  lemma {:induction false} CategoryEntriesAreListedLeaves(items: seq<Node>, prefix: string)
    ensures CategoryEntries(items, prefix) == SelectListed(Leaves(items), prefix)
  {
    if items != [] {
      var init, last := items[..|items| - 1], items[|items| - 1];
      CategoryEntriesAreListedLeaves(init, prefix);
      SelectListedAppend(Leaves(init), LeavesOf(last), prefix);
      match last {
        case Leaf(_, _, _) =>
          assert SelectListed([last], prefix) == SelectListed([], prefix) + CategoryEntriesOf(last, prefix);
        case Folder(_, _, children) =>
          CategoryEntriesAreListedLeaves(children, prefix);
      }
    }
  }

  /** Every selected entry comes from a listed leaf: never an `index` page, never a folder, always under the prefix. */
  lemma {:induction false} SelectListedMembers(leaves: seq<Node>, prefix: string)
    ensures forall e :: e in SelectListed(leaves, prefix) ==>
      exists l :: l in leaves && Listed(l, prefix) && e == Entry(l.frontMatter, Some(RouteOrEmpty(l)))
    ensures forall e :: e in SelectListed(leaves, prefix) ==> e.slug.Some? && StartsWith(e.slug.value, prefix)
  {
    if leaves != [] {
      SelectListedMembers(leaves[..|leaves| - 1], prefix);
    }
  }

  /** The listing's entries in terms of the tree: each is a listed leaf of the tree, with its route as slug. */
  lemma CategoryEntriesMembers(items: seq<Node>, prefix: string)
    ensures forall e :: e in CategoryEntries(items, prefix) ==>
      exists l :: l in Leaves(items) && l.Leaf? && l.name != "index" && StartsWith(RouteOrEmpty(l), prefix)
                  && e == Entry(l.frontMatter, Some(RouteOrEmpty(l)))
    ensures forall e :: e in CategoryEntries(items, prefix) ==> e.slug.Some? && StartsWith(e.slug.value, prefix)
  {
    CategoryEntriesAreListedLeaves(items, prefix);
    SelectListedMembers(Leaves(items), prefix);
  }

  /** A leaf with no route reads as `''`, which no prefix starting with `/` matches. */
  lemma UnroutedLeafNeverListed(n: Node, category: string, locale: string, i18n: bool)
    requires n.Leaf? && n.route == None
    ensures !Listed(n, CategoryPrefix(category, locale, i18n))
  {
  }

  /** The recursive `traverse` closure: appends what `items` contributes to `games`. */
  method CollectCategory(items: seq<Node>, prefix: string, games: seq<FrontMatter>) returns (out: seq<FrontMatter>)
    ensures out == games + CategoryEntries(items, prefix)
    decreases items
  {
    out := games;
    var i := 0;
    while i < |items|
      invariant 0 <= i <= |items|
      invariant out == games + CategoryEntries(items[..i], prefix)
      decreases |items| - i
    {
      assert items[..i + 1][..i] == items[..i];
      var item := items[i];
      match item {
        case Folder(_, _, children) =>
          out := CollectCategory(children, prefix, out);
        case Leaf(name, _, fm) =>
          if name != "index" {
            var route := RouteOrEmpty(item);
            if StartsWith(route, prefix) {
              out := out + [Entry(fm, Some(route))];
            }
          }
      }
      i := i + 1;
    }
    assert items[..i] == items;
  }

  /**
   * `getGamesByCategory(pageMap, category, locale)`: every non-index page under
   * the category, in document order, with its route as slug. With i18n off the
   * locale plays no part.
   */
  method GetGamesByCategory(pageMap: seq<Node>, category: string, locale: string, i18n: bool)
    returns (games: seq<FrontMatter>)
    ensures games == SelectListed(Leaves(pageMap), CategoryPrefix(category, locale, i18n))
    ensures forall e :: e in games ==> e.slug.Some? && StartsWith(e.slug.value, CategoryPrefix(category, locale, i18n))
    ensures !i18n ==> games == CategoryEntries(pageMap, "/" + category + "/")
  {
    var prefix := CategoryPrefix(category, locale, i18n);
    games := CollectCategory(pageMap, prefix, []);
    CategoryEntriesMembers(pageMap, prefix);
    CategoryEntriesAreListedLeaves(pageMap, prefix);
  }

  // ---------------------------------------------------------------------------
  // Directory listing (getGamesInCurrentDirectory)

  /**
   * The folder route looked for: drop one trailing `/index`, strip a leading
   * `/{locale}` by text and put `/{locale}` back (i18n only), drop one trailing `/`.
   * With i18n the strip-then-prefix pair only adds `/{locale}` where the path
   * does not already start with it as text: `/enx/...` counts as starting with `/en`.
   */
  function TargetPath(currentPath: string, locale: string, i18n: bool): (t: string)
    ensures var cleanPath := StripSuffix(currentPath, "/index");
      i18n ==> t == DropTrailingSlash(if StartsWith(cleanPath, "/" + locale) then cleanPath else "/" + locale + cleanPath)
    ensures !i18n ==> t == DropTrailingSlash(StripSuffix(currentPath, "/index"))
  {
    var cleanPath := StripSuffix(currentPath, "/index");
    if i18n then DropTrailingSlash("/" + locale + StripPrefix(cleanPath, "/" + locale))
    else DropTrailingSlash(cleanPath)
  }

  lemma TargetPathExamples()
    ensures TargetPath("/en/games/index", "en", true) == "/en/games"
    ensures TargetPath("/games/", "en", true) == "/en/games"
    ensures TargetPath("/enx/games", "en", true) == "/enx/games"
    ensures TargetPath("/en/games/", "en", false) == "/en/games"
  {
    assert EndsWith("/en/games/index", "/index");
    assert StripSuffix("/en/games/index", "/index") == "/en/games";
    assert StartsWith("/en/games", "/en");
    assert "/games/"[..3] != "/en" by { assert "/games/"[1] == 'g'; }
    assert StartsWith("/enx/games", "/en");
  }

  /** `(item.route || '').replace(/\/$/, '')`: the folder's route as compared with the target. */
  function FolderKey(n: Node): string {
    DropTrailingSlash(RouteOrEmpty(n))
  }

  /** The entries a matching folder contributes: its direct non-index page children, slug = route. */
  function DirectEntries(children: seq<Node>): seq<FrontMatter>
  {
    if children == [] then []
    else
      var c := children[|children| - 1];
      DirectEntries(children[..|children| - 1])
      + (if c.Leaf? && c.name != "index" then [Entry(c.frontMatter, c.route)] else [])
  }

  /** What the traversal pushes for the forest `items`, in visiting order. */
  function DirectoryEntries(items: seq<Node>, target: string): seq<FrontMatter>
  {
    if items == [] then []
    else DirectoryEntries(items[..|items| - 1], target) + DirectoryEntriesOf(items[|items| - 1], target)
  }

  function DirectoryEntriesOf(n: Node, target: string): seq<FrontMatter>
  {
    match n
    case Leaf(_, _, _) => []
    case Folder(_, _, children) =>
      (if FolderKey(n) == target then DirectEntries(children) else []) + DirectoryEntries(children, target)
  }

  /** Reference definition: over the tree's folders in pre-order, the direct entries of those that match. */
  function GatherMatching(folders: seq<Node>, target: string): seq<FrontMatter>
  {
    if folders == [] then []
    else
      var f := folders[|folders| - 1];
      GatherMatching(folders[..|folders| - 1], target)
      + (if f.Folder? && FolderKey(f) == target then DirectEntries(f.children) else [])
  }

  lemma {:induction false} GatherMatchingAppend(a: seq<Node>, b: seq<Node>, target: string)
    ensures GatherMatching(a + b, target) == GatherMatching(a, target) + GatherMatching(b, target)
    decreases |b|
  {
    if b != [] {
      var b' := b[..|b| - 1];
      assert (a + b)[..|a + b| - 1] == a + b';
      assert (a + b)[|a + b| - 1] == b[|b| - 1];
      GatherMatchingAppend(a, b', target);
    } else {
      assert a + b == a;
    }
  }

  /**
   * The directory listing is the concatenation, over every folder of the tree in
   * pre-order whose key equals the target, of that folder's direct page children.
   * Top-level pages and pages that sit deeper than one level below a matching
   * folder (inside a non-matching subfolder) contribute nothing.
   */
  lemma {:induction false} DirectoryEntriesAreMatchingFolders(items: seq<Node>, target: string)
    ensures DirectoryEntries(items, target) == GatherMatching(Folders(items), target)
    decreases items, 1
  {
    if items != [] {
      var init, last := items[..|items| - 1], items[|items| - 1];
      DirectoryEntriesAreMatchingFolders(init, target);
      DirectoryEntriesOfIsMatchingFolders(last, target);
      GatherMatchingAppend(Folders(init), FoldersOf(last), target);
    }
  }

  lemma {:induction false} DirectoryEntriesOfIsMatchingFolders(n: Node, target: string)
    ensures DirectoryEntriesOf(n, target) == GatherMatching(FoldersOf(n), target)
    decreases n, 0
  {
    match n {
      case Leaf(_, _, _) =>
      case Folder(_, _, children) =>
        DirectoryEntriesAreMatchingFolders(children, target);
        GatherMatchingAppend([n], Folders(children), target);
        assert [n][..0] == [];
    }
  }

  /** No folder whose key equals the target: the listing is empty. */
  lemma {:induction false} NoMatchingFolderGivesEmpty(folders: seq<Node>, target: string)
    requires forall f :: f in folders ==> FolderKey(f) != target
    ensures GatherMatching(folders, target) == []
  {
    if folders != [] {
      NoMatchingFolderGivesEmpty(folders[..|folders| - 1], target);
    }
  }

  /** Every direct entry is the front matter of a non-index page that is a direct child. */
  lemma {:induction false} DirectEntriesMembers(children: seq<Node>)
    ensures forall e :: e in DirectEntries(children) ==>
      exists c :: c in children && c.Leaf? && c.name != "index" && e == Entry(c.frontMatter, c.route)
  {
    if children != [] {
      DirectEntriesMembers(children[..|children| - 1]);
    }
  }

  /** Collects the direct non-index page children of one matching folder (the inner `forEach`). */
  method CollectDirect(children: seq<Node>, games: seq<FrontMatter>) returns (out: seq<FrontMatter>)
    ensures out == games + DirectEntries(children)
  {
    out := games;
    var j := 0;
    while j < |children|
      invariant 0 <= j <= |children|
      invariant out == games + DirectEntries(children[..j])
    {
      assert children[..j + 1][..j] == children[..j];
      var child := children[j];
      if child.Leaf? && child.name != "index" {
        out := out + [Entry(child.frontMatter, child.route)];
      }
      j := j + 1;
    }
    assert children[..j] == children;
  }

  /** The recursive `traverse` closure of the directory listing. */
  method CollectDirectory(items: seq<Node>, target: string, games: seq<FrontMatter>) returns (out: seq<FrontMatter>)
    ensures out == games + DirectoryEntries(items, target)
    decreases items
  {
    out := games;
    var i := 0;
    while i < |items|
      invariant 0 <= i <= |items|
      invariant out == games + DirectoryEntries(items[..i], target)
      decreases |items| - i
    {
      DirectoryEntriesStep(items, i, target);
      ghost var before := out;
      var item := items[i];
      if item.Folder? {
        ghost var direct := if FolderKey(item) == target then DirectEntries(item.children) else [];
        if FolderKey(item) == target {
          out := CollectDirect(item.children, out);
        }
        out := CollectDirectory(item.children, target, out);
        ConcatAssoc(before, direct, DirectoryEntries(item.children, target));
      }
      assert out == before + DirectoryEntriesOf(item, target);
      ConcatAssoc(games, DirectoryEntries(items[..i], target), DirectoryEntriesOf(item, target));
      i := i + 1;
    }
    assert items[..i] == items;
  }

  /** One more item of the forest adds what the traversal pushes for that item. */
  lemma DirectoryEntriesStep(items: seq<Node>, i: nat, target: string)
    requires i < |items|
    ensures DirectoryEntries(items[..i + 1], target) == DirectoryEntries(items[..i], target) + DirectoryEntriesOf(items[i], target)
  {
    assert items[..i + 1][..i] == items[..i];
  }

  /**
   * `getGamesInCurrentDirectory(pageMap, currentPath, locale)`: the direct
   * non-index pages of every folder whose key equals the target path, folder by
   * folder in pre-order; empty when no folder matches.
   */
  method GetGamesInCurrentDirectory(pageMap: seq<Node>, currentPath: string, locale: string, i18n: bool)
    returns (games: seq<FrontMatter>)
    ensures games == GatherMatching(Folders(pageMap), TargetPath(currentPath, locale, i18n))
    ensures (forall f :: f in Folders(pageMap) ==> FolderKey(f) != TargetPath(currentPath, locale, i18n)) ==> games == []
  {
    var target := TargetPath(currentPath, locale, i18n);
    games := CollectDirectory(pageMap, target, []);
    DirectoryEntriesAreMatchingFolders(pageMap, target);
    if forall f :: f in Folders(pageMap) ==> FolderKey(f) != target {
      NoMatchingFolderGivesEmpty(Folders(pageMap), target);
    }
  }
}
