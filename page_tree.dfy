/**
 * The page map that the content pipeline hands to the theme: a tree of folders
 * and markdown pages. The source tells the two apart by the shape of each item
 * (`'children' in item`, `'frontMatter' in item`); here the shape is the variant.
 */
module PageTree {
  import opened Wrappers
  import opened Strings

  /** The front matter record of a page (the `FrontMatter` interface, plus `icon` and `keywords` read by the head tags). */
  datatype FrontMatter = FrontMatter(
    title: Option<string>,
    description: Option<string>,
    game: Option<string>,
    cover: Option<string>,
    icon: Option<string>,
    keywords: Option<string>,
    date: Option<string>,
    category: Option<string>,
    tags: Option<seq<string>>,
    author: Option<string>,
    categories: Option<seq<string>>,
    layout: Option<string>,
    slug: Option<string>,
    locale: Option<string>,
    breadcrumb: Option<bool>)

  /** `{}`: a front matter with no key set. */
  const EmptyFrontMatter := FrontMatter(None, None, None, None, None, None, None, None, None, None, None, None, None, None, None)

  /**
   * A node of the page map. `route` is optional because the source reads it
   * with `item.route || ''` and `'route' in item`.
   */
  datatype Node =
    | Folder(name: string, route: Option<string>, children: seq<Node>)
    | Leaf(name: string, route: Option<string>, frontMatter: FrontMatter)

  /** `item.route || ''`. */
  function RouteOrEmpty(n: Node): string {
    n.route.GetOr("")
  }

  /** Every node of the forest in depth-first pre-order: a node before its children. */
  function Nodes(items: seq<Node>): seq<Node>
  {
    if items == [] then []
    else Nodes(items[..|items| - 1]) + NodesOf(items[|items| - 1])
  }

  function NodesOf(n: Node): seq<Node>
  {
    match n
    case Leaf(_, _, _) => [n]
    case Folder(_, _, children) => [n] + Nodes(children)
  }

  /** Every leaf of the forest, in document (pre-)order. */
  function Leaves(items: seq<Node>): seq<Node>
  {
    if items == [] then []
    else Leaves(items[..|items| - 1]) + LeavesOf(items[|items| - 1])
  }

  function LeavesOf(n: Node): seq<Node>
  {
    match n
    case Leaf(_, _, _) => [n]
    case Folder(_, _, children) => Leaves(children)
  }

  /** Every folder of the forest, in pre-order: a folder before the folders below it. */
  function Folders(items: seq<Node>): seq<Node>
  {
    if items == [] then []
    else Folders(items[..|items| - 1]) + FoldersOf(items[|items| - 1])
  }

  function FoldersOf(n: Node): seq<Node>
  {
    match n
    case Leaf(_, _, _) => []
    case Folder(_, _, children) => [n] + Folders(children)
  }

  /** Flattening distributes over concatenation of forests. */
  lemma FlattenAppend(a: seq<Node>, b: seq<Node>)
    ensures Nodes(a + b) == Nodes(a) + Nodes(b)
    ensures Leaves(a + b) == Leaves(a) + Leaves(b)
    ensures Folders(a + b) == Folders(a) + Folders(b)
  {
    NodesAppend(a, b);
    LeavesAppend(a, b);
    FoldersAppend(a, b);
  }

  /** Removing the last item of `a + b`, for a non-empty `b`, removes the last item of `b`. */
  lemma SplitLast(a: seq<Node>, b: seq<Node>)
    requires b != []
    ensures (a + b)[..|a + b| - 1] == a + b[..|b| - 1]
    ensures (a + b)[|a + b| - 1] == b[|b| - 1]
  {
  }

  lemma {:induction false} NodesAppend(a: seq<Node>, b: seq<Node>)
    ensures Nodes(a + b) == Nodes(a) + Nodes(b)
    decreases |b|
  {
    if b == [] {
      assert a + b == a;
    } else {
      var init, last := b[..|b| - 1], b[|b| - 1];
      SplitLast(a, b);
      NodesAppend(a, init);
      assert Nodes(a + b) == Nodes(a + init) + NodesOf(last);
      assert Nodes(b) == Nodes(init) + NodesOf(last);
      ConcatAssoc(Nodes(a), Nodes(init), NodesOf(last));
    }
  }

  lemma {:induction false} LeavesAppend(a: seq<Node>, b: seq<Node>)
    ensures Leaves(a + b) == Leaves(a) + Leaves(b)
    decreases |b|
  {
    if b == [] {
      assert a + b == a;
    } else {
      var init, last := b[..|b| - 1], b[|b| - 1];
      SplitLast(a, b);
      LeavesAppend(a, init);
      assert Leaves(a + b) == Leaves(a + init) + LeavesOf(last);
      assert Leaves(b) == Leaves(init) + LeavesOf(last);
      ConcatAssoc(Leaves(a), Leaves(init), LeavesOf(last));
    }
  }

  lemma {:induction false} FoldersAppend(a: seq<Node>, b: seq<Node>)
    ensures Folders(a + b) == Folders(a) + Folders(b)
    decreases |b|
  {
    if b == [] {
      assert a + b == a;
    } else {
      var init, last := b[..|b| - 1], b[|b| - 1];
      SplitLast(a, b);
      FoldersAppend(a, init);
      assert Folders(a + b) == Folders(a + init) + FoldersOf(last);
      assert Folders(b) == Folders(init) + FoldersOf(last);
      ConcatAssoc(Folders(a), Folders(init), FoldersOf(last));
    }
  }

  /** The leaves are exactly the nodes that are leaves; every folder is also a node. */
  lemma {:induction false} LeavesAreLeafNodes(items: seq<Node>)
    ensures forall n :: n in Leaves(items) ==> n.Leaf? && n in Nodes(items)
    ensures forall n :: n in Folders(items) ==> n.Folder? && n in Nodes(items)
    ensures forall n :: n in Nodes(items) && n.Leaf? ==> n in Leaves(items)
  {
    if items != [] {
      var init, last := items[..|items| - 1], items[|items| - 1];
      LeavesAreLeafNodes(init);
      match last {
        case Leaf(_, _, _) =>
        case Folder(_, _, children) => LeavesAreLeafNodes(children);
      }
    }
  }
}
