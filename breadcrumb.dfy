/**
 * The breadcrumb trail (theme/src/components/Breadcrumb.tsx). `generateBreadcrumb`
 * walks the path segments in a loop, extending a running path and pushing one
 * crumb per segment; `GenerateBreadcrumb` is that loop, proved against the
 * trail `Breadcrumbs` describes.
 */
module Breadcrumb {
  import opened Wrappers
  import opened Strings

  /** One crumb: its label and its link. */
  datatype Crumb = Crumb(name: string, href: string)

  /** `${locale}` in a template: the router locale, `undefined` when there is none. */
  function LocaleText(locale: Option<string>): string {
    locale.GetOr("undefined")
  }

  predicate IsZh(locale: Option<string>) {
    locale == Some("zh")
  }

  /** The first crumb: `首页` for Chinese, else `Home`, linking to `/{locale}`. */
  function Home(locale: Option<string>): Crumb {
    Crumb(if IsZh(locale) then "首页" else "Home", "/" + LocaleText(locale))
  }

  /** The label of a segment: `games`, `about` and `download` are translated, anything else is shown as it is. */
  function Label(segment: string, locale: Option<string>): (name: string)
    ensures segment !in {"games", "about", "download"} ==> name == segment
    ensures segment == "games" ==> name == (if IsZh(locale) then "游戏" else "Games")
    ensures segment == "about" ==> name == (if IsZh(locale) then "关于" else "About")
    ensures segment == "download" ==> name == (if IsZh(locale) then "下载" else "Download")
  {
    if segment == "games" then (if IsZh(locale) then "游戏" else "Games")
    else if segment == "about" then (if IsZh(locale) then "关于" else "About")
    else if segment == "download" then (if IsZh(locale) then "下载" else "Download")
    else segment
  }

  /** `filter(Boolean)`: the non-empty strings, in order. */
  function NonEmpty(parts: seq<string>): (r: seq<string>)
    ensures forall i :: 0 <= i < |r| ==> r[i] != "" && r[i] in parts
    ensures forall p :: p in parts && p != "" ==> p in r
    ensures multiset(r) == multiset(parts)["" := 0]
  {
    if parts == [] then []
    else
      var init := parts[..|parts| - 1];
      var last := parts[|parts| - 1];
      var rest := NonEmpty(init);
      assert parts == init + [last];
      assert forall p :: p in parts ==> p in init || p == last;
      if last == "" then rest else rest + [last]
  }

  /**
   * Filtering distributes over concatenation; with the one-element cases this
   * fixes the order of the kept strings: they come in the order of `parts`.
   */
  lemma {:induction false} NonEmptyConcat(a: seq<string>, b: seq<string>)
    ensures NonEmpty(a + b) == NonEmpty(a) + NonEmpty(b)
    decreases |b|
  {
    if b == [] {
      assert a + b == a;
    } else {
      var init := b[..|b| - 1];
      var last := b[|b| - 1];
      var kept: seq<string> := if last == "" then [] else [last];
      var ab := a + b;
      assert ab[..|ab| - 1] == a + init && ab[|ab| - 1] == last;
      NonEmptyStep(ab);
      NonEmptyStep(b);
      NonEmptyConcat(a, init);
      ConcatAssoc(NonEmpty(a), NonEmpty(init), kept);
    }
  }

  /** Filtering a non-empty list filters all but its last string, then keeps that one iff non-empty. */
  lemma NonEmptyStep(parts: seq<string>)
    requires parts != []
    ensures NonEmpty(parts) == NonEmpty(parts[..|parts| - 1]) + (if parts[|parts| - 1] == "" then [] else [parts[|parts| - 1]])
  {
  }

  /** One string is kept iff it is non-empty. */
  lemma NonEmptySingle(x: string)
    ensures NonEmpty([x]) == (if x == "" then [] else [x])
  {
    assert [x][..0] == [];
  }

  /** `asPath.split('?')[0].split('/').filter(Boolean)`: only the query is cut, a `#` stays in the last segment. */
  function Segments(asPath: string): (segs: seq<string>)
    ensures forall i :: 0 <= i < |segs| ==> segs[i] != "" && '/' !in segs[i] && '?' !in segs[i]
  {
    var parts := Split(BeforeFirst(asPath, '?'), '/');
    var segs := NonEmpty(parts);
    assert forall i :: 0 <= i < |segs| ==> '?' !in segs[i] by {
      forall i | 0 <= i < |segs| ensures '?' !in segs[i] {
        var j :| 0 <= j < |parts| && parts[j] == segs[i];
        SplitPartsAvoid(BeforeFirst(asPath, '?'), '/', '?', j);
      }
    }
    segs
  }

  /** A character absent from a string is absent from every piece of its split. */
  lemma {:induction false} SplitPartsAvoid(s: string, c: char, d: char, j: nat)
    requires d !in s && j < |Split(s, c)|
    ensures d !in Split(s, c)[j]
    decreases |s|
  {
    var i := IndexOf(s, c);
    if i < |s| && j > 0 {
      assert forall x :: x in s[i + 1..] ==> x in s;
      SplitPartsAvoid(s[i + 1..], c, d, j - 1);
    } else {
      assert forall x :: x in s[..i] ==> x in s;
    }
  }

  /** `/seg1/seg2/...`: each segment preceded by `/`. */
  function PathOf(segs: seq<string>): (p: string)
    ensures |p| >= |segs|
  {
    if segs == [] then "" else PathOf(segs[..|segs| - 1]) + "/" + segs[|segs| - 1]
  }

  /** The crumb of segment `i` (`i >= 1`): its label, linked to `/{locale}` plus segments 1..i. */
  function SegmentCrumb(segs: seq<string>, locale: Option<string>, i: nat): Crumb
    requires 1 <= i < |segs|
  {
    Crumb(Label(segs[i], locale), "/" + LocaleText(locale) + PathOf(segs[1..i + 1]))
  }

  /** The trail after the first `k` segments have been visited. */
  function CrumbsUpTo(segs: seq<string>, locale: Option<string>, k: nat): (cs: seq<Crumb>)
    requires k <= |segs|
    ensures |cs| == if k == 0 then 1 else k
    ensures cs[0] == Home(locale)
    ensures forall i :: 1 <= i < |cs| ==> cs[i] == SegmentCrumb(segs, locale, i)
  {
    if k <= 1 then [Home(locale)]
    else CrumbsUpTo(segs, locale, k - 1) + [SegmentCrumb(segs, locale, k - 1)]
  }

  /** The trail for a path: home, then one crumb per segment after the first. */
  function Breadcrumbs(asPath: string, locale: Option<string>): seq<Crumb> {
    var segs := Segments(asPath);
    CrumbsUpTo(segs, locale, |segs|)
  }

  /** `generateBreadcrumb()`: the loop of the source, skipping the first segment. */
  method GenerateBreadcrumb(asPath: string, locale: Option<string>) returns (items: seq<Crumb>)
    ensures items == Breadcrumbs(asPath, locale)
  {
    var paths := Segments(asPath);
    items := [Home(locale)];
    var currentPath := "";
    for index := 0 to |paths|
      invariant index <= 1 ==> currentPath == ""
      invariant index >= 1 ==> currentPath == PathOf(paths[1..index])
      invariant items == CrumbsUpTo(paths, locale, index)
    {
      if index == 0 {
        continue;
      }
      PathOfStep(paths, index - 1);
      ConcatAssoc(currentPath, "/", paths[index]);
      CrumbsUpToStep(paths, locale, index);
      currentPath := currentPath + "/" + paths[index];
      items := items + [Crumb(Label(paths[index], locale), "/" + LocaleText(locale) + currentPath)];
    }
  }

  /** Visiting segment `k` appends its crumb. */
  lemma CrumbsUpToStep(segs: seq<string>, locale: Option<string>, k: nat)
    requires 1 <= k < |segs|
    ensures CrumbsUpTo(segs, locale, k + 1) == CrumbsUpTo(segs, locale, k) + [SegmentCrumb(segs, locale, k)]
  {
  }

  /** The trail has one crumb for home and one per segment after the first. */
  lemma BreadcrumbCount(asPath: string, locale: Option<string>)
    ensures var n := |Segments(asPath)|;
      |Breadcrumbs(asPath, locale)| == 1 + (if n == 0 then 0 else n - 1)
    ensures Breadcrumbs(asPath, locale)[0] == Home(locale)
  {
  }

  /** Each link is a proper prefix of the next: every crumb adds `/` and one segment. */
  lemma BreadcrumbHrefsNest(asPath: string, locale: Option<string>, i: nat)
    requires i + 1 < |Breadcrumbs(asPath, locale)|
    ensures var cs := Breadcrumbs(asPath, locale);
      && StartsWith(cs[i + 1].href, cs[i].href)
      && |cs[i].href| < |cs[i + 1].href|
  {
    var segs := Segments(asPath);
    var home := "/" + LocaleText(locale);
    var path := PathOf(segs[1..i + 1]);
    CrumbHref(segs, locale, i);
    CrumbHref(segs, locale, i + 1);
    PathOfStep(segs, i);
    ExtendedPrefix(home, path, "/" + segs[i + 1]);
  }

  /** `a + b` is a proper prefix of `a + (b + c)` for a non-empty `c`. */
  lemma ExtendedPrefix(a: string, b: string, c: string)
    requires c != ""
    ensures StartsWith(a + (b + c), a + b) && |a + b| < |a + (b + c)|
  {
    assert a + (b + c) == (a + b) + c;
    assert ((a + b) + c)[..|a + b|] == a + b;
  }

  /** The link of crumb `i` is `/{locale}` followed by segments 1..i; home has none of them. */
  lemma CrumbHref(segs: seq<string>, locale: Option<string>, i: nat)
    requires i < |segs|
    ensures CrumbsUpTo(segs, locale, |segs|)[i].href == "/" + LocaleText(locale) + PathOf(segs[1..i + 1])
  {
    if i == 0 {
      assert PathOf(segs[1..1]) == "";
    }
  }

  /** Extending the segments by one adds `/` and that segment to the path. */
  lemma PathOfStep(segs: seq<string>, i: nat)
    requires i + 1 < |segs|
    ensures PathOf(segs[1..i + 2]) == PathOf(segs[1..i + 1]) + ("/" + segs[i + 1])
  {
    assert segs[1..i + 2][..i] == segs[1..i + 1];
    assert PathOf(segs[1..i + 1]) + "/" + segs[i + 1] == PathOf(segs[1..i + 1]) + ("/" + segs[i + 1]);
  }

  /** Which crumb is highlighted: `index === breadcrumbs.length - 2` over the crumbs after home. */
  predicate Highlighted(crumbs: seq<Crumb>, i: nat) {
    i >= 1 && i - 1 == |crumbs| - 2
  }

  /** Only the last crumb is highlighted, and home never is. */
  lemma OnlyLastHighlighted(crumbs: seq<Crumb>, i: nat)
    requires i < |crumbs|
    ensures Highlighted(crumbs, i) <==> i == |crumbs| - 1 && i >= 1
  {
  }

  /**
   * Every link starts with the router locale: the first segment, which the
   * trail skips as the language code, never appears in the links.
   */
  lemma LinksUnderRouterLocale(asPath: string, locale: Option<string>)
    ensures var cs := Breadcrumbs(asPath, locale);
      forall i :: 0 <= i < |cs| ==> StartsWith(cs[i].href, "/" + LocaleText(locale))
  {
    var segs := Segments(asPath);
    var cs := CrumbsUpTo(segs, locale, |segs|);
    var pre := "/" + LocaleText(locale);
    forall i | 0 <= i < |cs| ensures StartsWith(cs[i].href, pre) {
      var rest := if i == 0 then "" else PathOf(segs[1..i + 1]);
      assert cs[i].href == pre + rest;
      assert (pre + rest)[..|pre|] == pre;
    }
  }
}
