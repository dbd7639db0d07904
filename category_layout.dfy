/**
 * The category page (theme/src/layouts/category.tsx): the locale taken from the
 * path, the `page` query defaulting to 1, and the paginator that cuts the
 * directory listing into pages of twelve games.
 */
module CategoryLayout {
  import opened Wrappers
  import opened Strings
  import opened PageTree
  import opened GamesByCategory

  /** `pageSize`. */
  const PageSize: nat := 12

  /**
   * `pathname.split('/')[1] || router.locale || 'en'`: the text between the
   * first and the second `/`, else the router locale, else `en`; empty values
   * count as missing.
   */
  function PathLocale(pathname: string, routerLocale: Option<string>): (l: string)
    ensures l != ""
    ensures SecondField(pathname, '/').Some? && SecondField(pathname, '/').value != "" ==>
      l == SecondField(pathname, '/').value && '/' !in l
    ensures (SecondField(pathname, '/').None? || SecondField(pathname, '/').value == "") ==>
      l == OrElse(routerLocale, "en")
  {
    OrElse(SecondField(pathname, '/'), OrElse(routerLocale, "en"))
  }

  /** A path `/{seg}/...` or `/{seg}` yields `seg` as its locale. */
  lemma PathLocaleOfPrefixedPath(seg: string, rest: string, routerLocale: Option<string>)
    requires seg != "" && '/' !in seg
    ensures PathLocale("/" + seg, routerLocale) == seg
    ensures PathLocale("/" + seg + "/" + rest, routerLocale) == seg
  {
    var p := "/" + seg;
    assert IndexOf(p, '/') == 0;
    assert p[1..] == seg;
    assert BeforeFirst(seg, '/') == seg by {
      assert IndexOf(seg, '/') == |seg|;
    }
    var q := "/" + seg + "/" + rest;
    assert IndexOf(q, '/') == 0;
    assert q[1..] == seg + "/" + rest;
    assert IndexOf(seg + "/" + rest, '/') == |seg| by {
      LeadingSegmentIndex(seg, rest);
    }
    assert (seg + "/" + rest)[..|seg|] == seg;
  }

  lemma {:induction false} LeadingSegmentIndex(seg: string, rest: string)
    requires '/' !in seg
    ensures IndexOf(seg + "/" + rest, '/') == |seg|
    decreases |seg|
  {
    if seg != [] {
      assert (seg + "/" + rest)[1..] == seg[1..] + "/" + rest;
      LeadingSegmentIndex(seg[1..], rest);
    }
  }

  /**
   * `Number(query.page) || 1`: a non-empty digit string with a non-zero value
   * is that page; a missing, empty, zero or non-numeric value is page 1.
   */
  function CurrentPage(pageQuery: Option<string>): (page: nat)
    ensures page >= 1
    ensures pageQuery.None? ==> page == 1
    ensures pageQuery.Some? && page != 1 ==>
      pageQuery.value != "" && (forall i :: 0 <= i < |pageQuery.value| ==> IsDigit(pageQuery.value[i]))
      && page == DigitsValue(pageQuery.value)
    ensures (pageQuery.Some? && pageQuery.value != [] && (forall i :: 0 <= i < |pageQuery.value| ==> IsDigit(pageQuery.value[i]))
             && DigitsValue(pageQuery.value) != 0) ==>
      page == DigitsValue(pageQuery.value)
  {
    match pageQuery
    case None => 1
    case Some(s) =>
      if s != [] && (forall i :: 0 <= i < |s| ==> IsDigit(s[i])) && DigitsValue(s) != 0 then DigitsValue(s)
      else 1
  }

  /** The query a pager link writes, `String(p)` for a page `p >= 1`, reads back as page `p`. */
  lemma CurrentPageOfLink(p: nat)
    requires p >= 1
    ensures CurrentPage(Some(NatToString(p))) == p
  {
    NatToStringRoundTrip(p);
  }

  lemma CurrentPageExamples()
    ensures CurrentPage(Some("3")) == 3
    ensures CurrentPage(Some("0")) == 1
    ensures CurrentPage(Some("")) == 1
    ensures CurrentPage(Some("x")) == 1
  {
    assert DigitsValue("3") == DigitsValue("") * 10 + 3;
    assert DigitsValue("0") == DigitsValue("") * 10 + 0;
    assert !IsDigit("x"[0]);
  }

  /** `Math.ceil(total / pageSize)`: the least page count whose pages hold every game. */
  function TotalPages(total: nat): (t: nat)
    ensures t * PageSize >= total
    ensures t == 0 || (t - 1) * PageSize < total
  {
    (total + PageSize - 1) / PageSize
  }

  function Min(a: nat, b: nat): nat {
    if a <= b then a else b
  }

  /** `allGames.slice((page - 1) * 12, page * 12)`: both bounds are clipped to the length. */
  function PageSlice<T>(all: seq<T>, page: nat): (games: seq<T>)
    requires page >= 1
    ensures |games| <= PageSize
    ensures (page - 1) * PageSize >= |all| ==> games == []
    ensures (page - 1) * PageSize < |all| ==> |games| == Min(PageSize, |all| - (page - 1) * PageSize)
    ensures forall i :: 0 <= i < |games| ==> (page - 1) * PageSize + i < |all| && games[i] == all[(page - 1) * PageSize + i]
  {
    var start := Min((page - 1) * PageSize, |all|);
    var end := Min(page * PageSize, |all|);
    all[start..end]
  }

  /** What the category page shows: its games, the page count and the two arrows. */
  datatype Pagination<T> = Pagination(games: seq<T>, totalGames: nat, totalPages: nat, hasNextPage: bool, hasPrevPage: bool)

  /**
   * The paging arithmetic: `hasNextPage` (`page < totalPages`) holds exactly
   * when some game lies after this page, `hasPrevPage` exactly when the page
   * is not the first.
   */
  function Paginate<T>(all: seq<T>, page: nat): (v: Pagination<T>)
    requires page >= 1
    ensures v.games == PageSlice(all, page) && v.totalGames == |all| && v.totalPages == TotalPages(|all|)
    ensures v.hasNextPage <==> page * PageSize < |all|
    ensures v.hasPrevPage <==> page > 1
  {
    var totalPages := TotalPages(|all|);
    NextPageIffMoreGames(|all|, page);
    Pagination(PageSlice(all, page), |all|, totalPages, page < totalPages, page > 1)
  }

  lemma NextPageIffMoreGames(total: nat, page: nat)
    ensures page < TotalPages(total) <==> page * PageSize < total
  {
    var t := TotalPages(total);
    if page < t {
      assert page <= t - 1;
      assert page * PageSize <= (t - 1) * PageSize;
    } else {
      assert page * PageSize >= t * PageSize;
    }
  }

  /** Pages 1..k laid end to end. */
  function Pages<T>(all: seq<T>, k: nat): seq<T> {
    if k == 0 then [] else Pages(all, k - 1) + PageSlice(all, k)
  }

  /** The first k pages are exactly the first `12k` games (or all of them). */
  lemma {:induction false} PagesArePrefix<T>(all: seq<T>, k: nat)
    ensures Pages(all, k) == all[..Min(k * PageSize, |all|)]
  {
    if k > 0 {
      PagesArePrefix(all, k - 1);
      var a := Min((k - 1) * PageSize, |all|);
      var b := Min(k * PageSize, |all|);
      assert PageSlice(all, k) == all[a..b];
      assert all[..a] + all[a..b] == all[..b];
    }
  }

  /** Concatenating pages 1..totalPages gives back the whole listing, in order. */
  lemma PagesReassemble<T>(all: seq<T>)
    ensures Pages(all, TotalPages(|all|)) == all
  {
    PagesArePrefix(all, TotalPages(|all|));
    assert all[..|all|] == all;
  }

  /** Every page before the last holds twelve games, the last at least one, any later page none. */
  lemma PageSizes<T>(all: seq<T>, page: nat)
    requires page >= 1
    ensures page < TotalPages(|all|) ==> |PageSlice(all, page)| == PageSize
    ensures page == TotalPages(|all|) ==> |PageSlice(all, page)| >= 1
    ensures page > TotalPages(|all|) ==> PageSlice(all, page) == []
  {
    var t := TotalPages(|all|);
    if page < t {
      NextPageIffMoreGames(|all|, page);
    } else if page > t {
      assert (page - 1) * PageSize >= t * PageSize;
    }
  }

  /** 25 games make three pages: twelve, twelve and one. */
  lemma TwentyFiveGames<T>(all: seq<T>)
    requires |all| == 25
    ensures TotalPages(|all|) == 3
    ensures |PageSlice(all, 1)| == 12 && |PageSlice(all, 2)| == 12 && |PageSlice(all, 3)| == 1
    ensures PageSlice(all, 4) == []
  {
  }

  /**
   * The numbered links of the pager: none unless there are at least two
   * pages, then one per page 1..totalPages.
   */
  function PagerLinks(totalPages: nat): (links: seq<nat>)
    ensures totalPages <= 1 ==> links == []
    ensures totalPages > 1 ==> |links| == totalPages
    ensures forall i :: 0 <= i < |links| ==> links[i] == i + 1
  {
    if totalPages > 1 then seq(totalPages, i requires 0 <= i < totalPages => (i + 1) as nat)
    else []
  }

  /** Every page the pager offers has games on it. */
  lemma PagerLinksLeadToGames<T>(all: seq<T>, p: nat)
    requires p in PagerLinks(TotalPages(|all|))
    ensures 1 <= p <= TotalPages(|all|)
    ensures PageSlice(all, p) != []
  {
    var links := PagerLinks(TotalPages(|all|));
    var i :| 0 <= i < |links| && links[i] == p;
    PageSizes(all, p);
  }

  /** A query value: the router's strings, or the number `buildPageUrl` writes. */
  datatype QueryValue = Text(text: string) | Number(n: int)

  datatype PageUrl = PageUrl(pathname: string, query: map<string, QueryValue>)

  /** `buildPageUrl(page)`: the same pathname and query, with `page` set to the number. */
  function BuildPageUrl(pathname: string, query: map<string, QueryValue>, page: int): (u: PageUrl)
    ensures u.pathname == pathname
    ensures u.query.Keys == query.Keys + {"page"}
    ensures u.query["page"] == Number(page)
    ensures forall k :: k in query && k != "page" ==> u.query[k] == query[k]
  {
    PageUrl(pathname, query["page" := Number(page)])
  }

  /**
   * The whole computation of the category page: the games of the current
   * directory, cut to the requested page.
   */
  method CategoryPage(pageMap: seq<Node>, pathname: string, routerLocale: Option<string>,
                      pageQuery: Option<string>, i18n: bool)
    returns (view: Pagination<FrontMatter>)
    ensures var all := GatherMatching(Folders(pageMap), TargetPath(pathname, PathLocale(pathname, routerLocale), i18n));
      && view.games == PageSlice(all, CurrentPage(pageQuery))
      && view.totalPages == TotalPages(|all|)
      && (view.hasNextPage <==> CurrentPage(pageQuery) * PageSize < |all|)
      && (view.hasPrevPage <==> CurrentPage(pageQuery) > 1)
      && view.totalGames == |all|
      && view == Paginate(all, CurrentPage(pageQuery))
  {
    var locale := PathLocale(pathname, routerLocale);
    var allGames := GetGamesInCurrentDirectory(pageMap, pathname, locale, i18n);
    view := Paginate(allGames, CurrentPage(pageQuery));
  }
}
