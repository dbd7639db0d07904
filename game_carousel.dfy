/**
 * The game carousel (theme/src/components/GameCarousel.tsx): a window of eight
 * games, two rows of four, moved one page at a time by the arrow buttons. The
 * component's `currentIndex` state is a field of `Carousel`, stepped by
 * `NextSlide` and `PrevSlide`.
 */
module GameCarousel {

  /** `itemsPerRow`. */
  const ItemsPerRow: nat := 4
  /** `rows`. */
  const Rows: nat := 2
  /** `itemsPerPage = itemsPerRow * rows`. */
  const ItemsPerPage: nat := ItemsPerRow * Rows

  /** `Math.ceil(n / itemsPerPage)`. */
  function TotalPages(n: nat): (t: nat)
    ensures t * ItemsPerPage >= n
    ensures t == 0 || (t - 1) * ItemsPerPage < n
  {
    (n + ItemsPerPage - 1) / ItemsPerPage
  }

  /** The largest index the carousel can reach: `max(0, totalPages - 1)`. */
  function MaxIndex(n: nat): (m: nat)
    ensures m == if TotalPages(n) == 0 then 0 else TotalPages(n) - 1
  {
    if n == 0 then 0 else (n - 1) / ItemsPerPage
  }

  /** `canGoPrev`. */
  predicate CanGoPrev(index: nat) {
    index > 0
  }

  /** `canGoNext`: the page after this one would not be empty. */
  predicate CanGoNext(index: nat, n: nat) {
    (index + 1) * ItemsPerPage < n
  }

  /** The reachable indices are exactly those whose page is non-empty, and index 0. */
  predicate InRange(index: nat, n: nat) {
    index == 0 || index * ItemsPerPage < n
  }

  /** Multiplying by the same positive factor keeps a strict order, so it can be read back. */
  lemma LessOfProductLess(a: nat, b: nat, k: nat)
    requires k > 0 && a * k < b * k
    ensures a < b
  {
    assert b * k - a * k == (b - a) * k;
  }

  /** In range means at most `max(0, ceil(n / 8) - 1)`; a forward step stays in range exactly when allowed. */
  lemma InRangeBound(index: nat, n: nat)
    ensures InRange(index, n) <==> index <= MaxIndex(n)
    ensures CanGoNext(index, n) <==> index < MaxIndex(n)
  {
    var t := TotalPages(n);
    if index > 0 && index * ItemsPerPage < n {
      LessOfProductLess(index, t, ItemsPerPage);
    }
    if index > 0 && index <= MaxIndex(n) {
      assert index <= t - 1;
      assert index * ItemsPerPage <= (t - 1) * ItemsPerPage;
    }
    if CanGoNext(index, n) {
      LessOfProductLess(index + 1, t, ItemsPerPage);
    }
    if index < MaxIndex(n) {
      assert index + 1 <= t - 1;
      assert (index + 1) * ItemsPerPage <= (t - 1) * ItemsPerPage;
    }
  }

  /**
   * At a reachable index the back button works everywhere but on the first
   * page, and the forward button everywhere but on the last.
   */
  lemma ButtonsAtReachableIndex(index: nat, n: nat)
    requires InRange(index, n)
    ensures CanGoPrev(index) <==> index != 0
    ensures CanGoNext(index, n) <==> index != MaxIndex(n)
    ensures CanGoPrev(index) ==> InRange(index - 1, n)
    ensures CanGoNext(index, n) ==> InRange(index + 1, n)
  {
    InRangeBound(index, n);
    InRangeBound(index + 1, n);
    if index > 0 {
      InRangeBound(index - 1, n);
    }
  }

  /** `showNavigation`: the arrows appear only when there is a second page. */
  predicate ShowNavigation(n: nat) {
    n > ItemsPerPage
  }

  lemma ShowNavigationIffSecondPage(n: nat)
    ensures ShowNavigation(n) <==> CanGoNext(0, n)
    ensures ShowNavigation(n) <==> TotalPages(n) > 1
  {
  }

  function Min(a: nat, b: nat): nat {
    if a <= b then a else b
  }

  /** `games.slice(index * 8, (index + 1) * 8)`, clipped to the list. */
  function VisibleGames<T>(games: seq<T>, index: nat): (v: seq<T>)
    ensures |v| <= ItemsPerPage
    ensures index * ItemsPerPage < |games| ==> |v| == Min(ItemsPerPage, |games| - index * ItemsPerPage)
    ensures index * ItemsPerPage >= |games| ==> v == []
    ensures forall i :: 0 <= i < |v| ==> index * ItemsPerPage + i < |games| && v[i] == games[index * ItemsPerPage + i]
  {
    games[Min(index * ItemsPerPage, |games|)..Min((index + 1) * ItemsPerPage, |games|)]
  }

  /** Within range, the window shows something whenever there are games. */
  lemma VisibleNonEmpty<T>(games: seq<T>, index: nat)
    requires InRange(index, |games|) && |games| > 0
    ensures VisibleGames(games, index) != []
  {
  }

  /** `actualRows = Math.ceil(visible / 4)`. */
  function ActualRows(visible: nat): (r: nat)
    ensures r * ItemsPerRow >= visible
    ensures r == 0 || (r - 1) * ItemsPerRow < visible
  {
    (visible + ItemsPerRow - 1) / ItemsPerRow
  }

  /** A window of at most eight games needs at most two rows. */
  lemma ActualRowsAtMostTwo<T>(games: seq<T>, index: nat)
    ensures ActualRows(|VisibleGames(games, index)|) <= Rows
  {
    var v := |VisibleGames(games, index)|;
    var r := ActualRows(v);
    if r > 0 {
      LessOfProductLess(r - 1, Rows, ItemsPerRow);
    }
  }

  /** `visibleGames.slice(row * 4, (row + 1) * 4)`. */
  function Row<T>(visible: seq<T>, row: nat): seq<T> {
    visible[Min(row * ItemsPerRow, |visible|)..Min((row + 1) * ItemsPerRow, |visible|)]
  }

  /** The rows 0..k-1 laid end to end. */
  function RowsUpTo<T>(visible: seq<T>, k: nat): seq<T> {
    if k == 0 then [] else RowsUpTo(visible, k - 1) + Row(visible, k - 1)
  }

  lemma {:induction false} RowsUpToPrefix<T>(visible: seq<T>, k: nat)
    ensures RowsUpTo(visible, k) == visible[..Min(k * ItemsPerRow, |visible|)]
  {
    if k > 0 {
      RowsUpToPrefix(visible, k - 1);
      var a := Min((k - 1) * ItemsPerRow, |visible|);
      var b := Min(k * ItemsPerRow, |visible|);
      assert visible[..a] + visible[a..b] == visible[..b];
    }
  }

  /** The rendered rows partition the visible games in order; no row is empty and none holds more than four. */
  lemma RowsPartitionVisible<T>(visible: seq<T>)
    ensures RowsUpTo(visible, ActualRows(|visible|)) == visible
    ensures forall r :: 0 <= r < ActualRows(|visible|) ==> 1 <= |Row(visible, r)| <= ItemsPerRow
  {
    RowsUpToPrefix(visible, ActualRows(|visible|));
    assert visible[..|visible|] == visible;
    forall r | 0 <= r < ActualRows(|visible|) ensures 1 <= |Row(visible, r)| <= ItemsPerRow {
      var t := ActualRows(|visible|);
      assert r <= t - 1;
      assert r * ItemsPerRow <= (t - 1) * ItemsPerRow;
    }
  }

  /** The carousel's state: the games it was given and the index of the page shown. */
  class Carousel<T> {
    const games: seq<T>
    var currentIndex: nat

    ghost predicate Valid()
      reads this
    {
      InRange(currentIndex, |games|)
    }

    /** `useState(0)`. */
    constructor(games: seq<T>)
      ensures this.games == games && currentIndex == 0
      ensures Valid()
    {
      this.games := games;
      currentIndex := 0;
    }

    /** `nextSlide`: one page forward when `canGoNext`, else nothing. */
    method NextSlide()
      requires Valid()
      modifies this
      ensures Valid()
      ensures old(CanGoNext(currentIndex, |games|)) ==> currentIndex == old(currentIndex) + 1
      ensures !old(CanGoNext(currentIndex, |games|)) ==> currentIndex == old(currentIndex)
    {
      if CanGoNext(currentIndex, |games|) {
        currentIndex := currentIndex + 1;
      }
    }

    /** `prevSlide`: one page back when `canGoPrev`, else nothing. */
    method PrevSlide()
      requires Valid()
      modifies this
      ensures Valid()
      ensures old(CanGoPrev(currentIndex)) ==> currentIndex == old(currentIndex) - 1
      ensures !old(CanGoPrev(currentIndex)) ==> currentIndex == old(currentIndex)
    {
      if CanGoPrev(currentIndex) {
        currentIndex := currentIndex - 1;
      }
    }

    /** The window now on screen: never empty while there are games. */
    method Visible() returns (v: seq<T>)
      requires Valid()
      ensures v == VisibleGames(games, currentIndex)
      ensures |games| > 0 ==> v != []
      ensures ActualRows(|v|) <= Rows
    {
      v := VisibleGames(games, currentIndex);
      ActualRowsAtMostTwo(games, currentIndex);
    }
  }
}
