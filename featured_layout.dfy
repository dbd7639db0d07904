/**
 * The featured page (theme/src/layouts/featured.tsx): for each category named
 * in the front matter, the first twenty games of that category under a title
 * derived from the category path.
 */
module FeaturedLayout {
  import opened Wrappers
  import opened Strings
  import opened PageTree
  import opened GamesByCategory

  /** How many games a featured carousel holds at most. */
  const FeaturedLimit: nat := 20

  /** `const { locale = 'en' } = router`: only a missing locale defaults; an empty one stays. */
  function FeaturedLocale(routerLocale: Option<string>): string {
    routerLocale.GetOr("en")
  }

  /** `games.slice(0, 20)`: the first twenty entries, or all when there are fewer. */
  function TopGames(all: seq<FrontMatter>): (top: seq<FrontMatter>)
    ensures |top| == if |all| < FeaturedLimit then |all| else FeaturedLimit
    ensures top == all[..|top|]
  {
    if |all| < FeaturedLimit then all else all[..FeaturedLimit]
  }

  /** `getFeaturedGames(category)`: the category listing cut to its first twenty entries. */
  method GetFeaturedGames(pageMap: seq<Node>, category: string, routerLocale: Option<string>, i18n: bool)
    returns (games: seq<FrontMatter>)
    ensures var all := SelectListed(Leaves(pageMap), CategoryPrefix(category, FeaturedLocale(routerLocale), i18n));
      && |games| == (if |all| < FeaturedLimit then |all| else FeaturedLimit)
      && games == all[..|games|]
  {
    var all := GetGamesByCategory(pageMap, category, FeaturedLocale(routerLocale), i18n);
    games := TopGames(all);
  }

  // ---------------------------------------------------------------------------
  // Category titles

  /** `word.charAt(0).toUpperCase() + word.slice(1)`: only the first character changes. */
  function Capitalize(word: string): (r: string)
    ensures |r| == |word|
    ensures |word| > 0 ==> r[0] == ToUpper(word[0]) && r[1..] == word[1..]
  {
    if word == [] then [] else [ToUpper(word[0])] + word[1..]
  }

  function CapitalizeAll(words: seq<string>): (r: seq<string>)
    ensures |r| == |words|
    ensures forall i :: 0 <= i < |words| ==> r[i] == Capitalize(words[i])
  {
    if words == [] then [] else [Capitalize(words[0])] + CapitalizeAll(words[1..])
  }

  /** `lastPart.split('-').map(capitalize).join(' ')`. */
  function TitleCase(w: string): string {
    Join(CapitalizeAll(Split(w, '-')), " ")
  }

  /** `getCategoryTitle(path)`: title-case the text after the last `/`. */
  function CategoryTitle(path: string): string {
    TitleCase(AfterLast(path, '/'))
  }

  /**
   * Reference definition of the title, character by character: a `-` becomes
   * a space, a character at the start or after a `-` is upper-cased, every
   * other character stays as it is (not lower-cased).
   */
  function TitleChar(w: string, i: nat): char
    requires i < |w|
  {
    if w[i] == '-' then ' '
    else if i == 0 || w[i - 1] == '-' then ToUpper(w[i])
    else w[i]
  }

  /** A word without `-` is capitalized exactly as the reference says. */
  lemma CapitalizeSpec(word: string)
    requires '-' !in word
    ensures forall i :: 0 <= i < |word| ==> Capitalize(word)[i] == TitleChar(word, i)
  {
    forall i | 0 < i < |word| ensures Capitalize(word)[i] == word[i] {
      assert Capitalize(word)[i] == Capitalize(word)[1..][i - 1];
    }
  }

  /** Splitting off the first word: capitalize it, then a space, then the rest. */
  lemma TitleCaseUnfold(w: string)
    ensures IndexOf(w, '-') == |w| ==> TitleCase(w) == Capitalize(w)
    ensures IndexOf(w, '-') < |w| ==>
      TitleCase(w) == Capitalize(w[..IndexOf(w, '-')]) + " " + TitleCase(w[IndexOf(w, '-') + 1..])
  {
    var k := IndexOf(w, '-');
    if k < |w| {
      var rest := w[k + 1..];
      var parts := Split(w, '-');
      assert parts == [w[..k]] + Split(rest, '-');
      assert CapitalizeAll(parts)[1..] == CapitalizeAll(Split(rest, '-'));
    }
  }

  /** Title-casing keeps the length and agrees with the reference at every position. */
  lemma {:induction false} TitleCaseSpec(w: string)
    ensures |TitleCase(w)| == |w|
    ensures forall i :: 0 <= i < |w| ==> TitleCase(w)[i] == TitleChar(w, i)
    decreases |w|
  {
    var k := IndexOf(w, '-');
    TitleCaseUnfold(w);
    if k == |w| {
      assert w[..k] == w;
      CapitalizeSpec(w);
    } else {
      var head := w[..k];
      var rest := w[k + 1..];
      TitleCaseSpec(rest);
      CapitalizeSpec(head);
      var t := TitleCase(w);
      var c := Capitalize(head);
      var r := TitleCase(rest);
      assert t == c + " " + r;
      TitleCharHead(w, k);
      TitleCharRest(w, k);
      forall i | 0 <= i < |w| ensures t[i] == TitleChar(w, i) {
        if i < k {
          assert t[i] == c[i];
        } else if k < i {
          assert t[i] == r[i - k - 1];
        }
      }
    }
  }

  /** Before the first `-`, the reference looks only at the first word. */
  lemma TitleCharHead(w: string, k: nat)
    requires k <= |w|
    ensures forall i :: 0 <= i < k ==> TitleChar(w[..k], i) == TitleChar(w, i)
  {
  }

  /** After the `-` at `k`, the reference restarts on the rest. */
  lemma TitleCharRest(w: string, k: nat)
    requires k < |w| && w[k] == '-'
    ensures forall i :: k < i < |w| ==> TitleChar(w[k + 1..], i - k - 1) == TitleChar(w, i)
  {
  }

  /** Only the text after the last `/` matters; a trailing `/` gives an empty title. */
  lemma CategoryTitleLastSegment(dir: string, last: string)
    requires '/' !in last
    ensures CategoryTitle(dir + "/" + last) == TitleCase(last)
    ensures CategoryTitle(dir + "/") == ""
  {
    AfterLastOfJoin(dir, last, '/');
    assert dir + "/" + last == dir + ['/'] + last;
    AfterLastOfJoin(dir, "", '/');
    assert dir + "/" == dir + ['/'] + "";
    assert Split("", '-') == [""];
  }

  /** `a-bC` becomes `A BC`: each piece starts upper-case, the rest keeps its case. */
  lemma CategoryTitleExample()
    ensures TitleCase("a-bC") == "A BC"
  {
    TitleCaseSpec("a-bC");
    var t := TitleCase("a-bC");
    assert t[0] == 'A' && t[1] == ' ' && t[2] == 'B' && t[3] == 'C';
  }

  // ---------------------------------------------------------------------------
  // The page

  /** One carousel: its title and its games. */
  datatype Section = Section(title: string, games: seq<FrontMatter>)

  /** What the featured page shows below the game frame. */
  datatype FeaturedView = NoCategories | Carousels(sections: seq<Section>)

  /** The carousels for `categories`, in order, skipping every category without games. */
  function Sections(pageMap: seq<Node>, categories: seq<string>, locale: string, i18n: bool): (ss: seq<Section>)
    ensures |ss| <= |categories|
    ensures forall s :: s in ss ==> 1 <= |s.games| <= FeaturedLimit
    ensures forall s :: s in ss ==> (exists c :: (c in categories &&
      s == Section(CategoryTitle(c), TopGames(SelectListed(Leaves(pageMap), CategoryPrefix(c, locale, i18n))))))
  {
    if categories == [] then []
    else
      var c := categories[|categories| - 1];
      var games := TopGames(SelectListed(Leaves(pageMap), CategoryPrefix(c, locale, i18n)));
      Sections(pageMap, categories[..|categories| - 1], locale, i18n)
      + (if games == [] then [] else [Section(CategoryTitle(c), games)])
  }

  /** The carousels follow the category list: those of `a`, then those of `b`. */
  lemma {:induction false} SectionsConcat(pageMap: seq<Node>, a: seq<string>, b: seq<string>, locale: string, i18n: bool)
    ensures Sections(pageMap, a + b, locale, i18n)
      == Sections(pageMap, a, locale, i18n) + Sections(pageMap, b, locale, i18n)
    decreases |b|
  {
    if b == [] {
      assert a + b == a;
    } else {
      var init := b[..|b| - 1];
      var c := b[|b| - 1];
      assert (a + b)[..|a + b| - 1] == a + init;
      assert (a + b)[|a + b| - 1] == c;
      SectionsConcat(pageMap, a, init, locale, i18n);
      var games := TopGames(SelectListed(Leaves(pageMap), CategoryPrefix(c, locale, i18n)));
      var last := if games == [] then [] else [Section(CategoryTitle(c), games)];
      ConcatAssoc(Sections(pageMap, a, locale, i18n), Sections(pageMap, init, locale, i18n), last);
    }
  }

  /** One category gives one carousel, under its title with its top games, exactly when it has games. */
  lemma SectionsSingle(pageMap: seq<Node>, c: string, locale: string, i18n: bool)
    ensures var listed := SelectListed(Leaves(pageMap), CategoryPrefix(c, locale, i18n));
      Sections(pageMap, [c], locale, i18n) == if listed == [] then [] else [Section(CategoryTitle(c), TopGames(listed))]
  {
    var listed := SelectListed(Leaves(pageMap), CategoryPrefix(c, locale, i18n));
    assert [c][..0] == [];
    if listed != [] {
      assert TopGames(listed)[0] == listed[0];
    }
  }

  /** Every category with at least one game gets its carousel, under its title, with its top games. */
  lemma {:induction false} SectionsCoverCategories(pageMap: seq<Node>, categories: seq<string>, locale: string, i18n: bool, c: string)
    requires c in categories
    requires SelectListed(Leaves(pageMap), CategoryPrefix(c, locale, i18n)) != []
    ensures Section(CategoryTitle(c), TopGames(SelectListed(Leaves(pageMap), CategoryPrefix(c, locale, i18n))))
      in Sections(pageMap, categories, locale, i18n)
    decreases |categories|
  {
    var last := categories[|categories| - 1];
    if c != last {
      assert c in categories[..|categories| - 1] by {
        var j :| 0 <= j < |categories| && categories[j] == c;
        assert categories[..|categories| - 1][j] == c;
      }
      SectionsCoverCategories(pageMap, categories[..|categories| - 1], locale, i18n, c);
    }
  }

  /**
   * The featured page: the categories from the front matter (none when the key
   * is absent), the "no categories" message only when that list is empty.
   */
  function Featured(pageMap: seq<Node>, fm: FrontMatter, routerLocale: Option<string>, i18n: bool): (v: FeaturedView)
    ensures v.NoCategories? <==> fm.categories.None? || fm.categories.value == []
    ensures v.Carousels? ==> |v.sections| <= |fm.categories.value|
    ensures v.Carousels? ==> v.sections == Sections(pageMap, fm.categories.value, FeaturedLocale(routerLocale), i18n)
  {
    var categories := fm.categories.GetOr([]);
    if categories == [] then NoCategories
    else Carousels(Sections(pageMap, categories, FeaturedLocale(routerLocale), i18n))
  }
}
