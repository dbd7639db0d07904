# Game Launch Boost theme: a Dafny model of its routing, listing and configuration logic

Game Launch Boost is a Nextra/Next.js theme for game catalogue sites.
It has no server logic. Its behaviour lives in small helpers spread over
the theme: queries over the page tree, paginators, locale defaulting, URL
and path derivation, a key-selective deep merge of configuration objects
and a Python script that turns CSV rows into MDX pages. This project models
those helpers in Dafny and proves what they promise. The router, the page
map and the configuration objects become explicit parameters.

One module per source file:

| module | file | what it models |
|---|---|---|
| `Wrappers`, `Strings` | — | `Option`; the JavaScript string operations the helpers use (`split`, `startsWith`, `replace` of a leading or trailing text, `/\/+/g` collapsing, ASCII case mapping, digit strings) |
| `PageTree` | theme/src/types/index.ts | the page map as `Folder(name, route, children) \| Leaf(name, route, frontMatter)`, and its pre-order flattenings |
| `GamesByCategory` | theme/src/utils/getGamesByCategory.ts | the category listing and the directory listing, both as recursive methods that push into an accumulator |
| `PageConfig` | theme/src/utils/pageConfig.ts | `findPage` as a method on a mutable config object, the lookup path of `usePageConfig`, `getPageTitle` |
| `CategoryLayout` | theme/src/layouts/category.tsx | locale pick, page defaulting, pagination arithmetic, pager links, `buildPageUrl` |
| `FeaturedLayout` | theme/src/layouts/featured.tsx | the top twenty games of a category, category titles, the carousel list |
| `GameCarousel` | theme/src/components/GameCarousel.tsx | a `Carousel` class whose `currentIndex` is stepped by `NextSlide`/`PrevSlide`, the visible slice and its rows |
| `SiteConfig` | config/site.js | the locale registry, `getDefaultLocale`, `i18nConfig`, the URL priority table |
| `Sitemap` | next-sitemap.config.js | `DEFAULT_LANGUAGE`, `findUrlConfig`, the single- and multi-locale `transform` |
| `ThemeConfig` | theme.config.jsx | the `i18n` block, the locale record lookup, the `head` locale and canonical link |
| `Head` | theme/src/components/Head.tsx | locale record, `cleanPath`, title, description, image, canonical and alternate links |
| `Navbar` | theme/src/components/Navbar.tsx | menu configuration, item and submenu routes, `isMenuItemActive` |
| `Breadcrumb` | theme/src/components/Breadcrumb.tsx | `generateBreadcrumb` as a loop, and the shape of the trail |
| `LocaleSwitch` | theme/src/components/LocaleSwitch.tsx | the path rewrite, the displayed record, visibility, the check mark |
| `Document` | pages-single-lang/_document.tsx | the `lang` attribute of the single-language document |
| `ThemeMerge` | theme/src/contexts/theme-config.tsx | JSON-like values, `deepMerge` as a loop over the source's `for...in` keys, the provider's merge with `DEFAULT_THEME` |
| `Landing` | theme/src/layouts/landing.tsx | `renderIcon` with UTF-16 lengths |
| `CsvToFiles` | theme/script/csv-to-files.py | `sanitize_filename` with Python's `lower()`, the directory, file name and content of each row, the files a run leaves behind |

Conventions used throughout:

- JavaScript's `a || b` on strings treats `""` as missing, so an optional
  string is `Option<string>` and "empty or absent" is one case.
- Sitemap priorities are integer tenths (`1.0` is `10`).
- Regular expressions appear only in the shapes the code uses. These are an
  exact path, an anchored literal prefix, the catch-all, a leading or trailing
  literal, and runs of one character.
- The locale registry `SUPPORTED_LOCALES` is a sequence of (key, entry)
  pairs in declaration order, which is `Object.entries` order for the
  non-numeric keys it uses.

## Model

| member | source | states |
|---|---|---|
| Strings.OrElse | theme/src/components/Head.tsx:60 | `a \|\| b` on strings: a non-empty value wins, an empty or absent one falls back |
| Strings.StripPrefix | theme/src/components/Navbar.tsx:109 | removing a leading text: when present, prefix plus result is the input; otherwise the input is unchanged |
| Strings.StripSuffix | theme/src/utils/getGamesByCategory.ts:52 | removing a trailing text: when present, result plus suffix is the input; otherwise unchanged |
| Strings.DropTrailingSlash | theme/src/components/Navbar.tsx:109 | `replace(/\/$/, '')`: exactly one trailing `/` goes, nothing else changes |
| Strings.PathPart | theme/src/utils/pageConfig.ts:113 | `split('?')[0].split('#')[0]`: a prefix with no `?` or `#`, followed in the input by one of them or by nothing |
| Strings.PathPartUnique | theme/src/components/Head.tsx:45-47 | those three facts single out the cut: any prefix with them is the cut |
| Strings.IndexOf | theme/src/components/Breadcrumb.tsx:18 | the first occurrence of a character, or the length when absent |
| Strings.BeforeFirst | theme/src/components/Breadcrumb.tsx:18 | `split(c)[0]`: the longest prefix free of `c`, followed by `c` when shorter than the input |
| Strings.Split | theme/src/components/Breadcrumb.tsx:19 | `split(c)`: at least one part, none containing `c` |
| Strings.SplitFirst | theme/src/components/Breadcrumb.tsx:18 | the first part of a split is the text before the first separator |
| Strings.SecondField | pages-single-lang/_document.tsx:28 | `split(c)[1]`: absent iff there is no `c`, else the text between the first and second `c` |
| Strings.JoinSplit | theme/src/layouts/featured.tsx:32-34 | joining the parts of a split with the separator gives back the input |
| Strings.AfterLastIsSuffix | theme/src/layouts/featured.tsx:29-30 | the last part of a split is a suffix free of `c`, empty after a trailing `c`, the input when `c` is absent |
| Strings.AfterLastOfJoin | theme/src/layouts/featured.tsx:29-30 | the last part of `a + c + b` is `b` when `b` has no `c` |
| Strings.CollapseRunsFacts | next-sitemap.config.js:59 | `replace(/\/+/g, '/')` leaves no run, keeps every other character, keeps the first character, keeps or drops `c` exactly as the input has it |
| Strings.CollapseRunsIdempotent | next-sitemap.config.js:59 | collapsing twice is collapsing once, and a run-free text is unchanged |
| Strings.RemoveAll | theme/src/layouts/landing.tsx:13 | `replace(/:/g, '')`: the result has no `:` and is no longer than the input |
| Strings.ToUpper | theme/src/layouts/featured.tsx:33 | `toUpperCase` on an ASCII lower-case letter gives its capital; other characters are unchanged |
| Strings.ToLower | theme/script/csv-to-files.py:14 | ASCII capitals map to their lower-case letter, other characters are unchanged |
| Strings.NatToString | theme/src/contexts/theme-config.tsx:47 | the decimal key `for...in` gives an array index or string position: non-empty, all digits |
| Strings.NatToStringRoundTrip | theme/src/contexts/theme-config.tsx:47 | reading the decimal key back gives the index |
| Strings.NatToStringInjective | theme/src/contexts/theme-config.tsx:47 | different indices give different keys |
| PageTree.FlattenAppend | theme/src/utils/getGamesByCategory.ts:19-22 | pre-order traversal of a concatenation is the concatenation of the traversals |
| PageTree.LeavesAreLeafNodes | theme/src/utils/getGamesByCategory.ts:19-22 | the leaves and folders a traversal visits are exactly the leaf and folder nodes of the tree |
| GamesByCategory.CategoryPrefix | theme/src/utils/getGamesByCategory.ts:26-28 | the prefix starts and ends with `/`; with i18n off it is `/{category}/` and the locale has no effect |
| GamesByCategory.Entry | theme/src/utils/getGamesByCategory.ts:31-35 | an entry is the front matter with `slug` replaced by the route, every other field kept |
| GamesByCategory.SelectListedAppend | theme/src/utils/getGamesByCategory.ts:19-39 | the listing of a concatenation of leaves is the concatenation of the listings |
| GamesByCategory.CategoryEntriesAreListedLeaves | theme/src/utils/getGamesByCategory.ts:19-39 | the recursive traversal collects exactly the non-index leaves under the prefix, in pre-order; folders contribute only through their leaves |
| GamesByCategory.SelectListedMembers | theme/src/utils/getGamesByCategory.ts:23-35 | every listed entry comes from a non-index leaf with a route, and its slug starts with the prefix |
| GamesByCategory.CategoryEntriesMembers | theme/src/utils/getGamesByCategory.ts:23-35 | the same for the tree traversal |
| GamesByCategory.UnroutedLeafNeverListed | theme/src/utils/getGamesByCategory.ts:24 | a leaf without a route gets slug `''` and never matches a prefix |
| GamesByCategory.CollectCategory | theme/src/utils/getGamesByCategory.ts:19-39 | the recursive `traverse` appends exactly the category entries of its items to what was collected |
| GamesByCategory.GetGamesByCategory | theme/src/utils/getGamesByCategory.ts:14-43 | the result is the pre-order listing of non-index leaves under the prefix, every slug starts with the prefix, and with i18n off it does not depend on the locale |
| GamesByCategory.TargetPath | theme/src/utils/getGamesByCategory.ts:51-57 | after one trailing `/index` goes: with i18n on, a path that does not start with `/{locale}` as text gets it; in both modes one trailing `/` is dropped |
| GamesByCategory.TargetPathExamples | theme/src/utils/getGamesByCategory.ts:51-57 | `/en/games/index` and `/games/` become `/en/games`; the textual strip turns `/enx/games` into `x/games`, and re-prefixing gives `/enx/games` back; with i18n off only the trailing `/` goes |
| GamesByCategory.GatherMatchingAppend | theme/src/utils/getGamesByCategory.ts:67-101 | the directory listing of a concatenation of folders is the concatenation |
| GamesByCategory.DirectoryEntriesAreMatchingFolders | theme/src/utils/getGamesByCategory.ts:67-101 | the recursive traversal yields, in pre-order, the direct children of every folder whose route matches; top-level leaves never appear |
| GamesByCategory.DirectoryEntriesOfIsMatchingFolders | theme/src/utils/getGamesByCategory.ts:67-101 | the same for one node |
| GamesByCategory.NoMatchingFolderGivesEmpty | theme/src/utils/getGamesByCategory.ts:80-98 | no matching folder gives an empty list |
| GamesByCategory.DirectEntriesMembers | theme/src/utils/getGamesByCategory.ts:83-95 | only direct non-index leaf children become entries, with their route as slug (absent for an unrouted leaf) |
| GamesByCategory.CollectDirect | theme/src/utils/getGamesByCategory.ts:83-95 | the loop over a folder's children appends exactly its direct entries |
| GamesByCategory.CollectDirectory | theme/src/utils/getGamesByCategory.ts:67-101 | the recursive traversal appends exactly the directory entries of its items |
| GamesByCategory.GetGamesInCurrentDirectory | theme/src/utils/getGamesByCategory.ts:46-109 | the result is the concatenation of the direct children of all matching folders, empty when none matches |
| PageConfig.FirstWith | theme/src/utils/pageConfig.ts:74 | the first node whose route equals the pathname, or none when no node has it |
| PageConfig.FirstWithAppend | theme/src/utils/pageConfig.ts:62-93 | the first match in a concatenation is in the left part when there is one there |
| PageConfig.FirstMatchIsPreorderFirst | theme/src/utils/pageConfig.ts:62-93 | `findPage` checks each node before its children and stops at the first match in pre-order |
| PageConfig.FirstMatchOfIsPreorderFirst | theme/src/utils/pageConfig.ts:62-93 | the same for one node |
| PageConfig.ConfigForSpec | theme/src/utils/pageConfig.ts:42-100 | a matched leaf gives its front matter and title, a matched folder or no match keeps the defaults |
| PageConfig.PageConfigObject.constructor | theme/src/utils/pageConfig.ts:43-45 | the config starts with no title and empty front matter |
| PageConfig.PageConfigObject.FindPage | theme/src/utils/pageConfig.ts:62-93 | reports a match iff one exists in pre-order; writes the leaf's front matter and title on a leaf match and nothing otherwise |
| PageConfig.FirstMatchPrefix | theme/src/utils/pageConfig.ts:73-92 | once the loop has passed the first `k` items without a match, the result is decided by the rest |
| PageConfig.GetPageConfig | theme/src/utils/pageConfig.ts:42-100 | returns a fresh config object whose value is the pre-order first match's configuration |
| PageConfig.LookupPath | theme/src/utils/pageConfig.ts:112-115 | the full path (cut at `?`, then `#`) with i18n on; with i18n off the full path without a leading `/{locale}`, stripped by text; never a `?` or `#` |
| PageConfig.UsePageConfig | theme/src/utils/pageConfig.ts:102-129 | the config is looked up in the static map followed by the dynamic map at the lookup path |
| PageConfig.ChosenTitle | theme/src/utils/pageConfig.ts:133-143 | the front-matter title, else the config title, else the default; empty counts as missing, so with neither title the default is used |
| PageConfig.GetPageTitle | theme/src/utils/pageConfig.ts:132-150 | with i18n off the chosen title; with i18n on the title ends with the default title, equals it iff the chosen title is the default, and otherwise starts with the chosen title and ` \| ` |
| PageConfig.PageTitleSpec | theme/src/utils/pageConfig.ts:132-150 | with i18n off the chosen title is returned as is; with i18n on the result ends with the default title, which is never doubled |
| PageConfig.FoundPageTitle | theme/src/utils/pageConfig.ts:80-83 | the title of a page found as a leaf with a title is that title |
| CategoryLayout.PathLocale | theme/src/layouts/category.tsx:19-20 | the first path segment when non-empty, else the router locale, else `en`; never empty |
| CategoryLayout.PathLocaleOfPrefixedPath | theme/src/layouts/category.tsx:19 | `/{seg}` and `/{seg}/...` both give `seg` |
| CategoryLayout.LeadingSegmentIndex | theme/src/layouts/category.tsx:19 | the first `/` after a slash-free segment is right after it |
| CategoryLayout.CurrentPage | theme/src/layouts/category.tsx:22 | at least 1; a non-empty digit string with a non-zero value is exactly that page, and any page other than 1 comes from such a string |
| CategoryLayout.CurrentPageOfLink | theme/src/layouts/category.tsx:22 | the query `String(p)` a pager link writes reads back as page `p` for every `p >= 1` |
| CategoryLayout.CurrentPageExamples | theme/src/layouts/category.tsx:22 | `"3"` is page 3; `"0"`, `""` and `"x"` are page 1 |
| CategoryLayout.TotalPages | theme/src/layouts/category.tsx:42 | `ceil(total / 12)`: the least page count that holds every game |
| CategoryLayout.PageSlice | theme/src/layouts/category.tsx:43-45 | page p is `allGames[(p-1)*12 .. p*12)` clipped, element by element; empty past the end |
| CategoryLayout.Paginate | theme/src/layouts/category.tsx:41-47 | the page, the totals, `hasNextPage` iff games remain after this page, `hasPrevPage` iff page > 1 |
| CategoryLayout.NextPageIffMoreGames | theme/src/layouts/category.tsx:46 | `page < totalPages` iff games remain after the page |
| CategoryLayout.PagesArePrefix | theme/src/layouts/category.tsx:43-45 | the first k pages together are the first `k*12` games |
| CategoryLayout.PagesReassemble | theme/src/layouts/category.tsx:43-45 | concatenating pages 1..totalPages gives back all games in order |
| CategoryLayout.PageSizes | theme/src/layouts/category.tsx:43-45 | every page before the last holds 12 games, the last holds at least one, later ones none |
| CategoryLayout.TwentyFiveGames | theme/src/layouts/category.tsx:41-45 | 25 games make pages of 12, 12 and 1, and page 4 is empty |
| CategoryLayout.PagerLinks | theme/src/layouts/category.tsx:103-122 | no pager for at most one page, otherwise links to pages 1..totalPages in order |
| CategoryLayout.PagerLinksLeadToGames | theme/src/layouts/category.tsx:122 | every pager link leads to a page in range with at least one game |
| CategoryLayout.BuildPageUrl | theme/src/layouts/category.tsx:58-64 | the pathname and every other query key are kept, and `page` is set to the number |
| CategoryLayout.CategoryPage | theme/src/layouts/category.tsx:19-47 | the view is exactly `Paginate` of the current directory's games at the requested page: that page's games, the game and page counts, and both arrows |
| FeaturedLayout.TopGames | theme/src/layouts/featured.tsx:24 | the first `min(20, n)` entries, in order |
| FeaturedLayout.GetFeaturedGames | theme/src/layouts/featured.tsx:22-25 | the first `min(20, n)` entries of the category listing for the router locale (`en` when absent) |
| FeaturedLayout.Capitalize | theme/src/layouts/featured.tsx:33 | same length; the first character upper-cased, the rest unchanged |
| FeaturedLayout.CapitalizeAll | theme/src/layouts/featured.tsx:33 | one word per input word, the i-th being `Capitalize` of the i-th input |
| FeaturedLayout.CapitalizeSpec | theme/src/layouts/featured.tsx:33 | character by character, a dash-free word is capitalised only at position 0 |
| FeaturedLayout.TitleCaseUnfold | theme/src/layouts/featured.tsx:32-34 | splitting at the first `-` capitalises the first piece and joins the rest with a space |
| FeaturedLayout.TitleCaseSpec | theme/src/layouts/featured.tsx:32-34 | `TitleCase`: same length; each `-` becomes a space, each character after a `-` (and the first) is upper-cased, all others unchanged |
| FeaturedLayout.CategoryTitleLastSegment | theme/src/layouts/featured.tsx:28-35 | `CategoryTitle`: only the text after the last `/` is titled; a trailing `/` gives an empty title |
| FeaturedLayout.CategoryTitleExample | theme/src/layouts/featured.tsx:32-34 | `a-bC` becomes `A BC`: later letters are not lower-cased |
| FeaturedLayout.Sections | theme/src/layouts/featured.tsx:55-67 | at most one carousel per category, each with 1 to 20 games, titled and filled from its category |
| FeaturedLayout.SectionsConcat | theme/src/layouts/featured.tsx:55-67 | the carousels follow the category order: those of `a + b` are those of `a`, then those of `b` |
| FeaturedLayout.SectionsSingle | theme/src/layouts/featured.tsx:55-67 | one category gives one carousel, titled from it with its top games, exactly when it has games, and none otherwise |
| FeaturedLayout.SectionsCoverCategories | theme/src/layouts/featured.tsx:55-67 | every category with games gets its carousel |
| FeaturedLayout.Featured | theme/src/layouts/featured.tsx:38-67 | the "no categories" message iff the front matter has no or an empty `categories`; otherwise the carousels are `Sections` of those categories for the router locale (`en` when absent) |
| GameCarousel.TotalPages | theme/src/components/GameCarousel.tsx:16 | `ceil(n / 8)`: the least page count that holds every game |
| GameCarousel.MaxIndex | theme/src/components/GameCarousel.tsx:16 | the last page index, 0 when there are no pages |
| GameCarousel.LessOfProductLess | theme/src/components/GameCarousel.tsx:23 | dividing both sides of a strict product inequality by the same positive factor |
| GameCarousel.InRangeBound | theme/src/components/GameCarousel.tsx:22-23 | `CanGoNext` iff the index is below the last page, and the reachable indices are those up to it |
| GameCarousel.ButtonsAtReachableIndex | theme/src/components/GameCarousel.tsx:22-23 | at a reachable index, `CanGoPrev` iff not on the first page and `CanGoNext` iff not on the last; either step stays reachable |
| GameCarousel.ShowNavigationIffSecondPage | theme/src/components/GameCarousel.tsx:19 | the buttons appear iff n > 8, iff there is a second page |
| GameCarousel.VisibleGames | theme/src/components/GameCarousel.tsx:37-40 | `games[idx*8 .. (idx+1)*8)` clipped, element by element; at most 8 |
| GameCarousel.VisibleNonEmpty | theme/src/components/GameCarousel.tsx:37-40 | a reachable index shows at least one game when there are games |
| GameCarousel.ActualRows | theme/src/components/GameCarousel.tsx:43 | `ceil(visible / 4)` |
| GameCarousel.ActualRowsAtMostTwo | theme/src/components/GameCarousel.tsx:43 | never more than two rows |
| GameCarousel.RowsUpToPrefix | theme/src/components/GameCarousel.tsx:77-80 | the first k rows are the first `k*4` visible games |
| GameCarousel.RowsPartitionVisible | theme/src/components/GameCarousel.tsx:77-80 | the rows, in order, are exactly the visible games, each row holding 1 to 4 |
| GameCarousel.Carousel.constructor | theme/src/components/GameCarousel.tsx:12 | the carousel starts at index 0 |
| GameCarousel.Carousel.NextSlide | theme/src/components/GameCarousel.tsx:25-29 | the index moves up by one exactly when `canGoNext`, else stays; it stays reachable |
| GameCarousel.Carousel.PrevSlide | theme/src/components/GameCarousel.tsx:31-35 | the index moves down by one exactly when `canGoPrev`, else stays; it stays reachable |
| GameCarousel.Carousel.Visible | theme/src/components/GameCarousel.tsx:37-43 | the visible slice of the current index: non-empty when there are games, in at most two rows |
| SiteConfig.Keys | config/site.js:36 | `Object.keys`: the keys in declaration order |
| SiteConfig.FirstFlagged | config/site.js:31 | the first entry flagged `isDefault`, none when no entry is |
| SiteConfig.IndexOfKey | config/site.js:36 | the position of a key, absent iff it is not a key |
| SiteConfig.KeysCons | config/site.js:36 | the keys of a registry are its first key followed by the keys of the rest |
| SiteConfig.GetDefaultLocale | config/site.js:24-32 | the only entry when there is one; otherwise the first flagged entry, else the first entry; always an entry of the registry |
| SiteConfig.I18nConfigDefaultAgrees | config/site.js:35-41 | `MakeI18nConfig`: `defaultLocale` is one of `locales` and names a key of the registry |
| SiteConfig.ShippedTableEndsWithCatchAll | config/site.js:89-93 | the last rule matches every path |
| SiteConfig.ShippedKeys | config/site.js:4-41 | the shipped keys are `en` then `zh`, and the first flagged entry is `en` |
| SiteConfig.ShippedRegistryDefault | config/site.js:4-41 | the shipped registry is well-formed, defaults to English and gives `locales = [en, zh]`, `defaultLocale = en` |
| Sitemap.DefaultLanguage | next-sitemap.config.js:10-13 | the first flagged key, else the literal `en` |
| Sitemap.FindFrom | next-sitemap.config.js:21-23 | the first matching rule from a position, or the last rule when none matches |
| Sitemap.FindUrlConfig | next-sitemap.config.js:20-25 | the first rule in list order that matches, or the last rule when none does |
| Sitemap.ShippedPriorities | config/site.js:68-94 | `/` is 1.0 daily, `/games…` (including `/gamesx`) 0.9, `/guides…` 0.8, `/about…` 0.7 monthly, everything else 0.5 weekly |
| Sitemap.SingleLocaleTransform | next-sitemap.config.js:42-52 | `loc` is the site url plus the path verbatim, no alternates; frequency and priority are those of the rule `findUrlConfig` picks for the path; `lastmod` is the clock reading iff `autoLastmod` |
| Sitemap.Lastmod | next-sitemap.config.js:48 | a timestamp iff `autoLastmod` is set, and then the clock reading |
| Sitemap.LocaleUrl | next-sitemap.config.js:66-68 | a locale url has no run of `/` and no trailing `/`, and apart from its slashes it is the site url, the language and the clean path, in that order |
| Sitemap.JoinedText | next-sitemap.config.js:66 | the slashes the template puts between site url, language and path carry no other text |
| Sitemap.DropTrailingSlashText | next-sitemap.config.js:68 | dropping one trailing `/` keeps every other character |
| Sitemap.DropTrailingSlashNoRuns | next-sitemap.config.js:66-68 | dropping the trailing `/` keeps a run-free text run-free and leaves no trailing `/` |
| Sitemap.LocaleUrlLosesSchemeSlash | next-sitemap.config.js:66-68 | the collapse also hits the scheme: no locale url starts with `https://` |
| Sitemap.CollapseKeepsLast | next-sitemap.config.js:67 | collapsing keeps the last character |
| Sitemap.LocaleUrlShape | next-sitemap.config.js:66-68 | for a non-empty `/`-free language and a run-free clean path not starting with `/`, the url is the collapsed `{siteUrl}/`, then `{lang}/{cleanPath}`, less one trailing `/` |
| Sitemap.CleanPathShape | next-sitemap.config.js:59-60 | the clean path has no run of `/` and does not start with `/` |
| Sitemap.CollapseTail | next-sitemap.config.js:67 | collapsing `a + w` for a run-free `w` that does not start with `/` collapses `a` only |
| Sitemap.RootPathEndsAtLocale | next-sitemap.config.js:60-68 | the root path gives a url ending in `/{lang}` |
| Sitemap.Alternates | next-sitemap.config.js:72-84 | one alternate per language in order, then `x-default` at the default language's url |
| Sitemap.MultiLocaleTransform | next-sitemap.config.js:58-91 | one entry per locale key, each with `L + 1` alternates |
| Sitemap.MultiLocaleTransformSpec | next-sitemap.config.js:58-91 | one entry per locale key in order with the rule of the collapsed path; every entry has the same L+1 alternates, the j-th at the j-th entry's `loc` and `x-default` at the default entry's `loc` |
| Sitemap.MultiLocaleLocShape | next-sitemap.config.js:59-68 | the entry of a non-empty `/`-free key has `loc` equal to the collapsed `{siteUrl}/`, then `{lang}/{cleanPath}`, less one trailing `/` |
| Sitemap.Transform | next-sitemap.config.js:95 | with `features.i18n` set, exactly the entries of the multi-locale transform (one per locale); otherwise the one single-locale entry |
| ThemeConfig.LocaleConfigs | theme.config.jsx:35-42 | one record per registry entry in key order, with `locale` set to the key and the other fields copied |
| ThemeConfig.I18nBlock | theme.config.jsx:28-44 | the block exists iff i18n is on; its locales are the keys, its config the records, its default the first flagged key else the first key |
| ThemeConfig.I18nBlockDefault | theme.config.jsx:30-34 | the block's default locale is one of its locales |
| ThemeConfig.FindLocaleConfig | theme/src/components/Head.tsx:31 | the first record whose locale matches, else the first record; none only for an empty list |
| ThemeConfig.FindByLocale | theme/src/components/LocaleSwitch.tsx:31 | the first record, in list order, whose locale matches; none iff there is none |
| ThemeConfig.FindLocaleConfigOfKey | theme.config.jsx:35-42 | looking up a key of the registry finds that key's own record |
| ThemeConfig.HeadLocale | theme.config.jsx:49-52 | with i18n, the router locale's entry if it exists, else `getDefaultLocale()`; without i18n always the default |
| ThemeConfig.ThemeHead | theme.config.jsx:47-64 | the canonical link is the site url followed by `asPath` verbatim; `og:locale` is the head locale's |
| ThemeConfig.ShippedHeadFallback | theme.config.jsx:49-52 | with the shipped registry an unknown locale gets `en_US` |
| Head.CurrentLocaleConfig | theme/src/components/Head.tsx:31 | the first record matching the locale, else the first record; none iff there is no `i18n` block or its list is empty |
| Head.StripMarkdownExtension | theme/src/components/Head.tsx:44 | a trailing `.mdx` or `.md`, in any case, is removed; otherwise unchanged |
| Head.CleanPath | theme/src/components/Head.tsx:43-48 | the longest prefix of the path without its extension that holds no `?` or `#`: the character after it, if any, is one of them |
| Head.CleanPathOfPlainPath | theme/src/components/Head.tsx:43-48 | without query or fragment only the extension goes |
| Head.ExtensionBeforeQueryKept | theme/src/components/Head.tsx:43-48 | an extension followed by a query string is kept |
| Head.Or | theme/src/components/Head.tsx:65 | `a \|\| b` on optional strings |
| Head.PageTitle | theme/src/components/Head.tsx:59-63 | the first non-empty title among front matter, page data, config and `''`, plus the locale suffix only with i18n on and a non-empty suffix |
| Head.PageTitlePrecedence | theme/src/components/Head.tsx:59-63 | the front-matter title wins; with i18n off no suffix; with no title at all the title is empty |
| Head.PageDescription | theme/src/components/Head.tsx:65 | the front-matter description when non-empty, else the page data's when non-empty, else the config's (possibly absent) |
| Head.OgImage | theme/src/components/Head.tsx:66 | the cover, else the icon, else `/og-image.jpg`; never empty |
| Head.CanonicalUrl | theme/src/components/Head.tsx:69-80 | the bare path without a url; the url plus the path for the default locale; the url plus `/{locale}` plus the path without `/{locale}` otherwise; one trailing `/` removed in the url branches |
| Head.CanonicalLocaleNotDoubled | theme/src/components/Head.tsx:76 | a path that already starts with `/{locale}` gives the same canonical url as the path without it |
| Head.LocaleAlternates | theme/src/components/Head.tsx:132-147 | never the current locale, each for a configured locale, each href the url plus the clean path for the default locale and the url plus `/{lang}` plus the path without `/{current}` for any other |
| Head.LocaleAlternatesStep | theme/src/components/Head.tsx:132-147 | the links of a list are those of all but its last record, then that record's link unless its locale is the current one |
| Head.LocaleAlternatesLangs | theme/src/components/Head.tsx:132-147 | one link per record not of the current locale: the links' languages are the records' locales with every occurrence of the current one removed, counted with multiplicity |
| Head.Alternates | theme/src/components/Head.tsx:132-154 | no links without i18n; with i18n and a block, the per-locale links are exactly `LocaleAlternates` of the block's records; `x-default` iff i18n and a url, pointing at the url plus the clean path without one trailing `/` |
| Head.RenderHead | theme/src/components/Head.tsx:21-160 | for the router locale (`en` when absent) and the clean path: the title, description and og:image are `PageTitle`, `PageDescription` and `OgImage`; the canonical and alternate links are `CanonicalUrl` and `Alternates`; the language tags are the current locale record's, and absent without one |
| Navbar.ItemRoute | theme/src/components/Navbar.tsx:76 | `href` when non-empty, else `/{locale}/{key}`; never empty |
| Navbar.MenuItems | theme/src/components/Navbar.tsx:73-79 | one item per entry, same key and order, with its route |
| Navbar.MenuOfMeta | theme/src/components/Navbar.tsx:66-79 | `MenuConfigOf`: a missing meta gives no menu items; a function and a value yielding the same configuration give the same items, one per entry |
| Navbar.SubRoute | theme/src/components/Navbar.tsx:167 | `subitem.href` when non-empty, else `{item.route}/{key}` |
| Navbar.SubmenuRoutes | theme/src/components/Navbar.tsx:165-169 | one route per submenu entry, in order; none without submenu |
| Navbar.ActiveRules | theme/src/components/Navbar.tsx:105-132 | `IsMenuItemActive`: never on an empty path or for other types; a page iff the normalised paths agree; a menu iff the current path starts with its path or equals one of its submenu paths, so always when its path normalises to `''` |
| Navbar.PageActiveWithOrWithoutLocale | theme/src/components/Navbar.tsx:109-116 | a page entry is active on its path with and without the locale prefix |
| Navbar.MenuActiveWithOrWithoutLocale | theme/src/components/Navbar.tsx:109-122 | a menu entry is active on every path under its own, with and without the locale prefix |
| Breadcrumb.Label | theme/src/components/Breadcrumb.tsx:34-46 | `games`, `about`, `download` get their localized label, every other segment is shown verbatim |
| Breadcrumb.NonEmpty | theme/src/components/Breadcrumb.tsx:19 | `filter(Boolean)`: exactly the non-empty parts survive, each as often as in the input |
| Breadcrumb.NonEmptyConcat | theme/src/components/Breadcrumb.tsx:19 | filtering a concatenation filters each part, so the kept strings stay in input order |
| Breadcrumb.NonEmptySingle | theme/src/components/Breadcrumb.tsx:19 | one string is kept iff it is non-empty |
| Breadcrumb.NonEmptyStep | theme/src/components/Breadcrumb.tsx:19 | filtering keeps the last string after the filtered rest iff it is non-empty |
| Breadcrumb.Segments | theme/src/components/Breadcrumb.tsx:18-19 | segments are non-empty and contain no `/` or `?` |
| Breadcrumb.SplitPartsAvoid | theme/src/components/Breadcrumb.tsx:18-19 | a character absent from the text is absent from every part |
| Breadcrumb.PathOf | theme/src/components/Breadcrumb.tsx:32 | the joined path is at least one character per segment |
| Breadcrumb.CrumbsUpTo | theme/src/components/Breadcrumb.tsx:20-52 | home first, then one crumb per segment after the first |
| Breadcrumb.GenerateBreadcrumb | theme/src/components/Breadcrumb.tsx:16-55 | the loop builds exactly the breadcrumb trail |
| Breadcrumb.CrumbsUpToStep | theme/src/components/Breadcrumb.tsx:29-51 | visiting a segment appends exactly its crumb |
| Breadcrumb.BreadcrumbCount | theme/src/components/Breadcrumb.tsx:23-31 | `1 + max(0, segments - 1)` crumbs, home first |
| Breadcrumb.BreadcrumbHrefsNest | theme/src/components/Breadcrumb.tsx:29-51 | each href is a proper prefix of the next |
| Breadcrumb.OnlyLastHighlighted | theme/src/components/Breadcrumb.tsx:70-83 | only the last crumb after home is highlighted |
| Breadcrumb.LinksUnderRouterLocale | theme/src/components/Breadcrumb.tsx:25-50 | every href starts with `/{router locale}` |
| LocaleSwitch.RewriteLocale | theme/src/components/LocaleSwitch.tsx:25 | a leading `/` and two lower-case letters become `/{newLocale}` and the rest is kept; other paths are unchanged |
| LocaleSwitch.RewriteLocalizedPath | theme/src/components/LocaleSwitch.tsx:25 | a page under a two-letter locale moves to the same page under the new one |
| LocaleSwitch.RewriteTwice | theme/src/components/LocaleSwitch.tsx:25 | switching twice to two-letter locales equals switching once to the second |
| LocaleSwitch.RewriteCutsFirstSegment | theme/src/components/LocaleSwitch.tsx:25 | `/games` becomes `/zhmes`; `/` and `/Games` stay |
| LocaleSwitch.ShownForTheme | theme/src/components/LocaleSwitch.tsx:34 | `Shown`: the switcher shows iff i18n is on and the registry is non-empty |
| LocaleSwitch.CurrentLocaleConfig | theme/src/components/LocaleSwitch.tsx:31 | a record of the list: the first record of the current locale, else the first record; none only for an empty list |
| LocaleSwitch.Choices | theme/src/components/LocaleSwitch.tsx:47-59 | one button per record in order, checked iff its locale is the current one |
| LocaleSwitch.OneChecked | theme/src/components/LocaleSwitch.tsx:31-59 | at most one button is checked, and it is the record the label shows |
| Document.LangCandidate | pages-single-lang/_document.tsx:28 | absent iff the path has no `/`, else a `/`-free segment |
| Document.DocumentLang | pages-single-lang/_document.tsx:27-36 | the candidate iff it is a key, else the first flagged key, else `en`; always a key or `en` |
| Document.FlaggedKeyInKeys | pages-single-lang/_document.tsx:35 | the fallback is a key or `en`, and `en` when no entry is flagged |
| Document.LangOfLocalePage | pages-single-lang/_document.tsx:28-33 | every page under a supported locale gets that locale |
| Document.LeadingField | pages-single-lang/_document.tsx:28 | the text before the first `/` of `key + rest` is `key` |
| Document.ShippedDocumentLang | pages-single-lang/_document.tsx:27-36 | with the shipped registry, `/zh…` pages are `zh` and `/games` is `en` |
| ThemeMerge.ItemWithinSize | theme/src/contexts/theme-config.tsx:47-50 | an array item is no larger than the array's items |
| ThemeMerge.FieldWithinSize | theme/src/contexts/theme-config.tsx:47-50 | a field value is no larger than the object's fields |
| ThemeMerge.HasKeyIndex | theme/src/contexts/theme-config.tsx:46-47 | a key is present iff some field has it |
| ThemeMerge.HasKeyAppend | theme/src/contexts/theme-config.tsx:52 | appending a field adds exactly its key |
| ThemeMerge.Get | theme/src/contexts/theme-config.tsx:48 | a missing key reads as `undefined` |
| ThemeMerge.GetAt | theme/src/contexts/theme-config.tsx:48 | with distinct keys, reading a field's key gives its value |
| ThemeMerge.Put | theme/src/contexts/theme-config.tsx:50-52 | `result[key] = v`: the keys are the old ones plus `key`, `key` reads `v`, every other key reads as before, and rewriting an equal value changes nothing |
| ThemeMerge.IndexFields | theme/src/contexts/theme-config.tsx:47 | `for...in` over an array gives the decimal indices with their items |
| ThemeMerge.CharFields | theme/src/contexts/theme-config.tsx:47 | `for...in` over a string gives the decimal positions with one-character strings |
| ThemeMerge.Entries | theme/src/contexts/theme-config.tsx:46-47 | the own enumerable keys of an object, array or string, none for other values; nested object values are smaller |
| ThemeMerge.EntriesWellFormed | theme/src/contexts/theme-config.tsx:46-47 | the entries of a well-formed value have distinct keys and well-formed values |
| ThemeMerge.OrEmpty | theme/src/contexts/theme-config.tsx:50 | `x \|\| {}`: a truthy value is kept, any other becomes `{}` |
| ThemeMerge.DeepMerge | theme/src/contexts/theme-config.tsx:45-56 | the loop over the source's keys, recursing on deep keys, computes the merge |
| ThemeMerge.MergeFieldsKeys | theme/src/contexts/theme-config.tsx:46-53 | after n source keys, the keys are the target's plus those n |
| ThemeMerge.MergeFieldsUntouched | theme/src/contexts/theme-config.tsx:46 | a key not yet written keeps the target's value |
| ThemeMerge.MergeFieldsGetStep | theme/src/contexts/theme-config.tsx:49-53 | one loop step stores the merged value under its key and leaves every other key's value alone |
| ThemeMerge.MergeFieldsWritten | theme/src/contexts/theme-config.tsx:49-53 | a written key holds its merged value until the loop ends |
| ThemeMerge.MergeKeys | theme/src/contexts/theme-config.tsx:45-56 | `Merge` (`deepMerge`) gives an object whose keys are the target keys plus the source keys |
| ThemeMerge.TargetOnlyKept | theme/src/contexts/theme-config.tsx:46 | keys only in the target keep the target's values |
| ThemeMerge.SourceKeyWritten | theme/src/contexts/theme-config.tsx:49-53 | a source value overwrites, including `undefined`, `null` and `false`, unless the key is deep and the value an object, in which case it is merged into the target's value or `{}` |
| ThemeMerge.DeepSubKeysSurvive | theme/src/contexts/theme-config.tsx:49-50 | under a deep key, target sub-keys absent from the source survive |
| ThemeMerge.EmptySource | theme/src/contexts/theme-config.tsx:45-56 | an empty source gives a copy of the target |
| ThemeMerge.MergeIdempotent | theme/src/contexts/theme-config.tsx:45-56 | merging the same source twice is merging it once |
| ThemeMerge.SecondPassFixed | theme/src/contexts/theme-config.tsx:47-53 | replaying the source's first n keys on a merged result changes nothing |
| ThemeMerge.SecondPassStep | theme/src/contexts/theme-config.tsx:49-53 | replaying one source key on a merged result writes the value already there |
| ThemeMerge.ProviderDefaults | theme/src/contexts/theme-config.tsx:68-70 | `ProviderConfig`: a falsy or empty value gives `DEFAULT_THEME` |
| ThemeMerge.ProviderFeatures | theme/src/contexts/theme-config.tsx:26-32 | `ProviderConfig`: a `features` object is merged into the default features, so unset flags such as `i18n: false` survive |
| Landing.Utf16Length | theme/src/layouts/landing.tsx:10 | `length` counts between one and two units per character |
| Landing.RenderIcon | theme/src/layouts/landing.tsx:6-27 | nothing for a missing or empty icon; emoji text without `:` for length 2 or `:…:`; nothing for a capital first letter; otherwise an image of the icon |
| Landing.RemoveAllAbsent | theme/src/layouts/landing.tsx:13 | removing an absent character changes nothing |
| Landing.ShortcodeShowsName | theme/src/layouts/landing.tsx:10-13 | `:name:` shows as `name` |
| Landing.RemoveTrailing | theme/src/layouts/landing.tsx:13 | removing `:` from `name:` gives `name` |
| Landing.ImageIsIcon | theme/src/layouts/landing.tsx:24-26 | an image appears only for a non-empty icon that is neither emoji nor component name, with the icon as source |
| Landing.IconPrecedence | theme/src/layouts/landing.tsx:10-19 | `AB` and one astral character are emoji, `Gamepad` shows nothing |
| CsvToFiles.Dashed | theme/script/csv-to-files.py:16-18 | every character outside `a-z0-9-` becomes `-`, the rest stay, position by position |
| CsvToFiles.StripLeading | theme/script/csv-to-files.py:22 | only leading `c`s are removed, and the result does not start with `c` |
| CsvToFiles.StripTrailing | theme/script/csv-to-files.py:22 | only trailing `c`s are removed, and the result does not end with `c` |
| CsvToFiles.CollapseChars | theme/script/csv-to-files.py:20 | collapsing introduces no new character |
| CsvToFiles.SliceNoRuns | theme/script/csv-to-files.py:22 | a slice of a run-free text is run-free |
| CsvToFiles.SanitizeFilename | theme/script/csv-to-files.py:7-23 | the name has only `a-z`, `0-9` and `-`, no `--`, and no `-` at either end |
| CsvToFiles.StripCleans | theme/script/csv-to-files.py:22 | stripping a run-free slug text gives a clean name |
| CsvToFiles.SliceDashed | theme/script/csv-to-files.py:22 | a slice keeps the slug characters and run-freedom |
| CsvToFiles.SanitizeClean | theme/script/csv-to-files.py:7-23 | a clean name is its own sanitised form |
| CsvToFiles.LowerClean | theme/script/csv-to-files.py:14 | lowering a clean name changes nothing |
| CsvToFiles.SanitizeIdempotent | theme/script/csv-to-files.py:7-23 | sanitising twice is sanitising once |
| Strings.RemoveAllConcat | theme/script/csv-to-files.py:20-22 | removing a character distributes over concatenation |
| CsvToFiles.RemoveAllOnly | theme/script/csv-to-files.py:22 | a text of only `c`s is empty without them |
| CsvToFiles.StripKeepsOthers | theme/script/csv-to-files.py:22 | stripping `-` keeps every other character in order |
| CsvToFiles.StripLeadingKeeps | theme/script/csv-to-files.py:22 | the same for the leading side |
| CsvToFiles.StripTrailingKeeps | theme/script/csv-to-files.py:22 | the same for the trailing side |
| CsvToFiles.SanitizeKeepsAlphanumerics | theme/script/csv-to-files.py:7-23 | the letters and digits of the lowered title survive in order, and the name is empty iff there are none |
| CsvToFiles.PunctuationOnlyTitle | theme/script/csv-to-files.py:7-23 | a title of spaces and punctuation gives `''` |
| CsvToFiles.PyLower | theme/script/csv-to-files.py:14 | `str.lower()`: without the two special capitals, one lowered character per character |
| CsvToFiles.LowerUnchanged | theme/script/csv-to-files.py:14 | a text with no capitals or special characters lowers to itself |
| CsvToFiles.PathJoin | theme/script/csv-to-files.py:34 | `os.path.join`: an absolute second part replaces the first, otherwise the first, one `/` unless it is empty or already ends with `/`, then the second |
| CsvToFiles.CategoryDir | theme/script/csv-to-files.py:32-35 | the output directory when `cate` is blank; otherwise a path ending with `cate`, under the output directory unless `cate` is absolute |
| CsvToFiles.MdxName | theme/script/csv-to-files.py:41-44 | a non-blank `filename` verbatim plus `.mdx`, else the sanitised title plus `.mdx` |
| CsvToFiles.MdxPath | theme/script/csv-to-files.py:33-46 | the file path always ends with `.mdx` |
| CsvToFiles.Content | theme/script/csv-to-files.py:59-62 | the given content when non-empty, else (missing or empty) the default text; never empty |
| CsvToFiles.MdxText | theme/script/csv-to-files.py:49-70 | the front matter, then `# {title}`, a blank line and the content |
| CsvToFiles.ConvertCsvToMdx | theme/script/csv-to-files.py:73-87 | the loop over rows leaves the files the rows describe |
| CsvToFiles.Writes | theme/script/csv-to-files.py:73-87 | one write per row, in row order, each of the row's text to the row's path |
| CsvToFiles.StorePaths | theme/script/csv-to-files.py:68-70 | after a series of writes a path holds a file iff some write targets it |
| CsvToFiles.StoreLastWins | theme/script/csv-to-files.py:68-70 | opening with `'w'` replaces: a path holds the text of its last write |
| CsvToFiles.WrittenPaths | theme/script/csv-to-files.py:73-87 | a file exists iff some row targets its path |
| CsvToFiles.LastRowWins | theme/script/csv-to-files.py:68-70 | a file holds the text of the last row that targets it |
| CsvToFiles.SameSlugSameFile | theme/script/csv-to-files.py:33-46 | two rows with the same directory and sanitised title write the same file |

## Left out

- JSX markup, styling, icons and React state used only for display (`isClient`, `isOpen`, `isMenuOpen`) are not modelled.
- Side effects are left out: `console.log`, the `globalThis` page-map reads, the cookie write and `router.push` of the locale switcher, the `document.documentElement.lang` effect, `os.makedirs`, reading the CSV and writing the files. The files the script leaves behind are modelled as a map from path to text.
- The clock is a parameter: `lastmod` in the sitemap is the given timestamp when `autoLastmod` is set, and the CSV front matter date is a given string.
- JavaScript `Number()` is modelled only for digit strings. Signs, decimals, exponents, whitespace and hexadecimal are not, so a negative or fractional `page` query is treated as page 1; the source would pass it on to `slice`.
- Query parameters that are arrays are not modelled; a query value is a string or a number.
- Regular expressions are modelled only in the shapes the code uses. A locale code holding regex metacharacters in `new RegExp('^/' + locale)` is matched literally here.
- Case mapping is ASCII-only in the JavaScript helpers. Python's `str.lower()` is modelled for ASCII, U+212A (Kelvin sign) and U+0130 (capital I with dot); other non-ASCII capitals are kept. They become `-` in `sanitize_filename` either way.
- Object key order is declaration order. JavaScript lists integer-like keys first in ascending order; the model does not.
- `deepMerge` values are JSON-like. Numbers are integers only, with no NaN and no floats. Functions, inherited properties and `__proto__` are not modelled. The target is never mutated because values are immutable.
- The layout dispatch, which picks the component that renders a page, is not modelled; it only selects a component.
- A CSV row without a `title` column raises `KeyError` in the source; the model requires a title.
- `SiteConfig.GetDefaultLocale`: requires a non-empty registry. With an empty one the source throws on `locales[0][1]`.
- `SiteConfig.MakeI18nConfig`: requires a non-empty registry. With an empty one the source yields an `undefined` default locale.
- `Sitemap.FindUrlConfig`: requires a non-empty rule table. With an empty one the source returns `undefined` and throws on `changefreq`.
- `ThemeConfig.HeadLocale`: requires a non-empty registry, for the same reason as `GetDefaultLocale`.
- `CategoryLayout.CurrentPage`: a page query that is not a plain decimal digit string defaults to 1, as described above.
- Pages of `usePageConfig` are looked up in the static page map followed by the dynamic one. Where these maps come from is not modelled.
- Where the code and its documentation differ, the code is followed. Locale-aware sitemap urls lose the `//` after the scheme, so `https://example.com` becomes `https:/example.com/en`. `getGamesInCurrentDirectory` strips the locale by text, so `/enx` loses `/en`. The locale switcher rewrites any two lower-case letters after the first `/`, so `/games` becomes `/zhmes`. Page titles and suffixes are joined without a separator.
