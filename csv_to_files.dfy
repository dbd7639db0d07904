/**
 * The CSV import script (theme/script/csv-to-files.py): each row of the CSV
 * becomes one `.mdx` page. The model keeps the decisions the script takes,
 * which are the file name `sanitize_filename` derives from a title, the
 * directory and name of each file, and the text written to it, together with
 * the loop that writes one file per row. The file system is a map from path
 * to content; the current date is a parameter.
 */
module CsvToFiles {
  import opened Wrappers
  import opened Strings

  /** Python's `str.lower()` of one character: ASCII letters, plus the two capitals whose lower case contains ASCII. */
  function PyLowerChar(c: char): string {
    if c == '\U{212A}' then "k"
    else if c == '\U{0130}' then "i\U{0307}"
    else [ToLower(c)]
  }

  /** `title.lower()`: outside the two special capitals, one lowered character per character. */
  function PyLower(s: string): (r: string)
    ensures (forall i :: 0 <= i < |s| ==> s[i] != '\U{212A}' && s[i] != '\U{0130}') ==>
      |r| == |s| && forall i :: 0 <= i < |s| ==> r[i] == ToLower(s[i])
  {
    if s == [] then [] else PyLower(s[..|s| - 1]) + PyLowerChar(s[|s| - 1])
  }

  /** The characters a file name keeps: `[a-z0-9-]`. */
  predicate SlugChar(c: char) {
    IsLower(c) || IsDigit(c) || c == '-'
  }

  /** `.replace(' ', '-')` then `re.sub(r'[^a-z0-9\-]', '-', ...)`: every other character becomes `-`. */
  function Dashed(s: string): (r: string)
    ensures |r| == |s|
    ensures forall i :: 0 <= i < |s| ==> r[i] == if SlugChar(s[i]) then s[i] else '-'
  {
    seq(|s|, i requires 0 <= i < |s| => if SlugChar(s[i]) then s[i] else '-')
  }

  /** Leading `c` removed. */
  function StripLeading(s: string, c: char): (r: string)
    ensures |r| <= |s| && r == s[|s| - |r|..]
    ensures r == [] || r[0] != c
    ensures forall i :: 0 <= i < |s| - |r| ==> s[i] == c
  {
    if s != [] && s[0] == c then
      var r := StripLeading(s[1..], c);
      assert s[1..][|s[1..]| - |r|..] == s[|s| - |r|..];
      assert forall i :: 1 <= i < |s| ==> s[i] == s[1..][i - 1];
      r
    else s
  }

  /** Trailing `c` removed. */
  function StripTrailing(s: string, c: char): (r: string)
    ensures |r| <= |s| && r == s[..|r|]
    ensures r == [] || r[|r| - 1] != c
    ensures forall i :: |r| <= i < |s| ==> s[i] == c
  {
    if s != [] && s[|s| - 1] == c then StripTrailing(s[..|s| - 1], c) else s
  }

  /** `s.strip(c)`. */
  function Strip(s: string, c: char): string {
    StripTrailing(StripLeading(s, c), c)
  }

  /** A file name as `sanitize_filename` leaves it: `[a-z0-9-]` only, no `--`, no `-` at either end. */
  predicate CleanName(s: string) {
    && (forall i :: 0 <= i < |s| ==> SlugChar(s[i]))
    && NoRuns(s, '-')
    && (s != [] ==> s[0] != '-' && s[|s| - 1] != '-')
  }

  /** Every character `CollapseRuns` leaves comes from its input. */
  lemma {:induction false} CollapseChars(s: string, c: char)
    ensures forall i :: 0 <= i < |CollapseRuns(s, c)| ==> CollapseRuns(s, c)[i] in s
    decreases |s|
  {
    if |s| > 1 {
      CollapseChars(s[1..], c);
      assert forall x :: x in s[1..] ==> x in s;
    }
  }

  /** A piece of a string without runs has none either. */
  lemma SliceNoRuns(s: string, c: char, a: nat, b: nat)
    requires NoRuns(s, c) && a <= b <= |s|
    ensures NoRuns(s[a..b], c)
  {
    forall i | 0 <= i < |s[a..b]| - 1 ensures !(s[a..b][i] == c && s[a..b][i + 1] == c) {
      assert s[a..b][i] == s[a + i] && s[a..b][i + 1] == s[a + i + 1];
    }
  }

  /** `sanitize_filename(title)`. */
  function SanitizeFilename(title: string): (name: string)
    ensures CleanName(name)
  {
    var dashed := Dashed(PyLower(title));
    var collapsed := CollapseRuns(dashed, '-');
    CollapseRunsFacts(dashed, '-');
    CollapseChars(dashed, '-');
    StripCleans(collapsed);
    Strip(collapsed, '-')
  }

  /** Stripping the ends of a dashed string without runs leaves a clean name. */
  lemma StripCleans(s: string)
    requires forall i :: 0 <= i < |s| ==> SlugChar(s[i])
    requires NoRuns(s, '-')
    ensures CleanName(Strip(s, '-'))
  {
    var lead := StripLeading(s, '-');
    SliceDashed(s, |s| - |lead|, |s|);
    var name := StripTrailing(lead, '-');
    SliceDashed(lead, 0, |name|);
    if name != [] {
      assert name[0] == lead[0];
    }
  }

  /** A piece of a dashed string without runs is one too. */
  lemma SliceDashed(s: string, a: nat, b: nat)
    requires forall i :: 0 <= i < |s| ==> SlugChar(s[i])
    requires NoRuns(s, '-') && a <= b <= |s|
    ensures forall i :: 0 <= i < |s[a..b]| ==> SlugChar(s[a..b][i])
    ensures NoRuns(s[a..b], '-')
  {
    SliceNoRuns(s, '-', a, b);
    assert forall i :: 0 <= i < |s[a..b]| ==> s[a..b][i] == s[a + i];
  }

  /** A clean name is its own sanitised form: lowering, dashing, collapsing and stripping change nothing. */
  lemma {:induction false} SanitizeClean(s: string)
    requires CleanName(s)
    ensures SanitizeFilename(s) == s
  {
    LowerClean(s);
    assert Dashed(s) == s;
    CollapseNoRuns(s, '-');
  }

  lemma {:induction false} LowerClean(s: string)
    requires forall i :: 0 <= i < |s| ==> SlugChar(s[i])
    ensures PyLower(s) == s
  {
    if s != [] {
      LowerClean(s[..|s| - 1]);
      assert s[..|s| - 1] + [s[|s| - 1]] == s;
    }
  }

  /** Sanitising twice is sanitising once. */
  lemma SanitizeIdempotent(title: string)
    ensures SanitizeFilename(SanitizeFilename(title)) == SanitizeFilename(title)
  {
    SanitizeClean(SanitizeFilename(title));
  }

  /** A string made only of `c` disappears when `c` is removed. */
  lemma {:induction false} RemoveAllOnly(s: string, c: char)
    requires forall i :: 0 <= i < |s| ==> s[i] == c
    ensures RemoveAll(s, c) == []
  {
    if s != [] {
      RemoveAllOnly(s[1..], c);
    }
  }

  /** Stripping `c` from both ends keeps every other character. */
  lemma StripKeepsOthers(s: string, c: char)
    ensures RemoveAll(Strip(s, c), c) == RemoveAll(s, c)
  {
    StripLeadingKeeps(s, c);
    StripTrailingKeeps(StripLeading(s, c), c);
  }

  lemma StripLeadingKeeps(s: string, c: char)
    ensures RemoveAll(StripLeading(s, c), c) == RemoveAll(s, c)
  {
    var lead := StripLeading(s, c);
    var cut := s[..|s| - |lead|];
    assert s == cut + lead;
    RemoveAllConcat(cut, lead, c);
    RemoveAllOnly(cut, c);
  }

  lemma StripTrailingKeeps(s: string, c: char)
    ensures RemoveAll(StripTrailing(s, c), c) == RemoveAll(s, c)
  {
    var r := StripTrailing(s, c);
    var cut := s[|r|..];
    assert s == r + cut;
    RemoveAllConcat(r, cut, c);
    RemoveAllOnly(cut, c);
  }

  /**
   * Apart from its dashes, the file name is exactly the lowered title's
   * letters and digits, in order; so it is empty exactly when the title has
   * none.
   */
  lemma SanitizeKeepsAlphanumerics(title: string)
    ensures RemoveAll(SanitizeFilename(title), '-') == RemoveAll(Dashed(PyLower(title)), '-')
    ensures SanitizeFilename(title) == [] <==> RemoveAll(Dashed(PyLower(title)), '-') == []
  {
    var d := Dashed(PyLower(title));
    var name := SanitizeFilename(title);
    CollapseRunsFacts(d, '-');
    StripKeepsOthers(CollapseRuns(d, '-'), '-');
    if name != [] {
      assert RemoveAll(name, '-') == [name[0]] + RemoveAll(name[1..], '-');
    }
  }

  /** A title of spaces and punctuation only gives the empty name. */
  lemma PunctuationOnlyTitle(title: string)
    requires forall i :: 0 <= i < |title| ==> !IsUpper(title[i]) && !SlugChar(title[i]) && title[i] != '\U{212A}' && title[i] != '\U{0130}'
    ensures SanitizeFilename(title) == []
  {
    LowerUnchanged(title);
    var d := Dashed(title);
    assert forall i :: 0 <= i < |d| ==> d[i] == '-';
    RemoveAllOnly(d, '-');
    SanitizeKeepsAlphanumerics(title);
  }

  lemma {:induction false} LowerUnchanged(s: string)
    requires forall i :: 0 <= i < |s| ==> !IsUpper(s[i]) && s[i] != '\U{212A}' && s[i] != '\U{0130}'
    ensures PyLower(s) == s
  {
    if s != [] {
      LowerUnchanged(s[..|s| - 1]);
      assert s[..|s| - 1] + [s[|s| - 1]] == s;
    }
  }

  /** Python's `str.isspace()`. */
  predicate IsPySpace(c: char) {
    c == ' ' || ('\t' <= c <= '\r') || ('\U{1C}' <= c <= '\U{1F}') || c == '\U{85}' || c == '\U{A0}'
    || c == '\U{1680}' || ('\U{2000}' <= c <= '\U{200A}') || c == '\U{2028}' || c == '\U{2029}'
    || c == '\U{202F}' || c == '\U{205F}' || c == '\U{3000}'
  }

  /** `row.get(field) and row[field].strip()`: the field is present and not all whitespace. */
  predicate Filled(field: Option<string>) {
    field.Some? && exists i :: 0 <= i < |field.value| && !IsPySpace(field.value[i])
  }

  /** `os.path.join(a, b)` on POSIX: an absolute `b` replaces `a`; otherwise one `/` separates them. */
  function PathJoin(a: string, b: string): (p: string)
    ensures StartsWith(b, "/") ==> p == b
    ensures !StartsWith(b, "/") ==> StartsWith(p, a) && EndsWith(p, b)
    ensures !StartsWith(b, "/") && a != [] && !EndsWith(a, "/") ==> |p| == |a| + 1 + |b| && p[|a|] == '/'
    ensures !StartsWith(b, "/") && (a == [] || EndsWith(a, "/")) ==> |p| == |a| + |b|
  {
    if StartsWith(b, "/") then b
    else if a == [] || EndsWith(a, "/") then
      assert (a + b)[|a + b| - |b|..] == b;
      a + b
    else
      assert (a + "/" + b)[|a + "/" + b| - |b|..] == b;
      a + "/" + b
  }

  /** A CSV row as `csv.DictReader` yields it: a missing column or a short row gives `None`. */
  datatype Row = Row(title: string, cate: Option<string>, filename: Option<string>, content: Option<string>)

  /** The directory of a row's file: `output_dir/cate` when `cate` is filled, else `output_dir`. */
  function CategoryDir(row: Row, outputDir: string): (d: string)
    ensures !Filled(row.cate) ==> d == outputDir
    ensures Filled(row.cate) ==> EndsWith(d, row.cate.value)
    ensures Filled(row.cate) && !StartsWith(row.cate.value, "/") ==> StartsWith(d, outputDir)
  {
    if Filled(row.cate) then PathJoin(outputDir, row.cate.value) else outputDir
  }

  /** The file name: the `filename` field verbatim when filled, else the sanitised title; then `.mdx`. */
  function MdxName(row: Row): (name: string)
    ensures Filled(row.filename) ==> name == row.filename.value + ".mdx"
    ensures !Filled(row.filename) ==> name == SanitizeFilename(row.title) + ".mdx"
    ensures EndsWith(name, ".mdx")
  {
    var base := if Filled(row.filename) then row.filename.value else SanitizeFilename(row.title);
    assert (base + ".mdx")[|base|..] == ".mdx";
    base + ".mdx"
  }

  /** The path `create_mdx_file` writes to. */
  function MdxPath(row: Row, outputDir: string): (p: string)
    ensures EndsWith(p, ".mdx")
  {
    var name := MdxName(row);
    var p := PathJoin(CategoryDir(row, outputDir), name);
    assert EndsWith(p, ".mdx") by {
      var d := |p| - |name|;
      assert p[d..] == name;
      assert p[|p| - 4..] == name[|name| - 4..];
    }
    p
  }

  /** The text used when a row has no content. */
  const DefaultContent: string := "游戏介绍即将到来..."

  /** `row.get("content", "")`, replaced by the default text when falsy. */
  function Content(row: Row): (c: string)
    ensures c != ""
    ensures row.content.Some? && row.content.value != "" ==> c == row.content.value
    ensures row.content.None? || row.content.value == "" ==> c == DefaultContent
  {
    if row.content.None? || row.content.value == "" then DefaultContent else row.content.value
  }

  /** The front matter: the title, empty cover and description, and the date. */
  function FrontMatter(row: Row, date: string): string {
    "---\ntitle: " + row.title + "\ncover: \ndescription: \ndate: " + date + "\n---\n\n"
  }

  /** Everything written to a row's file: the front matter, then `# title`, a blank line and the content. */
  function MdxText(row: Row, date: string): (text: string)
    ensures StartsWith(text, FrontMatter(row, date))
    ensures text[|FrontMatter(row, date)|..] == "# " + row.title + "\n\n" + Content(row)
  {
    var fm := FrontMatter(row, date);
    var body := "# " + row.title + "\n\n" + Content(row);
    assert (fm + body)[..|fm|] == fm;
    assert (fm + body)[|fm|..] == body;
    fm + body
  }

  /** The write each row performs: its path and the text it writes there. */
  function Writes(rows: seq<Row>, outputDir: string, date: string): (ws: seq<(string, string)>)
    ensures |ws| == |rows|
    ensures forall i :: 0 <= i < |rows| ==> ws[i] == (MdxPath(rows[i], outputDir), MdxText(rows[i], date))
  {
    seq(|rows|, i requires 0 <= i < |rows| => (MdxPath(rows[i], outputDir), MdxText(rows[i], date)))
  }

  /** The files left by a series of writes, a later write to a path replacing an earlier one. */
  function Store(ws: seq<(string, string)>): map<string, string> {
    if ws == [] then map[]
    else Store(ws[..|ws| - 1])[ws[|ws| - 1].0 := ws[|ws| - 1].1]
  }

  /** The files a run leaves behind. */
  function Written(rows: seq<Row>, outputDir: string, date: string): map<string, string> {
    Store(Writes(rows, outputDir, date))
  }

  /** `convert_csv_to_mdx`: `create_mdx_file` for every row, in order. */
  method ConvertCsvToMdx(rows: seq<Row>, outputDir: string, date: string) returns (files: map<string, string>)
    ensures files == Written(rows, outputDir, date)
  {
    ghost var ws := Writes(rows, outputDir, date);
    files := map[];
    for i := 0 to |rows|
      invariant files == Store(ws[..i])
    {
      var path := MdxPath(rows[i], outputDir);
      var text := MdxText(rows[i], date);
      StoreStep(ws, i);
      files := files[path := text];
    }
    assert ws[..|rows|] == ws;
  }

  /** One more write stores its text under its path. */
  lemma StoreStep(ws: seq<(string, string)>, i: nat)
    requires i < |ws|
    ensures Store(ws[..i + 1]) == Store(ws[..i])[ws[i].0 := ws[i].1]
  {
    assert ws[..i + 1][..i] == ws[..i];
  }

  /** A path holds a file exactly when some write targets it. */
  lemma {:induction false} StorePaths(ws: seq<(string, string)>, p: string)
    ensures p in Store(ws) <==> exists i :: 0 <= i < |ws| && ws[i].0 == p
  {
    if ws != [] {
      var init := ws[..|ws| - 1];
      StorePaths(init, p);
      if p in Store(ws) && p != ws[|ws| - 1].0 {
        var i :| 0 <= i < |init| && init[i].0 == p;
        assert ws[i] == init[i];
      }
      if exists i :: 0 <= i < |ws| && ws[i].0 == p {
        var i :| 0 <= i < |ws| && ws[i].0 == p;
        if i < |init| {
          assert init[i] == ws[i];
        }
      }
    }
  }

  /** A path holds the text of the last write to it. */
  lemma {:induction false} StoreLastWins(ws: seq<(string, string)>, i: nat)
    requires i < |ws|
    requires forall j :: i < j < |ws| ==> ws[j].0 != ws[i].0
    ensures ws[i].0 in Store(ws) && Store(ws)[ws[i].0] == ws[i].1
  {
    if i < |ws| - 1 {
      var init := ws[..|ws| - 1];
      assert init[i] == ws[i];
      forall j | i < j < |init| ensures init[j].0 != ws[i].0 {
        assert init[j] == ws[j];
      }
      StoreLastWins(init, i);
    }
  }

  /** A path holds a file exactly when some row targets it. */
  lemma WrittenPaths(rows: seq<Row>, outputDir: string, date: string, p: string)
    ensures p in Written(rows, outputDir, date) <==> exists i :: 0 <= i < |rows| && MdxPath(rows[i], outputDir) == p
  {
    var ws := Writes(rows, outputDir, date);
    StorePaths(ws, p);
    if exists i :: 0 <= i < |rows| && MdxPath(rows[i], outputDir) == p {
      var i :| 0 <= i < |rows| && MdxPath(rows[i], outputDir) == p;
      assert ws[i].0 == p;
    }
  }

  /** The file at a path holds the text of the last row that targets it. */
  lemma LastRowWins(rows: seq<Row>, outputDir: string, date: string, i: nat)
    requires i < |rows|
    requires forall j :: i < j < |rows| ==> MdxPath(rows[j], outputDir) != MdxPath(rows[i], outputDir)
    ensures MdxPath(rows[i], outputDir) in Written(rows, outputDir, date)
    ensures Written(rows, outputDir, date)[MdxPath(rows[i], outputDir)] == MdxText(rows[i], date)
  {
    var ws := Writes(rows, outputDir, date);
    forall j | i < j < |ws| ensures ws[j].0 != ws[i].0 {
    }
    StoreLastWins(ws, i);
  }

  /** Two unnamed rows whose titles sanitise alike land in the same file, whatever else differs. */
  lemma SameSlugSameFile(a: Row, b: Row, outputDir: string)
    requires !Filled(a.filename) && !Filled(b.filename)
    requires CategoryDir(a, outputDir) == CategoryDir(b, outputDir)
    requires SanitizeFilename(a.title) == SanitizeFilename(b.title)
    ensures MdxPath(a, outputDir) == MdxPath(b, outputDir)
  {
  }
}
