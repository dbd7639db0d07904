/**
 * String helpers shared by the whole model. Each one stands for one JavaScript
 * or Python string operation that the theme applies to paths and titles; regular
 * expressions appear only in the shapes the theme uses (a literal anchored at the
 * start or the end, a run of one character, a single-character class).
 */
module Strings {
  import opened Wrappers

  /**
   * `a || b` for an optional string: JavaScript treats both a missing value
   * and the empty string as false.
   */
  function OrElse(a: Option<string>, b: string): (r: string)
    ensures a.Some? && a.value != "" ==> r == a.value
    ensures (a.None? || a.value == "") ==> r == b
  {
    if a.Some? && a.value != "" then a.value else b
  }

  /** `s.startsWith(p)` and an anchored literal `^p` test. */
  predicate StartsWith(s: string, p: string) {
    |p| <= |s| && s[..|p|] == p
  }

  /** `s.endsWith(x)`. */
  predicate EndsWith(s: string, x: string) {
    |x| <= |s| && s[|s| - |x|..] == x
  }

  /**
   * `s.replace(new RegExp('^' + p), '')` for a literal `p`: the prefix is removed
   * by text, with no regard for path segments.
   */
  function StripPrefix(s: string, p: string): (r: string)
    ensures StartsWith(s, p) ==> p + r == s
    ensures !StartsWith(s, p) ==> r == s
  {
    if StartsWith(s, p) then s[|p|..] else s
  }

  /** `s.replace(new RegExp(x + '$'), '')` for a literal `x`: one occurrence at the end. */
  function StripSuffix(s: string, x: string): (r: string)
    ensures EndsWith(s, x) ==> r + x == s
    ensures !EndsWith(s, x) ==> r == s
  {
    if EndsWith(s, x) then s[..|s| - |x|] else s
  }

  /** `s.replace(/\/$/, '')`: removes ONE trailing slash, not a run of them. */
  function DropTrailingSlash(s: string): (r: string)
    ensures |s| > 0 && s[|s| - 1] == '/' ==> r + "/" == s
    ensures (|s| == 0 || s[|s| - 1] != '/') ==> r == s
  {
    StripSuffix(s, "/")
  }

  /** Concatenation regroups freely. */
  lemma ConcatAssoc<T>(x: seq<T>, y: seq<T>, z: seq<T>)
    ensures (x + y) + z == x + (y + z)
  {
  }

  /** The index of the first `c` in `s`, or `|s|` when there is none. */
  function IndexOf(s: string, c: char): (i: nat)
    ensures i <= |s|
    ensures i < |s| ==> s[i] == c
    ensures c !in s[..i]
  {
    if s == [] then 0
    else if s[0] == c then 0
    else 1 + IndexOf(s[1..], c)
  }

  /** `s.split(c)[0]`: the text before the first `c`, or all of `s`. */
  function BeforeFirst(s: string, c: char): (r: string)
    ensures StartsWith(s, r)
    ensures c !in r
    ensures |r| < |s| ==> s[|r|] == c
  {
    s[..IndexOf(s, c)]
  }

  /**
   * `s.split('?')[0].split('#')[0]`: `s` cut at the first `?`, then at the
   * first `#`; the longest prefix of `s` holding neither character.
   */
  function PathPart(s: string): (p: string)
    ensures '?' !in p && '#' !in p
    ensures StartsWith(s, p)
    ensures |p| < |s| ==> s[|p|] == '?' || s[|p|] == '#'
  {
    var query := BeforeFirst(s, '?');
    var p := BeforeFirst(query, '#');
    assert |p| == |query| ==> p == query;
    p
  }

  /** The three facts of `PathPart` determine it: no other prefix has them. */
  lemma PathPartUnique(s: string, q: string)
    requires '?' !in q && '#' !in q
    requires StartsWith(s, q)
    requires |q| < |s| ==> s[|q|] == '?' || s[|q|] == '#'
    ensures q == PathPart(s)
  {
    var p := PathPart(s);
    assert |q| == |p| by {
      assert forall i :: 0 <= i < |p| ==> p[i] == s[i];
      assert forall i :: 0 <= i < |q| ==> q[i] == s[i];
    }
    assert q == s[..|q|] && p == s[..|p|];
  }

  /** `s.split(c)` for a one-character separator, JavaScript and Python alike. */
  function Split(s: string, c: char): (parts: seq<string>)
    ensures |parts| >= 1
    ensures forall i :: 0 <= i < |parts| ==> c !in parts[i]
    decreases |s|
  {
    var i := IndexOf(s, c);
    if i == |s| then [s] else [s[..i]] + Split(s[i + 1..], c)
  }

  /** The first piece of a split is the text before the first separator. */
  lemma SplitFirst(s: string, c: char)
    ensures Split(s, c)[0] == BeforeFirst(s, c)
  {
  }

  /**
   * `s.split(c)[1]`: the text between the first and the second `c`, absent
   * (`undefined`) when `s` holds no `c`.
   */
  function SecondField(s: string, c: char): (f: Option<string>)
    ensures f.None? <==> c !in s
    ensures f.Some? ==> IndexOf(s, c) < |s| && f.value == BeforeFirst(s[IndexOf(s, c) + 1..], c)
  {
    var parts := Split(s, c);
    var i := IndexOf(s, c);
    if i < |s| then
      assert c in s;
      SplitFirst(s[i + 1..], c);
      Some(parts[1])
    else
      assert s[..i] == s;
      None
  }

  /** `parts.join(sep)`. */
  function Join(parts: seq<string>, sep: string): string
  {
    if |parts| == 0 then ""
    else if |parts| == 1 then parts[0]
    else parts[0] + sep + Join(parts[1..], sep)
  }

  /** Splitting and joining with the same character gives the string back. */
  lemma {:induction false} JoinSplit(s: string, c: char)
    ensures Join(Split(s, c), [c]) == s
    decreases |s|
  {
    var i := IndexOf(s, c);
    if i < |s| {
      var tail := s[i + 1..];
      SplitStep(s, c);
      JoinCons(s[..i], Split(tail, c), [c]);
      JoinSplit(tail, c);
      assert s == s[..i] + [c] + tail;
    } else {
      assert Split(s, c) == [s];
    }
  }

  /** Splitting at a present separator yields the text before it, then the split of the rest. */
  lemma SplitStep(s: string, c: char)
    requires IndexOf(s, c) < |s|
    ensures Split(s, c) == [s[..IndexOf(s, c)]] + Split(s[IndexOf(s, c) + 1..], c)
  {
  }

  /** Joining a leading part onto a non-empty list puts one separator between them. */
  lemma JoinCons(x: string, rest: seq<string>, sep: string)
    requires rest != []
    ensures Join([x] + rest, sep) == x + sep + Join(rest, sep)
  {
    assert ([x] + rest)[1..] == rest;
  }

  /** The text after the last `c`: `parts[parts.length - 1]` of `s.split(c)`. */
  function AfterLast(s: string, c: char): (r: string)
  {
    var parts := Split(s, c);
    parts[|parts| - 1]
  }

  /** The text after the last `c` is a suffix of `s` without `c`; a trailing `c` leaves it empty. */
  lemma {:induction false} AfterLastIsSuffix(s: string, c: char)
    ensures c !in AfterLast(s, c)
    ensures EndsWith(s, AfterLast(s, c))
    ensures |s| > 0 && s[|s| - 1] == c ==> AfterLast(s, c) == ""
    ensures c !in s ==> AfterLast(s, c) == s
    decreases |s|
  {
    var i := IndexOf(s, c);
    if i < |s| {
      var rest := s[i + 1..];
      AfterLastIsSuffix(rest, c);
      assert AfterLast(s, c) == AfterLast(rest, c);
      assert s[|s| - |rest|..] == rest;
    } else {
      assert c !in s[..i];
    }
  }

  /** The first `c` comes no later than any `c`. */
  lemma {:induction false} IndexOfAtMost(s: string, c: char, j: nat)
    requires j < |s| && s[j] == c
    ensures IndexOf(s, c) <= j
    decreases j
  {
    if s[0] != c {
      IndexOfAtMost(s[1..], c, j - 1);
    }
  }

  /** Whatever precedes the last `c` plays no part in the text after it. */
  lemma {:induction false} AfterLastOfJoin(a: string, b: string, c: char)
    requires c !in b
    ensures AfterLast(a + [c] + b, c) == b
    decreases |a|
  {
    var s := a + [c] + b;
    var i := IndexOf(s, c);
    assert s[|a|] == c;
    IndexOfAtMost(s, c, |a|);
    assert AfterLast(s, c) == AfterLast(s[i + 1..], c);
    if i == |a| {
      assert s[i + 1..] == b;
      AfterLastIsSuffix(b, c);
    } else {
      assert s[i + 1..] == a[i + 1..] + [c] + b;
      AfterLastOfJoin(a[i + 1..], b, c);
    }
  }

  /** `s.replace(/c+/g, c)`: every run of `c` becomes a single `c`. */
  function CollapseRuns(s: string, c: char): (r: string)
    ensures |r| <= |s|
    decreases |s|
  {
    if |s| <= 1 then s
    else if s[0] == c && s[1] == c then CollapseRuns(s[1..], c)
    else [s[0]] + CollapseRuns(s[1..], c)
  }

  /** No two neighbouring characters of `s` are both `c`. */
  predicate NoRuns(s: string, c: char) {
    forall i :: 0 <= i < |s| - 1 ==> !(s[i] == c && s[i + 1] == c)
  }

  /** `s` with every `c` removed: `s.replace(/c/g, '')`. */
  function RemoveAll(s: string, c: char): (r: string)
    ensures c !in r
    ensures |r| <= |s|
  {
    if s == [] then []
    else if s[0] == c then RemoveAll(s[1..], c)
    else [s[0]] + RemoveAll(s[1..], c)
  }

  /** Removing `c` from a concatenation removes it from each part. */
  lemma {:induction false} RemoveAllConcat(a: string, b: string, c: char)
    ensures RemoveAll(a + b, c) == RemoveAll(a, c) + RemoveAll(b, c)
  {
    if a != [] {
      assert (a + b)[0] == a[0];
      assert (a + b)[1..] == a[1..] + b;
      RemoveAllConcat(a[1..], b, c);
      if a[0] != c {
        assert RemoveAll(a + b, c) == [a[0]] + (RemoveAll(a[1..], c) + RemoveAll(b, c));
      }
    } else {
      assert a + b == b;
    }
  }

  /** CollapseRuns keeps the first character and every character other than `c`, in order. */
  lemma {:induction false} CollapseRunsFacts(s: string, c: char)
    ensures NoRuns(CollapseRuns(s, c), c)
    ensures RemoveAll(CollapseRuns(s, c), c) == RemoveAll(s, c)
    ensures |s| > 0 ==> |CollapseRuns(s, c)| > 0 && CollapseRuns(s, c)[0] == s[0]
    ensures (c in CollapseRuns(s, c)) == (c in s)
    decreases |s|
  {
    if |s| > 1 {
      var rest := CollapseRuns(s[1..], c);
      CollapseRunsFacts(s[1..], c);
      assert c in s <==> s[0] == c || c in s[1..] by { assert s == [s[0]] + s[1..]; }
      if !(s[0] == c && s[1] == c) {
        ConsFacts(s[0], rest, c);
      } else {
        assert c in s[1..];
      }
    }
  }

  /** Putting `x` in front of a run-free string that does not start a run with it. */
  lemma ConsFacts(x: char, rest: string, c: char)
    requires NoRuns(rest, c)
    requires rest != [] && x == c ==> rest[0] != c
    ensures NoRuns([x] + rest, c)
    ensures RemoveAll([x] + rest, c) == (if x == c then [] else [x]) + RemoveAll(rest, c)
    ensures c in [x] + rest <==> x == c || c in rest
  {
    var r := [x] + rest;
    assert r[1..] == rest;
    forall i | 0 <= i < |r| - 1 ensures !(r[i] == c && r[i + 1] == c) {
      if i > 0 {
        assert r[i] == rest[i - 1] && r[i + 1] == rest[i];
      }
    }
  }

  /** Collapsing leaves a string that has no runs unchanged, so collapsing twice is collapsing once. */
  lemma {:induction false} CollapseRunsIdempotent(s: string, c: char)
    ensures NoRuns(s, c) ==> CollapseRuns(s, c) == s
    ensures CollapseRuns(CollapseRuns(s, c), c) == CollapseRuns(s, c)
    decreases |s|
  {
    CollapseRunsFacts(s, c);
    CollapseNoRuns(CollapseRuns(s, c), c);
    if NoRuns(s, c) { CollapseNoRuns(s, c); }
  }

  lemma {:induction false} CollapseNoRuns(s: string, c: char)
    requires NoRuns(s, c)
    ensures CollapseRuns(s, c) == s
    decreases |s|
  {
    if |s| > 1 {
      assert NoRuns(s[1..], c) by {
        forall i | 0 <= i < |s[1..]| - 1 ensures !(s[1..][i] == c && s[1..][i + 1] == c) {
          assert s[1..][i] == s[i + 1] && s[1..][i + 1] == s[i + 2];
        }
      }
      CollapseNoRuns(s[1..], c);
      assert !(s[0] == c && s[1] == c);
    }
  }

  /** ASCII character classes used by the theme's regular expressions. */
  predicate IsLower(ch: char) { 'a' <= ch <= 'z' }
  predicate IsUpper(ch: char) { 'A' <= ch <= 'Z' }
  predicate IsDigit(ch: char) { '0' <= ch <= '9' }

  /** `ch.toUpperCase()` on ASCII letters; other characters are left as they are. */
  function ToUpper(ch: char): (r: char)
    ensures IsLower(ch) ==> IsUpper(r) && r as int == ch as int - 32
    ensures !IsLower(ch) ==> r == ch
  {
    if IsLower(ch) then (ch as int - 32) as char else ch
  }

  /** `ch.lower()` on ASCII letters; other characters are left as they are. */
  function ToLower(ch: char): (r: char)
    ensures IsUpper(ch) ==> IsLower(r) && r as int == ch as int + 32
    ensures !IsUpper(ch) ==> r == ch
  {
    if IsUpper(ch) then (ch as int + 32) as char else ch
  }

  /** The decimal value of a string of ASCII digits. */
  function DigitsValue(s: string): nat
    requires forall i :: 0 <= i < |s| ==> IsDigit(s[i])
  {
    if s == [] then 0
    else
      assert IsDigit(s[|s| - 1]);
      DigitsValue(s[..|s| - 1]) * 10 + (s[|s| - 1] as int - '0' as int)
  }

  /** `String(n)` for a natural number: its decimal digits, without leading zeros. */
  function NatToString(n: nat): (s: string)
    ensures s != [] && forall i :: 0 <= i < |s| ==> IsDigit(s[i])
  {
    var d := ['0' + (n % 10) as char];
    if n < 10 then d else NatToString(n / 10) + d
  }

  /** Reading the digits back gives the number: `Number(String(n)) == n`. */
  lemma {:induction false} NatToStringRoundTrip(n: nat)
    ensures DigitsValue(NatToString(n)) == n
  {
    var s := NatToString(n);
    if n >= 10 {
      NatToStringRoundTrip(n / 10);
      assert s[..|s| - 1] == NatToString(n / 10);
    }
  }

  /** Distinct numbers print differently. */
  lemma NatToStringInjective(m: nat, n: nat)
    requires NatToString(m) == NatToString(n)
    ensures m == n
  {
    NatToStringRoundTrip(m);
    NatToStringRoundTrip(n);
  }
}
