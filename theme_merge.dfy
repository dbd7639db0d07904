/**
 * The theme configuration provider (theme/src/contexts/theme-config.tsx):
 * `deepMerge` copies the target and then writes each key of the source into
 * the copy, merging recursively only under the keys of `DEEP_OBJECT_KEYS`
 * and only when the source value is an object. Configuration values are JSON
 * values here; an object is its list of entries in insertion order.
 */
module ThemeMerge {
  import opened Strings

  /** A JavaScript value as configuration files hold it. */
  datatype Json =
    | Undefined
    | Null
    | Bool(b: bool)
    | Num(n: int)
    | Str(s: string)
    | Arr(items: seq<Json>)
    | Obj(fields: seq<(string, Json)>)

  /** An object's own entries, key and value, in insertion order. */
  type Fields = seq<(string, Json)>

  /** JavaScript truthiness: `undefined`, `null`, `false`, `0` and `''` are falsy. */
  predicate Truthy(j: Json) {
    match j
    case Undefined => false
    case Null => false
    case Bool(b) => b
    case Num(n) => n != 0
    case Str(s) => s != ""
    case _ => true
  }

  /** `typeof j === 'object'`: arrays, objects and `null`. */
  predicate IsObjectType(j: Json) {
    j.Null? || j.Arr? || j.Obj?
  }

  /** `DEEP_OBJECT_KEYS`. */
  const DeepObjectKeys: seq<string> := ["features", "i18n", "nextThemes", "backgroundColor", "color"]

  /** A measure that strictly shrinks from an array or object to each of its elements. */
  function Size(j: Json): nat
    decreases j, 1
  {
    match j
    case Arr(xs) => 1 + SizeItems(xs)
    case Obj(fs) => 1 + SizeFields(j, |fs|)
    case _ => 0
  }

  function SizeItems(xs: seq<Json>): nat {
    if xs == [] then 0 else SizeItems(xs[..|xs| - 1]) + Size(xs[|xs| - 1])
  }

  /** The sizes of the first `n` values of object `j`, added up. */
  function SizeFields(j: Json, n: nat): nat
    requires j.Obj? && n <= |j.fields|
    decreases j, 0, n
  {
    if n == 0 then 0
    else
      assert j.fields[n - 1] in j.fields;
      assert j.fields[n - 1].1 < j;
      SizeFields(j, n - 1) + Size(j.fields[n - 1].1)
  }

  lemma {:induction false} ItemWithinSize(xs: seq<Json>, i: nat)
    requires i < |xs|
    ensures Size(xs[i]) <= SizeItems(xs)
  {
    if i < |xs| - 1 {
      ItemWithinSize(xs[..|xs| - 1], i);
    }
  }

  lemma {:induction false} FieldWithinSize(j: Json, n: nat, i: nat)
    requires j.Obj? && i < n <= |j.fields|
    ensures Size(j.fields[i].1) <= SizeFields(j, n)
  {
    if i < n - 1 {
      FieldWithinSize(j, n - 1, i);
    }
  }

  /** `key in obj` over own entries. */
  predicate HasKey(fs: Fields, k: string) {
    fs != [] && (fs[0].0 == k || HasKey(fs[1..], k))
  }

  /** A key is present exactly when some entry carries it. */
  lemma {:induction false} HasKeyIndex(fs: Fields, k: string)
    ensures HasKey(fs, k) <==> exists i :: 0 <= i < |fs| && fs[i].0 == k
  {
    if fs != [] {
      HasKeyIndex(fs[1..], k);
      if exists i :: 0 <= i < |fs| && fs[i].0 == k {
        var i :| 0 <= i < |fs| && fs[i].0 == k;
        if i > 0 { assert fs[1..][i - 1].0 == k; }
      }
      if HasKey(fs[1..], k) && fs[0].0 != k {
        var i :| 0 <= i < |fs[1..]| && fs[1..][i].0 == k;
        assert fs[i + 1].0 == k;
      }
    }
  }

  /** Appending one entry adds its key. */
  lemma {:induction false} HasKeyAppend(fs: Fields, p: (string, Json), k: string)
    ensures HasKey(fs + [p], k) <==> HasKey(fs, k) || p.0 == k
  {
    if fs != [] {
      assert (fs + [p])[1..] == fs[1..] + [p];
      HasKeyAppend(fs[1..], p, k);
    }
  }

  predicate DistinctKeys(fs: Fields) {
    forall i, j :: 0 <= i < j < |fs| ==> fs[i].0 != fs[j].0
  }

  /** `obj[key]` over own entries: the first entry with that key, `undefined` when there is none. */
  function Get(fs: Fields, k: string): (r: Json)
    ensures !HasKey(fs, k) ==> r == Undefined
  {
    if fs == [] then Undefined
    else if fs[0].0 == k then fs[0].1
    else Get(fs[1..], k)
  }

  /** With distinct keys, the entry at `i` is the one `Get` finds. */
  lemma {:induction false} GetAt(fs: Fields, i: nat)
    requires DistinctKeys(fs) && i < |fs|
    ensures Get(fs, fs[i].0) == fs[i].1
  {
    if i > 0 {
      assert fs[1..][i - 1] == fs[i];
      GetAt(fs[1..], i - 1);
    }
  }

  /**
   * `obj[key] = value`: an existing key keeps its place and takes the new
   * value; a new key is appended.
   */
  function Put(fs: Fields, k: string, v: Json): (r: Fields)
    ensures forall x :: HasKey(r, x) <==> HasKey(fs, x) || x == k
    ensures Get(r, k) == v
    ensures forall x :: x != k ==> Get(r, x) == Get(fs, x)
    ensures HasKey(fs, k) && Get(fs, k) == v ==> r == fs
  {
    if fs == [] then [(k, v)]
    else if fs[0].0 == k then [(k, v)] + fs[1..]
    else
      var r := [fs[0]] + Put(fs[1..], k, v);
      assert r[1..] == Put(fs[1..], k, v);
      r
  }

  /** The index keys `'0'`, `'1'`, ... of an array, each with its element. */
  function IndexFields(xs: seq<Json>): (fs: Fields)
    ensures |fs| == |xs|
    ensures forall i :: 0 <= i < |xs| ==> fs[i] == (NatToString(i), xs[i])
  {
    seq(|xs|, i requires 0 <= i < |xs| => (NatToString(i), xs[i]))
  }

  /** The index keys of a string, each with its one-character string. */
  function CharFields(s: string): (fs: Fields)
    ensures |fs| == |s|
    ensures forall i :: 0 <= i < |s| ==> fs[i] == (NatToString(i), Str([s[i]]))
  {
    seq(|s|, i requires 0 <= i < |s| => (NatToString(i), Str([s[i]])))
  }

  /**
   * The entries that `{ ...j }` copies and `for (const key in j)` visits: an
   * object's own entries, an array's or a string's indices, nothing for the
   * other values.
   */
  function Entries(j: Json): (e: Fields)
    ensures j.Obj? ==> e == j.fields
    ensures j.Arr? ==> e == IndexFields(j.items)
    ensures j.Str? ==> e == CharFields(j.s)
    ensures !j.Obj? && !j.Arr? && !j.Str? ==> e == []
    ensures forall i :: 0 <= i < |e| && IsObjectType(e[i].1) ==> Size(e[i].1) < Size(j)
  {
    match j
    case Obj(fs) =>
      assert forall i :: 0 <= i < |fs| ==> Size(fs[i].1) < Size(j) by {
        forall i | 0 <= i < |fs| ensures Size(fs[i].1) < Size(j) {
          FieldWithinSize(j, |fs|, i);
        }
      }
      fs
    case Arr(xs) =>
      assert forall i :: 0 <= i < |xs| ==> Size(xs[i]) < Size(j) by {
        forall i | 0 <= i < |xs| ensures Size(xs[i]) < Size(j) {
          ItemWithinSize(xs, i);
        }
      }
      IndexFields(xs)
    case Str(s) => CharFields(s)
    case _ => []
  }

  /** Objects have distinct keys, at every level. */
  predicate WellFormed(j: Json) {
    match j
    case Obj(fs) =>
      && DistinctKeys(fs)
      && forall i :: 0 <= i < |fs| ==> (assert fs[i] in fs; WellFormed(fs[i].1))
    case Arr(xs) =>
      forall i :: 0 <= i < |xs| ==> WellFormed(xs[i])
    case _ => true
  }

  /** The entries of a well-formed value have distinct keys and well-formed values. */
  lemma EntriesWellFormed(j: Json)
    requires WellFormed(j)
    ensures DistinctKeys(Entries(j))
    ensures forall i :: 0 <= i < |Entries(j)| ==> WellFormed(Entries(j)[i].1)
  {
    var e := Entries(j);
    if j.Arr? || j.Str? {
      forall a, b | 0 <= a < b < |e| ensures e[a].0 != e[b].0 {
        if e[a].0 == e[b].0 {
          NatToStringInjective(a, b);
        }
      }
    }
  }

  /** `target[key] || {}`. */
  function OrEmpty(j: Json): (r: Json)
    ensures Truthy(j) ==> r == j
    ensures !Truthy(j) ==> r == Obj([])
  {
    if Truthy(j) then j else Obj([])
  }

  /** `value && typeof value === 'object' && DEEP_OBJECT_KEYS.includes(key)`. */
  predicate MergesDeep(k: string, v: Json) {
    Truthy(v) && IsObjectType(v) && k in DeepObjectKeys
  }

  /** The value `deepMerge` stores under `k` for the source value `v`. */
  function MergedValue(target: Json, k: string, v: Json): Json
    decreases if MergesDeep(k, v) then Size(v) + 1 else 0, 0
  {
    if MergesDeep(k, v) then Merge(OrEmpty(Get(Entries(target), k)), v) else v
  }

  /** `deepMerge(target, source)`: the copy of the target with every source key written into it. */
  function Merge(target: Json, source: Json): Json
    decreases Size(source), 2
  {
    Obj(MergeFields(target, source, |Entries(source)|))
  }

  /** The copy after the first `n` source keys have been written. */
  function MergeFields(target: Json, source: Json, n: nat): Fields
    requires n <= |Entries(source)|
    decreases Size(source), 1, n
  {
    if n == 0 then Entries(target)
    else
      var e := Entries(source)[n - 1];
      Put(MergeFields(target, source, n - 1), e.0, MergedValue(target, e.0, e.1))
  }

  /** `deepMerge`: the `for...in` loop over the source, recursing for deep keys. */
  method DeepMerge(target: Json, source: Json) returns (r: Json)
    ensures r == Merge(target, source)
    decreases Size(source)
  {
    var result := Entries(target);
    var entries := Entries(source);
    for i := 0 to |entries|
      invariant result == MergeFields(target, source, i)
    {
      var key := entries[i].0;
      var value := entries[i].1;
      if Truthy(value) && IsObjectType(value) && key in DeepObjectKeys {
        var sub := DeepMerge(OrEmpty(Get(Entries(target), key)), value);
        MergeFieldsPut(target, source, i, sub);
        result := Put(result, key, sub);
      } else {
        MergeFieldsPut(target, source, i, value);
        result := Put(result, key, value);
      }
    }
    r := Obj(result);
  }

  /** The keys written so far are the target's keys and the first `n` source keys. */
  lemma {:induction false} MergeFieldsKeys(target: Json, source: Json, n: nat, x: string)
    requires n <= |Entries(source)|
    ensures HasKey(MergeFields(target, source, n), x) <==> HasKey(Entries(target), x) || HasKey(Entries(source)[..n], x)
    decreases n
  {
    if n == 0 {
      assert Entries(source)[..0] == [];
    } else {
      MergeFieldsKeys(target, source, n - 1, x);
      MergeFieldsKeyStep(target, source, n, x);
      KeysChainStep(MergeFields(target, source, n), MergeFields(target, source, n - 1), Entries(target), Entries(source), n, x);
    }
  }

  /** Key sets built one write at a time: if `prev` has the base keys and the first `n - 1` written keys, `cur` has the first `n`. */
  lemma KeysChainStep(cur: Fields, prev: Fields, base: Fields, es: Fields, n: nat, x: string)
    requires 0 < n <= |es|
    requires HasKey(prev, x) <==> HasKey(base, x) || HasKey(es[..n - 1], x)
    requires HasKey(cur, x) <==> HasKey(prev, x) || x == es[n - 1].0
    ensures HasKey(cur, x) <==> HasKey(base, x) || HasKey(es[..n], x)
  {
    PrefixKeyStep(es, n, x);
  }

  /** The first `n` entries carry the keys of the first `n - 1` and the `n`-th key. */
  lemma PrefixKeyStep(es: Fields, n: nat, x: string)
    requires 0 < n <= |es|
    ensures HasKey(es[..n], x) <==> HasKey(es[..n - 1], x) || es[n - 1].0 == x
  {
    assert es[..n] == es[..n - 1] + [es[n - 1]];
    HasKeyAppend(es[..n - 1], es[n - 1], x);
  }

  /** A key the first `n` source entries do not name still holds the target's value. */
  lemma {:induction false} MergeFieldsUntouched(target: Json, source: Json, n: nat, k: string)
    requires n <= |Entries(source)|
    requires !HasKey(Entries(source)[..n], k)
    ensures Get(MergeFields(target, source, n), k) == Get(Entries(target), k)
    decreases n
  {
    if n > 0 {
      PrefixKeyStep(Entries(source), n, k);
      MergeFieldsUntouched(target, source, n - 1, k);
      MergeFieldsGetStep(target, source, n, k);
    }
  }

  /** Writing the `n`-th source key puts its merged value into the copy. */
  lemma MergeFieldsStep(target: Json, source: Json, n: nat)
    requires 0 < n <= |Entries(source)|
    ensures var e := Entries(source)[n - 1];
      MergeFields(target, source, n) == Put(MergeFields(target, source, n - 1), e.0, MergedValue(target, e.0, e.1))
  {
  }

  /** The loop step of `deepMerge`: putting the merged value of entry `i` extends the copy by one key. */
  lemma MergeFieldsPut(target: Json, source: Json, i: nat, w: Json)
    requires i < |Entries(source)|
    requires var (k, v) := Entries(source)[i];
      w == if MergesDeep(k, v) then Merge(OrEmpty(Get(Entries(target), k)), v) else v
    ensures MergeFields(target, source, i + 1) == Put(MergeFields(target, source, i), Entries(source)[i].0, w)
  {
    MergeFieldsStep(target, source, i + 1);
  }

  /** Writing the `n`-th source key adds that key and no other. */
  lemma MergeFieldsKeyStep(target: Json, source: Json, n: nat, x: string)
    requires 0 < n <= |Entries(source)|
    ensures HasKey(MergeFields(target, source, n), x) <==>
      HasKey(MergeFields(target, source, n - 1), x) || x == Entries(source)[n - 1].0
  {
    MergeFieldsStep(target, source, n);
  }

  /** Writing the `n`-th source key stores its merged value and leaves every other key's value alone. */
  lemma MergeFieldsGetStep(target: Json, source: Json, n: nat, x: string)
    requires 0 < n <= |Entries(source)|
    ensures var e := Entries(source)[n - 1];
      Get(MergeFields(target, source, n), x) ==
        if x == e.0 then MergedValue(target, e.0, e.1) else Get(MergeFields(target, source, n - 1), x)
  {
    MergeFieldsStep(target, source, n);
  }

  /** With distinct source keys, the `i`-th source key holds its merged value once written. */
  lemma {:induction false} MergeFieldsWritten(target: Json, source: Json, n: nat, i: nat)
    requires n <= |Entries(source)| && i < n
    requires DistinctKeys(Entries(source))
    ensures var e := Entries(source)[i];
      Get(MergeFields(target, source, n), e.0) == MergedValue(target, e.0, e.1)
    decreases n
  {
    var es := Entries(source);
    MergeFieldsGetStep(target, source, n, es[i].0);
    if i < n - 1 {
      MergeFieldsWritten(target, source, n - 1, i);
      assert es[i].0 != es[n - 1].0;
    }
  }

  /** The result's keys are the target's keys together with the source's. */
  lemma MergeKeys(target: Json, source: Json)
    ensures Merge(target, source).Obj?
    ensures forall x :: HasKey(Merge(target, source).fields, x) <==> HasKey(Entries(target), x) || HasKey(Entries(source), x)
  {
    var es := Entries(source);
    assert es[..|es|] == es;
    forall x ensures HasKey(Merge(target, source).fields, x) <==> HasKey(Entries(target), x) || HasKey(es, x) {
      MergeFieldsKeys(target, source, |es|, x);
    }
  }

  /** A key only the target has keeps the target's value. */
  lemma TargetOnlyKept(target: Json, source: Json, k: string)
    requires !HasKey(Entries(source), k)
    ensures Get(Merge(target, source).fields, k) == Get(Entries(target), k)
  {
    var es := Entries(source);
    assert es[..|es|] == es;
    MergeFieldsUntouched(target, source, |es|, k);
  }

  /**
   * A source value that is falsy, not an object, or under a key outside
   * `DEEP_OBJECT_KEYS` replaces the target's value as it is, `undefined`,
   * `null` and `false` included; an object under a deep key is merged into
   * the target's value, or into `{}` when that is falsy.
   */
  lemma SourceKeyWritten(target: Json, source: Json, i: nat)
    requires WellFormed(source) && i < |Entries(source)|
    ensures var (k, v) := Entries(source)[i];
      && (!MergesDeep(k, v) ==> Get(Merge(target, source).fields, k) == v)
      && (MergesDeep(k, v) ==>
            Get(Merge(target, source).fields, k) == Merge(OrEmpty(Get(Entries(target), k)), v))
  {
    EntriesWellFormed(source);
    MergeFieldsWritten(target, source, |Entries(source)|, i);
  }

  /** Under a deep key, the target's sub-keys that the source value does not name survive. */
  lemma DeepSubKeysSurvive(target: Json, source: Json, i: nat, sub: string)
    requires WellFormed(source) && i < |Entries(source)|
    requires MergesDeep(Entries(source)[i].0, Entries(source)[i].1)
    requires !HasKey(Entries(Entries(source)[i].1), sub)
    ensures var k := Entries(source)[i].0;
      Get(Entries(Get(Merge(target, source).fields, k)), sub) == Get(Entries(OrEmpty(Get(Entries(target), k))), sub)
  {
    var (k, v) := Entries(source)[i];
    SourceKeyWritten(target, source, i);
    TargetOnlyKept(OrEmpty(Get(Entries(target), k)), v, sub);
  }

  /** A source without entries gives a copy of the target. */
  lemma EmptySource(target: Json, source: Json)
    requires Entries(source) == []
    ensures Merge(target, source) == Obj(Entries(target))
    ensures target.Obj? ==> Merge(target, source) == target
  {
  }

  /** Merging the same source a second time changes nothing. */
  lemma MergeIdempotent(target: Json, source: Json)
    requires WellFormed(source)
    ensures Merge(Merge(target, source), source) == Merge(target, source)
    decreases Size(source), |Entries(source)| + 2
  {
    SecondPassFixed(target, source, |Entries(source)|);
  }

  /** The second pass leaves the first pass's result as it is, entry after entry. */
  lemma {:induction false} SecondPassFixed(target: Json, source: Json, n: nat)
    requires WellFormed(source) && n <= |Entries(source)|
    ensures MergeFields(Merge(target, source), source, n) == Merge(target, source).fields
    decreases Size(source), n + 1
  {
    if n > 0 {
      SecondPassFixed(target, source, n - 1);
      SecondPassStep(target, source, n - 1);
      MergeFieldsStep(Merge(target, source), source, n);
    }
  }

  /** The value the second pass computes for a source entry is the one the first pass stored. */
  lemma SecondPassStep(target: Json, source: Json, i: nat)
    requires WellFormed(source) && i < |Entries(source)|
    ensures var m := Merge(target, source);
      var (k, v) := Entries(source)[i];
      HasKey(m.fields, k) && MergedValue(m, k, v) == Get(m.fields, k)
    decreases Size(source), 0
  {
    var es := Entries(source);
    var m := Merge(target, source);
    var (k, v) := es[i];
    assert HasKey(m.fields, k) by {
      MergeFieldsKeys(target, source, |es|, k);
      assert es[..|es|] == es;
      HasKeyIndex(es, k);
    }
    assert Get(m.fields, k) == MergedValue(target, k, v) by {
      EntriesWellFormed(source);
      MergeFieldsWritten(target, source, |es|, i);
    }
    if MergesDeep(k, v) {
      var x := OrEmpty(Get(Entries(target), k));
      assert Get(m.fields, k) == Merge(x, v);
      assert MergedValue(m, k, v) == Merge(Merge(x, v), v);
      assert WellFormed(v) by { EntriesWellFormed(source); }
      MergeIdempotent(x, v);
    }
  }

  /** `DEFAULT_THEME`. */
  const DefaultFeatures: Json := Obj([
    ("i18n", Bool(false)),
    ("search", Bool(true)),
    ("darkMode", Bool(true)),
    ("themeSwitch", Bool(true)),
    ("defaultTheme", Str("system"))])

  const DefaultTheme: Json := Obj([
    ("backgroundColor", Obj([("dark", Str("17,17,17")), ("light", Str("250,250,250"))])),
    ("color", Obj([
      ("hue", Obj([("dark", Num(204)), ("light", Num(212))])),
      ("lightness", Obj([("dark", Num(55)), ("light", Num(45))])),
      ("saturation", Num(100))])),
    ("darkMode", Bool(true)),
    ("direction", Str("ltr")),
    ("features", DefaultFeatures),
    ("nextThemes", Obj([("defaultTheme", Str("system")), ("storageKey", Str("theme"))]))])

  /** The provider's configuration: `deepMerge(DEFAULT_THEME, value || {})`, with `value` defaulting to `{}`. */
  function ProviderConfig(value: Json): Json {
    Merge(DefaultTheme, OrEmpty(value))
  }

  /** Without a value the provider hands out the defaults. */
  lemma ProviderDefaults(value: Json)
    requires !Truthy(value)
    ensures ProviderConfig(value) == DefaultTheme
  {
  }

  /**
   * A `features` object in the value is merged into the default features, so
   * a flag it leaves out keeps its default: `i18n` stays off unless the
   * value turns it on.
   */
  lemma ProviderFeatures(fields: Fields, i: nat)
    requires WellFormed(Obj(fields)) && i < |fields|
    requires fields[i].0 == "features" && fields[i].1.Obj?
    ensures Get(ProviderConfig(Obj(fields)).fields, "features") == Merge(DefaultFeatures, fields[i].1)
    ensures !HasKey(fields[i].1.fields, "i18n") ==>
      Get(Get(ProviderConfig(Obj(fields)).fields, "features").fields, "i18n") == Bool(false)
  {
    var v := fields[i].1;
    DefaultFeaturesStored();
    assert MergesDeep("features", v) by { assert DeepObjectKeys[0] == "features"; }
    assert ProviderConfig(Obj(fields)) == Merge(DefaultTheme, Obj(fields));
    SourceKeyWritten(DefaultTheme, Obj(fields), i);
    if !HasKey(v.fields, "i18n") {
      TargetOnlyKept(DefaultFeatures, v, "i18n");
      DefaultI18nOff();
    }
  }

  /** The defaults hold `DefaultFeatures` under `features`. */
  lemma DefaultFeaturesStored()
    ensures Get(DefaultTheme.fields, "features") == DefaultFeatures
  {
    GetAt(DefaultTheme.fields, 4);
  }

  /** The default features keep i18n off. */
  lemma DefaultI18nOff()
    ensures Get(DefaultFeatures.fields, "i18n") == Bool(false)
  {
  }
}
