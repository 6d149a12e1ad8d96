/** Translation helpers (src/i18n/index.ts): choosing the translation table
    for a language code, and looking a dotted key up in a nested table with
    the key itself as the fallback. */
module I18n {
  import opened Wrappers
  import opened Strings

  datatype Locale = ZhHans | En

  /** `getTranslation`: English for exactly `en`, Simplified Chinese for
      every other code. */
  function GetTranslation(lang: string): (l: Locale)
    ensures l == En <==> lang == "en"
    ensures lang != "en" ==> l == ZhHans
  {
    if lang == "en" then En else ZhHans
  }

  /** A JSON-like value as the lookup sees it. */
  datatype Value =
    | Undefined
    | Null
    | Str(s: string)
    | Num(n: int)
    | Bool(b: bool)
    | Obj(fields: map<string, Value>)

  /** JavaScript truthiness (numbers are integers here, so `NaN` is absent). */
  predicate Truthy(v: Value) {
    match v
    case Undefined => false
    case Null => false
    case Str(s) => s != ""
    case Num(n) => n != 0
    case Bool(b) => b
    case Obj(_) => true
  }

  /** `prev[curr]`: a missing field, or a field of something that is not an
      object, is `undefined`. */
  function Prop(v: Value, key: string): Value {
    if v.Obj? && key in v.fields then v.fields[key] else Undefined
  }

  /** The `reduce` over the segments: step into each field while the value
      so far is truthy, and become `null` as soon as it is not. A truthy
      result is always the value the strict lookup finds at the path. */
  function Walk(v: Value, segs: seq<string>): (r: Value)
    ensures Truthy(r) ==> Lookup(v, segs) == Some(r)
    decreases |segs|
  {
    if |segs| == 0 then v
    else Walk(if Truthy(v) then Prop(v, segs[0]) else Null, segs[1..])
  }

  /** `getNestedValue(obj, path)`: the value at the dotted path when it is
      truthy, otherwise the path string itself. */
  function GetNestedValue(obj: Value, path: string): (r: Value)
    ensures !Truthy(r) ==> r == Str(path) && path == ""
    ensures r != Walk(obj, Split(path, '.')) ==> r == Str(path)
  {
    var v := Walk(obj, Split(path, '.'));
    if Truthy(v) then v else Str(path)
  }

  /** Strict lookup of a path, independent of truthiness: every segment but
      the last must land on an object that has the next field. */
  function Lookup(v: Value, segs: seq<string>): Option<Value> {
    if |segs| == 0 then Some(v)
    else if v.Obj? && segs[0] in v.fields then Lookup(v.fields[segs[0]], segs[1..])
    else None
  }

  /** Once a step yields a falsy value, the walk stays `null` to the end. */
  lemma {:induction false} FalsyStaysNull(v: Value, segs: seq<string>)
    requires !Truthy(v) && |segs| > 0
    ensures Walk(v, segs) == Null
    decreases |segs|
  {
    if |segs| > 1 {
      FalsyStaysNull(Null, segs[1..]);
    }
  }

  /** The walk ends on a truthy value exactly when the strict lookup finds a
      truthy value, and then both agree. */
  lemma {:induction false} WalkIsLookup(v: Value, segs: seq<string>)
    ensures Truthy(Walk(v, segs)) <==> Lookup(v, segs).Some? && Truthy(Lookup(v, segs).value)
    ensures Truthy(Walk(v, segs)) ==> Walk(v, segs) == Lookup(v, segs).value
    decreases |segs|
  {
    if |segs| > 0 {
      if v.Obj? && segs[0] in v.fields {
        WalkIsLookup(v.fields[segs[0]], segs[1..]);
      } else if Truthy(v) {
        if |segs| > 1 {
          FalsyStaysNull(Undefined, segs[1..]);
        }
      } else {
        FalsyStaysNull(v, segs);
      }
    }
  }

  /** `getNestedValue` returns the value the path names when it exists and
      is truthy, and the path itself when it is missing, `null` or empty. */
  lemma GetNestedValueIsLookup(obj: Value, path: string)
    ensures var found := Lookup(obj, Split(path, '.'));
            GetNestedValue(obj, path) == if found.Some? && Truthy(found.value) then found.value else Str(path)
  {
    WalkIsLookup(obj, Split(path, '.'));
  }

  /** A two-level key `a.b` in a table holding `{a: {b: v}}` yields `v`
      when it is truthy and the key itself when it is not. */
  lemma TwoLevelKey(a: string, b: string, v: Value)
    requires '.' !in a && '.' !in b
    ensures var table := Obj(map[a := Obj(map[b := v])]);
            GetNestedValue(table, a + "." + b) == if Truthy(v) then v else Str(a + "." + b)
  {
    var table := Obj(map[a := Obj(map[b := v])]);
    SplitTwo(a, b);
    assert [a, b][1..] == [b];
    assert Lookup(table, [a, b]) == Lookup(Obj(map[b := v]), [b]);
    assert Lookup(Obj(map[b := v]), [b]) == Some(v);
    GetNestedValueIsLookup(table, a + "." + b);
  }

  lemma SplitTwo(a: string, b: string)
    requires '.' !in a && '.' !in b
    ensures Split(a + "." + b, '.') == [a, b]
  {
    SplitJoin([a, b], '.');
    assert Join([a, b], '.') == a + "." + b;
  }
}
