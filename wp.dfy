/**
 * The pure part of the WordPress content helpers (src/lib/wp.ts): normalising
 * the many shapes of an ACF custom-field payload into one record, walking
 * key paths through it, turning field values into display text, picking the
 * category terms out of an embedded `wp:term` list, and the query-string
 * defaults of the list endpoint.
 */
module Wp {
  import opened JsValues

  // ---------------------------------------------------------------------
  // normalizeAcfFields

  /** The key an element of an ACF array contributes under: its non-empty
      string `name`, else `key`, else `field`; none for a non-record. */
  function EntryKey(entry: JsValue): (r: Option<string>)
    ensures r.Some? ==> IsRecord(entry) && r.value != ""
  {
    if !IsRecord(entry) then None
    else if NonEmptyStringProp(entry, "name").Some? then NonEmptyStringProp(entry, "name")
    else if NonEmptyStringProp(entry, "key").Some? then NonEmptyStringProp(entry, "key")
    else NonEmptyStringProp(entry, "field")
  }

  /** The `[key, entry.value]` pairs the array elements produce, in order. */
  function AcfEntries(items: seq<JsValue>): (r: seq<(string, JsValue)>)
    ensures |r| <= |items|
  {
    if items == [] then []
    else
      var last := items[|items| - 1];
      AcfEntries(items[..|items| - 1])
        + (match EntryKey(last) case Some(k) => [(k, Get(last, "value"))] case None => [])
  }

  /** The `value` of the last array element whose key is `key`. */
  function LastKeyedValue(items: seq<JsValue>, key: string): (r: Option<JsValue>)
    ensures r.Some? <==> exists i :: 0 <= i < |items| && EntryKey(items[i]) == Some(key)
  {
    if items == [] then None
    else
      var init := items[..|items| - 1];
      var last := items[|items| - 1];
      assert forall i :: 0 <= i < |init| ==> init[i] == items[i];
      if EntryKey(last) == Some(key) then Some(Get(last, "value"))
      else LastKeyedValue(init, key)
  }

  /** normalizeAcfFields: a falsy payload and any non-array non-record give
      `{}`, a record is returned as it is, an array is turned into a record
      with `Object.fromEntries`. */
  function NormalizeAcfFields(acf: JsValue): (r: Fields)
    ensures !Truthy(acf) ==> r == []
    ensures IsRecord(acf) ==> r == acf.fields
    ensures !acf.Arr? && !IsRecord(acf) ==> r == []
    ensures acf.Arr? ==> UniqueKeys(r)
  {
    if !Truthy(acf) then []
    else if acf.Arr? then FromEntries(AcfEntries(acf.items))
    else if IsRecord(acf) then acf.fields
    else []
  }

  lemma {:induction false} AcfEntriesLast(items: seq<JsValue>, key: string)
    ensures LastValue(AcfEntries(items), key) == LastKeyedValue(items, key)
  {
    if items != [] {
      var init, last := items[..|items| - 1], items[|items| - 1];
      AcfEntriesLast(init, key);
      var head := AcfEntries(init);
      match EntryKey(last)
      case Some(k) =>
        var all := head + [(k, Get(last, "value"))];
        assert all[..|all| - 1] == head;
      case None =>
        assert AcfEntries(items) == head;
    }
  }

  /** For an array payload, every key reads back the `value` of the LAST
      element carrying that key (later duplicates overwrite earlier ones),
      and exactly the keys some element carries are present. */
  lemma NormalizeArrayLookup(items: seq<JsValue>, key: string)
    ensures Lookup(NormalizeAcfFields(Arr(items)), key) == LastKeyedValue(items, key)
    ensures HasField(NormalizeAcfFields(Arr(items)), key) <==>
              exists i :: 0 <= i < |items| && EntryKey(items[i]) == Some(key)
  {
    FromEntriesLookup(AcfEntries(items), key);
    AcfEntriesLast(items, key);
  }

  // ---------------------------------------------------------------------
  // readAcfPath

  /** One step of the `reduce`: `!acc` or a non-record gives `undefined`. */
  function Step(acc: JsValue, key: string): JsValue {
    if !Truthy(acc) then Undefined
    else if !IsRecord(acc) then Undefined
    else Get(acc, key)
  }

  /** `path.reduce(step, start)` */
  function Walk(start: JsValue, path: seq<string>): (r: JsValue)
    ensures path != [] && !IsRecord(start) ==> r == Undefined
    decreases |path|
  {
    if path == [] then start else Walk(Step(start, path[0]), path[1..])
  }

  /** readAcfPath: the empty path gives the record itself; each key descends
      into a record, anything else on the way yields `undefined`. */
  function ReadAcfPath(acf: Fields, path: seq<string>): (r: JsValue)
    ensures path == [] ==> r == Obj(acf)
    ensures |path| == 1 ==> r == Get(Obj(acf), path[0])
  {
    assert |path| == 1 ==> Walk(Obj(acf), path) == Walk(Step(Obj(acf), path[0]), []);
    Walk(Obj(acf), path)
  }

  /** Reading a path in two halves is reading it at once. */
  lemma {:induction false} WalkAppend(start: JsValue, p: seq<string>, q: seq<string>)
    ensures Walk(start, p + q) == Walk(Walk(start, p), q)
    decreases |p|
  {
    if p == [] {
      assert p + q == q;
    } else {
      assert (p + q)[0] == p[0] && (p + q)[1..] == p[1..] + q;
      WalkAppend(Step(start, p[0]), p[1..], q);
    }
  }

  // ---------------------------------------------------------------------
  // pickFirstString and stringifyAcfValue

  predicate HasText(v: JsValue) {
    v.Str? && Trim(v.s) != ""
  }

  /** No value before index `i` is a string with text. */
  predicate NoTextBefore(values: seq<JsValue>, i: int)
    requires i <= |values|
  {
    forall j :: 0 <= j < i ==> !HasText(values[j])
  }

  lemma NoTextStep(values: seq<JsValue>, i: int)
    requires 0 <= i < |values| && NoTextBefore(values, i) && !HasText(values[i])
    ensures NoTextBefore(values, i + 1)
  {
  }

  /** pickFirstString: the trimmed text of the first string that is not all
      white space; nothing when there is none. */
  method PickFirstString(values: seq<JsValue>) returns (r: Option<string>)
    ensures r.None? <==> NoTextBefore(values, |values|)
    ensures r.Some? ==> exists i :: 0 <= i < |values| && HasText(values[i])
                                    && r.value == Trim(values[i].s) && NoTextBefore(values, i)
  {
    var i := 0;
    while i < |values|
      invariant i <= |values|
      invariant NoTextBefore(values, i)
    {
      var value := values[i];
      if value.Str? {
        var trimmed := Trim(value.s);
        if trimmed != "" {
          assert HasText(values[i]);
          return Some(trimmed);
        }
      }
      assert !HasText(values[i]);
      NoTextStep(values, i);
      i := i + 1;
    }
    return None;
  }

  /** `.filter(Boolean)` on the stringified elements: drops null and "". */
  function Survivors(parts: seq<Option<string>>): (r: seq<string>)
    ensures forall i :: 0 <= i < |r| ==> r[i] != ""
    ensures r == [] <==> forall i :: 0 <= i < |parts| ==> parts[i].None? || parts[i].value == ""
    ensures forall t :: t in r <==> t != "" && Some(t) in parts
  {
    if parts == [] then []
    else
      var rest := Survivors(parts[1..]);
      assert forall i :: 1 <= i < |parts| ==> parts[i] == parts[1..][i - 1];
      match parts[0]
      case Some(s) => if s != "" then [s] + rest else rest
      case None => rest
  }

  /** The filter keeps order: filtering a concatenation is concatenating the
      filtered halves. */
  lemma {:induction false} SurvivorsAppend(p: seq<Option<string>>, q: seq<Option<string>>)
    ensures Survivors(p + q) == Survivors(p) + Survivors(q)
  {
    if p == [] {
      assert p + q == q;
    } else {
      assert (p + q)[1..] == p[1..] + q;
      SurvivorsAppend(p[1..], q);
    }
  }

  /** A single part survives exactly when it is text. */
  lemma SurvivorsOne(x: Option<string>)
    ensures Survivors([x]) == if x.Some? && x.value != "" then [x.value] else []
  {
    assert [x][1..] == [];
  }

  /** stringifyAcfValue. The result is never the empty string. */
  function StringifyAcfValue(v: JsValue, rt: Runtime): (r: Option<string>)
    requires rt.Valid()
    ensures r.Some? ==> r.value != ""
    ensures v.Str? ==> (r.None? <==> AllSpace(v.s)) && (r.Some? ==> r.value == Trim(v.s))
    ensures v.Bool? ==> r == Some(if v.b then "true" else "false")
    ensures v.Num? || v.Obj? ==> r.Some?
    ensures IsNullish(v) ==> r.None?
    decreases v
  {
    match v
    case Str(s) =>
      TrimAllSpace(s);
      var trimmed := Trim(s);
      if trimmed != "" then Some(trimmed) else None
    case Num(n) => Some(rt.numberToString(n))
    case Bool(b) => Some(if b then "true" else "false")
    case Arr(items) =>
      var flattened := Survivors(seq(|items|, i requires 0 <= i < |items| => StringifyAcfValue(items[i], rt)));
      if |flattened| > 0 then Some(Join(flattened, ", ")) else None
    case Obj(f) => Some(rt.jsonStringify(f))
    case Null => None
    case Undefined => None
  }

  /** An array stringifies to null exactly when none of its elements yields
      text; otherwise to the surviving texts joined by ", " in their order. */
  lemma StringifyArray(items: seq<JsValue>, rt: Runtime)
    requires rt.Valid()
    ensures var parts := seq(|items|, i requires 0 <= i < |items| => StringifyAcfValue(items[i], rt));
            StringifyAcfValue(Arr(items), rt)
              == if Survivors(parts) == [] then None else Some(Join(Survivors(parts), ", "))
    ensures StringifyAcfValue(Arr(items), rt).None? <==>
              forall i :: 0 <= i < |items| ==> StringifyAcfValue(items[i], rt).None?
  {
    var parts := seq(|items|, i requires 0 <= i < |items| => StringifyAcfValue(items[i], rt));
    forall i | 0 <= i < |items| ensures parts[i] == StringifyAcfValue(items[i], rt) {
    }
  }

  // ---------------------------------------------------------------------
  // resolveAcfText

  /** A selector is a single top-level key or a key path. */
  datatype Selector = Key(name: string) | Path(keys: seq<string>)

  function PathOf(sel: Selector): seq<string> {
    match sel
    case Key(name) => [name]
    case Path(keys) => keys
  }

  /** The text one selector yields. */
  function SelectorText(acf: Fields, sel: Selector, rt: Runtime): Option<string>
    requires rt.Valid()
  {
    StringifyAcfValue(ReadAcfPath(acf, PathOf(sel)), rt)
  }

  /** resolveAcfText: the text of the first selector, in list order, that
      yields non-empty text; null when none does. */
  method ResolveAcfText(acf: Fields, selectors: seq<Selector>, rt: Runtime) returns (r: Option<string>)
    requires rt.Valid()
    ensures r.None? <==> forall i :: 0 <= i < |selectors| ==> SelectorText(acf, selectors[i], rt).None?
    ensures r.Some? ==> r.value != ""
    ensures r.Some? ==> exists i :: (0 <= i < |selectors| && SelectorText(acf, selectors[i], rt) == r
                                     && forall j :: 0 <= j < i ==> SelectorText(acf, selectors[j], rt).None?)
  {
    var i := 0;
    while i < |selectors|
      invariant i <= |selectors|
      invariant forall j :: 0 <= j < i ==> SelectorText(acf, selectors[j], rt).None?
    {
      var path := PathOf(selectors[i]);
      var raw := ReadAcfPath(acf, path);
      var picked := PickFirstString([raw]);
      PickedIsStringified(raw, picked, rt);
      var text := if picked.Some? then picked else StringifyAcfValue(raw, rt);
      if text.Some? && text.value != "" {
        return text;
      }
      i := i + 1;
    }
    return None;
  }

  /** `pickFirstString([raw]) ?? stringifyAcfValue(raw)` is the same as
      `stringifyAcfValue(raw)`: a string with text stringifies to its trim. */
  lemma PickedIsStringified(raw: JsValue, picked: Option<string>, rt: Runtime)
    requires rt.Valid()
    requires picked.None? <==> NoTextBefore([raw], 1)
    requires picked.Some? ==> exists i :: 0 <= i < 1 && HasText([raw][i])
                                         && picked.value == Trim([raw][i].s) && NoTextBefore([raw], i)
    ensures (if picked.Some? then picked else StringifyAcfValue(raw, rt)) == StringifyAcfValue(raw, rt)
  {
    assert [raw][0] == raw;
  }

  const TitleSelectors: seq<Selector> := [
    Path(["works", "title"]), Path(["works", "work_title"]),
    Path(["work", "title"]), Path(["work", "work_title"]),
    Key("title"), Key("works_title"), Key("work_title"), Key("work_title_en")
  ]

  const NameSelectors: seq<Selector> := [
    Path(["works", "name"]), Path(["works", "work_name"]),
    Path(["work", "name"]), Path(["work", "work_name"]),
    Key("name"), Key("works_name"), Key("work_name")
  ]

  /** The ACF fields of a work: those passed in, or the normalised `acf` of the work. */
  function WorkAcfFields(work: JsValue, acfFields: Option<Fields>): Fields {
    match acfFields
    case Some(f) => f
    case None => NormalizeAcfFields(Get(work, "acf"))
  }

  /** getWorkAcfTitle: the nested `works`/`work` group title wins over the
      top-level keys; null when no candidate holds text. */
  method GetWorkAcfTitle(work: JsValue, acfFields: Option<Fields>, rt: Runtime) returns (r: Option<string>)
    requires rt.Valid()
    ensures var acf := WorkAcfFields(work, acfFields);
            (r.None? <==> forall i :: 0 <= i < |TitleSelectors| ==> SelectorText(acf, TitleSelectors[i], rt).None?)
            && (SelectorText(acf, TitleSelectors[0], rt).Some? ==> r == SelectorText(acf, TitleSelectors[0], rt))
            && (r.Some? ==> exists i :: 0 <= i < |TitleSelectors| && SelectorText(acf, TitleSelectors[i], rt) == r
                                        && forall j :: 0 <= j < i ==> SelectorText(acf, TitleSelectors[j], rt).None?)
  {
    r := ResolveAcfText(WorkAcfFields(work, acfFields), TitleSelectors, rt);
  }

  /** getWorkAcfName: as for the title, over the name candidates. */
  method GetWorkAcfName(work: JsValue, acfFields: Option<Fields>, rt: Runtime) returns (r: Option<string>)
    requires rt.Valid()
    ensures var acf := WorkAcfFields(work, acfFields);
            (r.None? <==> forall i :: 0 <= i < |NameSelectors| ==> SelectorText(acf, NameSelectors[i], rt).None?)
            && (SelectorText(acf, NameSelectors[0], rt).Some? ==> r == SelectorText(acf, NameSelectors[0], rt))
            && (r.Some? ==> exists i :: 0 <= i < |NameSelectors| && SelectorText(acf, NameSelectors[i], rt) == r
                                        && forall j :: 0 <= j < i ==> SelectorText(acf, NameSelectors[j], rt).None?)
  {
    r := ResolveAcfText(WorkAcfFields(work, acfFields), NameSelectors, rt);
  }

  // ---------------------------------------------------------------------
  // extractEmbeddedTerms

  datatype WorkCategory = WorkCategory(id: real, name: string, slug: JsValue)

  /** `terms.flat()`: one level of nested arrays is spliced in. */
  function Flat(items: seq<JsValue>): (r: seq<JsValue>)
    ensures forall t :: t in items && !t.Arr? ==> t in r
  {
    if items == [] then []
    else (match items[0] case Arr(xs) => xs case _ => [items[0]]) + Flat(items[1..])
  }

  /** The filter: a truthy term with numeric `id`, string `name` and a
      taxonomy that is falsy or "category". */
  predicate KeepTerm(t: JsValue) {
    Truthy(t) && Get(t, "id").Num? && Get(t, "name").Str?
    && (!Truthy(Get(t, "taxonomy")) || Get(t, "taxonomy") == Str("category"))
  }

  function Project(t: JsValue): WorkCategory
    requires KeepTerm(t)
  {
    WorkCategory(Get(t, "id").n, Get(t, "name").s, Get(t, "slug"))
  }

  /** `.filter(KeepTerm).map(Project)` */
  function Categories(ts: seq<JsValue>): (r: seq<WorkCategory>)
    ensures |r| <= |ts|
  {
    if ts == [] then []
    else if KeepTerm(ts[0]) then [Project(ts[0])] + Categories(ts[1..])
    else Categories(ts[1..])
  }

  /** Every category comes from a kept term, and every kept term gives one. */
  lemma {:induction false} CategoriesMembers(ts: seq<JsValue>)
    ensures forall c :: c in Categories(ts) ==> exists t :: t in ts && KeepTerm(t) && c == Project(t)
    ensures forall t :: t in ts && KeepTerm(t) ==> Project(t) in Categories(ts)
  {
    if ts != [] {
      CategoriesMembers(ts[1..]);
      assert forall t :: t in ts[1..] ==> t in ts;
      assert forall t :: t in ts ==> t == ts[0] || t in ts[1..];
    }
  }

  /** The filter keeps the order of the terms: it distributes over concatenation. */
  lemma {:induction false} CategoriesAppend(a: seq<JsValue>, b: seq<JsValue>)
    ensures Categories(a + b) == Categories(a) + Categories(b)
  {
    if a == [] {
      assert a + b == b;
    } else {
      assert (a + b)[0] == a[0] && (a + b)[1..] == a[1..] + b;
      CategoriesAppend(a[1..], b);
    }
  }

  /** Only plain objects can pass the filter, and only with the "category" taxonomy or none. */
  lemma KeptTermShape(t: JsValue)
    requires KeepTerm(t)
    ensures t.Obj?
    ensures Get(t, "taxonomy") == Str("category") || !Truthy(Get(t, "taxonomy"))
  {
  }

  /** extractEmbeddedTerms: `[]` unless `wp:term` is an array; otherwise the
      kept terms of the flattened list, projected to {id, name, slug}. */
  function ExtractEmbeddedTerms(embedded: JsValue): (r: seq<WorkCategory>)
    ensures !Get(embedded, "wp:term").Arr? ==> r == []
    ensures Get(embedded, "wp:term").Arr? ==>
              var flat := Flat(Get(embedded, "wp:term").items);
              (forall c :: c in r ==> exists t :: t in flat && KeepTerm(t) && c == Project(t))
              && (forall t :: t in flat && KeepTerm(t) ==> Project(t) in r)
  {
    var terms := Get(embedded, "wp:term");
    if !terms.Arr? then []
    else
      CategoriesMembers(Flat(terms.items));
      Categories(Flat(terms.items))
  }

  // ---------------------------------------------------------------------
  // fetchWpList: the query string

  /** A caller-supplied query parameter value. */
  datatype ParamValue = PStr(s: string) | PNum(n: real) | PBool(b: bool)

  /** `String(v)` */
  function ParamString(p: ParamValue, rt: Runtime): string {
    match p
    case PStr(s) => s
    case PNum(n) => rt.numberToString(n)
    case PBool(b) => if b then "true" else "false"
  }

  type Pairs = seq<(string, string)>

  /** URLSearchParams.get: the value of the first pair with that name. */
  function GetParam(l: Pairs, name: string): Option<string> {
    if l == [] then None
    else if l[0].0 == name then Some(l[0].1)
    else GetParam(l[1..], name)
  }

  predicate UniqueNames(l: Pairs) {
    forall i, j :: 0 <= i < j < |l| ==> l[i].0 != l[j].0
  }

  function RemoveName(l: Pairs, name: string): (r: Pairs)
    ensures GetParam(r, name).None?
    ensures forall other :: other != name ==> GetParam(r, other) == GetParam(l, other)
    ensures forall p :: p in r ==> p in l && p.0 != name
    ensures UniqueNames(l) ==> UniqueNames(r)
  {
    if l == [] then []
    else if l[0].0 == name then RemoveName(l[1..], name)
    else
      var r := [l[0]] + RemoveName(l[1..], name);
      assert UniqueNames(l) ==> UniqueNames(r) by {
        if UniqueNames(l) {
          assert forall j :: 1 <= j < |l| ==> l[j] == l[1..][j - 1];
          assert UniqueNames(l[1..]);
          forall j | 1 <= j < |r| ensures r[0].0 != r[j].0 {
            assert r[j] in RemoveName(l[1..], name);
          }
        }
      }
      r
  }

  /** URLSearchParams.set: the first pair with that name takes the value and
      the others are removed; with no such pair one is appended. */
  function SetParam(l: Pairs, name: string, value: string): (r: Pairs)
    ensures GetParam(r, name) == Some(value)
    ensures forall other :: other != name ==> GetParam(r, other) == GetParam(l, other)
    ensures UniqueNames(l) ==> UniqueNames(r)
  {
    if l == [] then [(name, value)]
    else if l[0].0 == name then
      var rest := RemoveName(l[1..], name);
      var r := [(name, value)] + rest;
      assert UniqueNames(l) ==> UniqueNames(r) by {
        if UniqueNames(l) {
          forall j | 1 <= j < |r| ensures r[0].0 != r[j].0 {
            assert r[j] in rest;
          }
          assert forall j :: 1 <= j < |l| ==> l[j] == l[1..][j - 1];
        }
      }
      r
    else
      var rest := SetParam(l[1..], name, value);
      var r := [l[0]] + rest;
      assert UniqueNames(l) ==> UniqueNames(r) by {
        if UniqueNames(l) {
          assert forall j :: 1 <= j < |l| ==> l[j] == l[1..][j - 1];
          forall j | 1 <= j < |r| ensures r[0].0 != r[j].0 {
            if r[j].0 == l[0].0 {
              assert GetParam(rest, l[0].0) == GetParam(l[1..], l[0].0);
              GetParamFound(rest, j - 1);
              GetParamAbsent(l[1..], l[0].0);
            }
          }
        }
      }
      r
  }

  lemma {:induction false} GetParamFound(l: Pairs, i: nat)
    requires i < |l|
    ensures GetParam(l, l[i].0).Some?
  {
    if i > 0 && l[0].0 != l[i].0 {
      GetParamFound(l[1..], i - 1);
    }
  }

  lemma {:induction false} GetParamAbsent(l: Pairs, name: string)
    requires forall j :: 0 <= j < |l| ==> l[j].0 != name
    ensures GetParam(l, name).None?
  {
    if l != [] {
      GetParamAbsent(l[1..], name);
    }
  }

  /** The mutable URLSearchParams object that fetchWpList fills. */
  class SearchParams {
    var list: Pairs

    constructor ()
      ensures list == []
    {
      list := [];
    }

    /** `qs.has(name)` */
    function Has(name: string): bool
      reads this
    {
      GetParam(list, name).Some?
    }

    /** `qs.set(name, value)` */
    method Set(name: string, value: string)
      modifies this
      ensures list == SetParam(old(list), name, value)
    {
      list := SetParam(list, name, value);
    }
  }

  /** The value the caller gave for `name`: that of its last occurrence. */
  function LastParam(params: seq<(string, ParamValue)>, name: string, rt: Runtime): Option<string> {
    if params == [] then None
    else if params[|params| - 1].0 == name then Some(ParamString(params[|params| - 1].1, rt))
    else LastParam(params[..|params| - 1], name, rt)
  }

  /** What the query holds for `name`: the caller's value, else the defaults
      `per_page=100` and `page=1`. */
  function QueryValue(params: seq<(string, ParamValue)>, name: string, rt: Runtime): Option<string> {
    if LastParam(params, name, rt).Some? then LastParam(params, name, rt)
    else if name == "per_page" then Some("100")
    else if name == "page" then Some("1")
    else None
  }

  /** The query-string building of fetchWpList: every caller parameter is
      kept, `per_page` and `page` are defaulted only when absent, and no name
      occurs twice. */
  method ListQuery(params: seq<(string, ParamValue)>, rt: Runtime) returns (query: Pairs)
    ensures forall name :: GetParam(query, name) == QueryValue(params, name, rt)
    ensures UniqueNames(query)
  {
    var qs := new SearchParams();
    for i := 0 to |params|
      invariant forall name :: GetParam(qs.list, name) == LastParam(params[..i], name, rt)
      invariant UniqueNames(qs.list)
    {
      assert params[..i + 1][..i] == params[..i];
      qs.Set(params[i].0, ParamString(params[i].1, rt));
    }
    assert params[..|params|] == params;
    if !qs.Has("per_page") {
      qs.Set("per_page", "100");
    }
    if !qs.Has("page") {
      qs.Set("page", "1");
    }
    query := qs.list;
  }
}
