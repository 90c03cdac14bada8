/**
 * The loosely-typed JSON/JavaScript values that the content-management
 * helpers operate on, together with the handful of JavaScript semantics
 * they depend on: truthiness, `typeof … === "object"` record tests,
 * property reads and writes on plain objects, `Object.fromEntries`,
 * `String.prototype.trim` and `String(value)`.
 */
module JsValues {

  datatype Option<+T> = None | Some(value: T)

  /** A JavaScript value as it arrives from a parsed JSON payload.
      `Obj` is an ordered association list of own properties. */
  datatype JsValue =
    | Undefined
    | Null
    | Bool(b: bool)
    | Num(n: real)
    | Str(s: string)
    | Arr(items: seq<JsValue>)
    | Obj(fields: seq<(string, JsValue)>)

  type Fields = seq<(string, JsValue)>

  /** JavaScript truthiness: `!!value`. */
  predicate Truthy(v: JsValue) {
    match v
    case Undefined => false
    case Null => false
    case Bool(b) => b
    case Num(n) => n != 0.0
    case Str(s) => s != ""
    case Arr(_) => true
    case Obj(_) => true
  }

  /** `typeof v === "object" && v !== null && !Array.isArray(v)` */
  predicate IsRecord(v: JsValue) {
    v.Obj?
  }

  /** `v === null || v === undefined`, the values `??` skips. */
  predicate IsNullish(v: JsValue) {
    v.Null? || v.Undefined?
  }

  /** `a ?? b` */
  function Coalesce(a: JsValue, b: JsValue): (r: JsValue)
    ensures !IsNullish(a) ==> r == a
    ensures IsNullish(a) ==> r == b
  {
    if IsNullish(a) then b else a
  }

  // ---------------------------------------------------------------------
  // Own properties of plain objects

  function KeysOf(f: Fields): (ks: seq<string>)
    ensures |ks| == |f|
    ensures forall i :: 0 <= i < |f| ==> ks[i] == f[i].0
  {
    if f == [] then [] else [f[0].0] + KeysOf(f[1..])
  }

  /** No property name occurs twice, as in every real JavaScript object. */
  predicate UniqueKeys<T>(f: seq<(string, T)>) {
    forall i, j :: 0 <= i < j < |f| ==> f[i].0 != f[j].0
  }

  predicate HasField(f: Fields, key: string) {
    key in KeysOf(f)
  }

  /** The value of the first property named `key`. */
  function Lookup(f: Fields, key: string): (r: Option<JsValue>)
    ensures r.Some? <==> HasField(f, key)
  {
    if f == [] then None
    else if f[0].0 == key then Some(f[0].1)
    else
      assert KeysOf(f) == [f[0].0] + KeysOf(f[1..]);
      Lookup(f[1..], key)
  }

  /** The property read `v[key]`: own properties of a plain object, `undefined` otherwise. */
  function Get(v: JsValue, key: string): (r: JsValue)
    ensures !v.Obj? ==> r == Undefined
    ensures v.Obj? && !HasField(v.fields, key) ==> r == Undefined
  {
    match v
    case Obj(f) => (match Lookup(f, key) case Some(x) => x case None => Undefined)
    case _ => Undefined
  }

  /** `key in v` for a plain object (a property that holds `undefined` still counts). */
  predicate HasKey(v: JsValue, key: string) {
    v.Obj? && HasField(v.fields, key)
  }

  /** The property write `obj[key] = value`: an existing property keeps its
      position and takes the new value, a new one is appended. */
  function Assign(f: Fields, key: string, value: JsValue): (r: Fields)
    ensures KeysOf(r) == if HasField(f, key) then KeysOf(f) else KeysOf(f) + [key]
  {
    if f == [] then [(key, value)]
    else if f[0].0 == key then [(key, value)] + f[1..]
    else
      assert KeysOf(f) == [f[0].0] + KeysOf(f[1..]);
      var r := [f[0]] + Assign(f[1..], key, value);
      assert KeysOf(r) == [f[0].0] + KeysOf(Assign(f[1..], key, value));
      r
  }

  lemma {:induction false} AssignLookup(f: Fields, key: string, value: JsValue, other: string)
    ensures Lookup(Assign(f, key, value), key) == Some(value)
    ensures other != key ==> Lookup(Assign(f, key, value), other) == Lookup(f, other)
  {
    if f == [] || f[0].0 == key {
      assert Assign(f, key, value)[0] == (key, value);
      if other != key && f != [] {
        assert Assign(f, key, value)[1..] == f[1..];
      }
    } else {
      var r := Assign(f, key, value);
      assert r == [f[0]] + Assign(f[1..], key, value);
      assert r[0] == f[0] && r[1..] == Assign(f[1..], key, value);
      AssignLookup(f[1..], key, value, other);
    }
  }

  lemma {:induction false} AssignUnique(f: Fields, key: string, value: JsValue)
    requires UniqueKeys(f)
    ensures UniqueKeys(Assign(f, key, value))
  {
    var r := Assign(f, key, value);
    var ks, rs := KeysOf(f), KeysOf(r);
    forall i, j | 0 <= i < j < |r| ensures r[i].0 != r[j].0 {
      assert rs[i] == r[i].0 && rs[j] == r[j].0;
      if HasField(f, key) {
        assert rs[i] == ks[i] && rs[j] == ks[j];
      } else if j < |f| {
        assert rs[i] == ks[i] && rs[j] == ks[j];
      } else {
        assert rs[j] == key && rs[i] == ks[i] == f[i].0;
      }
    }
  }

  /** `Object.fromEntries(entries)`: a left-to-right sequence of property writes. */
  function FromEntries(entries: seq<(string, JsValue)>): (r: Fields)
    ensures UniqueKeys(r)
  {
    if entries == [] then []
    else
      var init := FromEntries(entries[..|entries| - 1]);
      AssignUnique(init, entries[|entries| - 1].0, entries[|entries| - 1].1);
      Assign(init, entries[|entries| - 1].0, entries[|entries| - 1].1)
  }

  /** Building from one more entry assigns that entry to the record built
    * from the ones before it. */
  lemma FromEntriesSnoc(entries: seq<(string, JsValue)>, i: nat)
    requires i < |entries|
    ensures FromEntries(entries[..i + 1]) == Assign(FromEntries(entries[..i]), entries[i].0, entries[i].1)
  {
    assert entries[..i + 1][..i] == entries[..i];
  }

  /** The value paired with the LAST occurrence of `key` among the entries. */
  function LastValue(entries: seq<(string, JsValue)>, key: string): (r: Option<JsValue>)
    ensures r.Some? <==> exists i :: 0 <= i < |entries| && entries[i].0 == key
  {
    if entries == [] then None
    else
      var init := entries[..|entries| - 1];
      assert forall i :: 0 <= i < |init| ==> init[i] == entries[i];
      if entries[|entries| - 1].0 == key then Some(entries[|entries| - 1].1)
      else LastValue(init, key)
  }

  /** With unique keys, the last occurrence of a key is its only one. */
  lemma {:induction false} LastValueUnique(entries: seq<(string, JsValue)>, i: nat)
    requires i < |entries| && UniqueKeys(entries)
    ensures LastValue(entries, entries[i].0) == Some(entries[i].1)
  {
    var n := |entries| - 1;
    if i < n {
      var init := entries[..n];
      assert init[i] == entries[i];
      assert UniqueKeys(init);
      LastValueUnique(init, i);
    }
  }

  /** `Object.fromEntries` is last-wins: every key reads back the value of its last entry. */
  lemma {:induction false} FromEntriesLookup(entries: seq<(string, JsValue)>, key: string)
    ensures Lookup(FromEntries(entries), key) == LastValue(entries, key)
  {
    if entries != [] {
      var last := entries[|entries| - 1];
      FromEntriesLookup(entries[..|entries| - 1], key);
      AssignLookup(FromEntries(entries[..|entries| - 1]), last.0, last.1, key);
    }
  }

  /** `typeof v[key] === "string" && v[key]`, when that is truthy. */
  function NonEmptyStringProp(v: JsValue, key: string): (r: Option<string>)
    ensures r.Some? <==> Get(v, key).Str? && Get(v, key).s != ""
    ensures r.Some? ==> r.value == Get(v, key).s
  {
    match Get(v, key)
    case Str(s) => if s != "" then Some(s) else None
    case _ => None
  }

  // ---------------------------------------------------------------------
  // Strings

  predicate StartsWith(s: string, prefix: string) {
    |prefix| <= |s| && s[..|prefix|] == prefix
  }

  /** The characters `String.prototype.trim` removes: ECMAScript WhiteSpace
      (TAB, VT, FF, SP, NBSP, ZWNBSP and the Zs category) and LineTerminator. */
  predicate IsJsSpace(c: char) {
    var n := c as int;
    n == 0x09 || n == 0x0A || n == 0x0B || n == 0x0C || n == 0x0D || n == 0x20
    || n == 0xA0 || n == 0x1680 || (0x2000 <= n <= 0x200A) || n == 0x2028 || n == 0x2029
    || n == 0x202F || n == 0x205F || n == 0x3000 || n == 0xFEFF
  }

  predicate AllSpace(s: string) {
    forall k :: 0 <= k < |s| ==> IsJsSpace(s[k])
  }

  lemma AllSpaceCons(c: char, t: string)
    requires IsJsSpace(c) && AllSpace(t)
    ensures AllSpace([c] + t)
  {
  }

  lemma AllSpaceSnoc(t: string, c: char)
    requires AllSpace(t) && IsJsSpace(c)
    ensures AllSpace(t + [c])
  {
  }

  function TrimStart(s: string): (r: string)
    ensures |r| <= |s| && r == s[|s| - |r|..]
    ensures AllSpace(s[..|s| - |r|])
    ensures r != [] ==> !IsJsSpace(r[0])
  {
    if s != [] && IsJsSpace(s[0]) then
      var t := s[1..];
      var r := TrimStart(t);
      assert s[..|s| - |r|] == [s[0]] + t[..|t| - |r|];
      AllSpaceCons(s[0], t[..|t| - |r|]);
      assert t[|t| - |r|..] == s[|s| - |r|..];
      r
    else s
  }

  function TrimEnd(s: string): (r: string)
    ensures |r| <= |s| && r == s[..|r|]
    ensures AllSpace(s[|r|..])
    ensures r != [] ==> !IsJsSpace(r[|r| - 1])
  {
    if s != [] && IsJsSpace(s[|s| - 1]) then
      var t := s[..|s| - 1];
      var r := TrimEnd(t);
      assert s[|r|..] == t[|r|..] + [s[|s| - 1]];
      AllSpaceSnoc(t[|r|..], s[|s| - 1]);
      assert t[..|r|] == s[..|r|];
      r
    else s
  }

  /** `s.trim()`: the infix of `s` left after dropping leading and trailing
      white space (TrimAllSpace: it is empty exactly when `s` is all white space). */
  function Trim(s: string): (r: string)
    ensures |r| <= |s|
    ensures r != "" ==> !IsJsSpace(r[0]) && !IsJsSpace(r[|r| - 1])
    ensures SpaceFramed(s, r)
  {
    var a := TrimStart(s);
    var r := TrimEnd(a);
    TrimInfix(s, a, r);
    r
  }

  /** `r` is an infix of `s` with only white space before and after it. */
  predicate SpaceFramed(s: string, r: string) {
    exists k :: 0 <= k <= |s| - |r| && r == s[k..k + |r|] && AllSpace(s[..k]) && AllSpace(s[k + |r|..])
  }

  /** Dropping leading white space, then trailing white space, leaves an
      infix framed by white space. */
  lemma TrimInfix(s: string, a: string, r: string)
    requires |a| <= |s| && a == s[|s| - |a|..] && AllSpace(s[..|s| - |a|])
    requires |r| <= |a| && r == a[..|r|] && AllSpace(a[|r|..])
    ensures SpaceFramed(s, r)
  {
    var k := |s| - |a|;
    assert s[k + |r|..] == a[|r|..];
    assert r == s[k..k + |r|];
  }

  lemma TrimAllSpace(s: string)
    ensures Trim(s) == "" <==> AllSpace(s)
  {
    var a := TrimStart(s);
    var r := TrimEnd(a);
    var i := |s| - |a|;
    assert a == s[i..];
    if r == "" {
      forall k | 0 <= k < |s| ensures IsJsSpace(s[k]) {
        if k < i {
          assert s[..i][k] == s[k];
        } else {
          assert a[|r|..][k - i] == s[k];
        }
      }
    } else {
      assert s[i] == r[0];
    }
  }

  lemma TrimIdempotent(s: string)
    ensures Trim(Trim(s)) == Trim(s)
  {
    var t := Trim(s);
    if t != "" {
      assert TrimStart(t) == t;
      assert TrimEnd(t) == t;
    }
  }

  /** `parts.join(sep)` */
  function Join(parts: seq<string>, sep: string): (r: string)
    ensures |parts| == 1 ==> r == parts[0]
    ensures (exists i :: 0 <= i < |parts| && parts[i] != "") ==> r != ""
  {
    if parts == [] then ""
    else if |parts| == 1 then parts[0]
    else
      var rest := Join(parts[1..], sep);
      assert (exists i :: 0 <= i < |parts| && parts[i] != "") ==> parts[0] + sep + rest != "" by {
        if exists i :: 0 <= i < |parts| && parts[i] != "" {
          var i :| 0 <= i < |parts| && parts[i] != "";
          if i > 0 { assert parts[1..][i - 1] != ""; }
        }
      }
      parts[0] + sep + rest
  }

  // ---------------------------------------------------------------------
  // Runtime built-ins that the model keeps opaque

  /** `String(number)` and `JSON.stringify(record)` are engine built-ins; the
      model takes them as parameters and relies only on their results never
      being empty (a number prints at least one digit, a record at least `{}`). */
  datatype Runtime = Runtime(numberToString: real -> string, jsonStringify: Fields -> string) {
    ghost predicate Valid() {
      (forall n :: numberToString(n) != "") && (forall f :: jsonStringify(f) != "")
    }
  }

  /** `String(v)` */
  function ToJsString(v: JsValue, rt: Runtime): string
    decreases v
  {
    match v
    case Undefined => "undefined"
    case Null => "null"
    case Bool(b) => if b then "true" else "false"
    case Num(n) => rt.numberToString(n)
    case Str(s) => s
    case Arr(items) =>
      // Array.prototype.toString joins with "," and prints null/undefined as ""
      Join(seq(|items|, i requires 0 <= i < |items| =>
        if IsNullish(items[i]) then "" else ToJsString(items[i], rt)), ",")
    case Obj(_) => "[object Object]"
  }
}
