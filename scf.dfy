// Reading Smart Custom Fields (ACF) data through a field-group descriptor,
// and resolving an image field to a media record.

module Scf {
  import opened JsValues

  // ---------------------------------------------------------------------
  // Descriptors
  // ---------------------------------------------------------------------

  /** One entry of a descriptor: a plain field key, or a group whose ACF key is
    * `groupKey` and whose children map an alias to a field key inside it. */
  datatype FieldDef =
    | Plain(key: string)
    | Group(groupKey: string, children: seq<(string, string)>)

  /** A field group: its title and its fields, alias first, in entry order. */
  datatype Descriptor = Descriptor(title: string, fields: seq<(string, FieldDef)>)

  // ---------------------------------------------------------------------
  // getScfData
  // ---------------------------------------------------------------------

  /** `node?.acf ?? {}`: the node's ACF record, or an empty record. */
  function AcfOf(node: JsValue): (r: JsValue)
    ensures IsNullish(node) ==> r == Obj([])
    ensures IsNullish(Get(node, "acf")) ==> r == Obj([])
    ensures !IsNullish(Get(node, "acf")) ==> r == Get(node, "acf")
    ensures !IsNullish(r)
  {
    Coalesce(Get(node, "acf"), Obj([]))
  }

  /** `readField`: a record holding `formatted_value` yields that value (even
    * when it is undefined); anything else is kept, with null for nullish. */
  function ReadField(value: JsValue): (r: JsValue)
    ensures HasKey(value, "formatted_value") ==> r == Get(value, "formatted_value")
    ensures !HasKey(value, "formatted_value") && IsNullish(value) ==> r == Null
    ensures !HasKey(value, "formatted_value") && !IsNullish(value) ==> r == value
    ensures r.Undefined? ==> HasKey(value, "formatted_value")
  {
    if value.Obj? && HasField(value.fields, "formatted_value") then Get(value, "formatted_value")
    else Coalesce(value, Null)
  }

  /** `(typeof groupRaw === "object" && groupRaw) || {}`. */
  function GroupSource(groupRaw: JsValue): (r: JsValue)
    ensures groupRaw.Obj? || groupRaw.Arr? ==> r == groupRaw
    ensures !(groupRaw.Obj? || groupRaw.Arr?) ==> r == Obj([])
  {
    if groupRaw.Obj? || groupRaw.Arr? then groupRaw else Obj([])
  }

  /** The (alias, value) assignments the inner loop makes for a group. */
  function GroupEntries(groupAcf: JsValue, children: seq<(string, string)>): (r: seq<(string, JsValue)>)
    ensures |r| == |children|
    ensures forall j :: 0 <= j < |r| ==> r[j] == (children[j].0, ReadField(Get(groupAcf, children[j].1)))
  {
    seq(|children|, j requires 0 <= j < |children| => (children[j].0, ReadField(Get(groupAcf, children[j].1))))
  }

  /** The value one descriptor entry contributes to the result. */
  function FieldValue(acf: JsValue, def: FieldDef): (r: JsValue)
    ensures def.Plain? ==> r == ReadField(Get(acf, def.key))
    ensures def.Group? ==> r.Obj? && UniqueKeys(r.fields)
    ensures def.Group? ==> r == Obj(FromEntries(GroupEntries(GroupSource(Get(acf, def.groupKey)), def.children)))
  {
    match def
    case Plain(key) => ReadField(Get(acf, key))
    case Group(groupKey, children) =>
      Obj(FromEntries(GroupEntries(GroupSource(Get(acf, groupKey)), children)))
  }

  /** The (alias, value) assignments the outer loop makes. */
  function ScfEntries(acf: JsValue, fields: seq<(string, FieldDef)>): (r: seq<(string, JsValue)>)
    ensures |r| == |fields|
    ensures forall i :: 0 <= i < |r| ==> r[i] == (fields[i].0, FieldValue(acf, fields[i].1))
  {
    seq(|fields|, i requires 0 <= i < |fields| => (fields[i].0, FieldValue(acf, fields[i].1)))
  }

  /** `getScfData`: one property per descriptor alias, holding the field read
    * from the node's ACF record; a group alias holds a record of its children. */
  method GetScfData(node: JsValue, descriptor: Descriptor) returns (result: Fields)
    ensures result == FromEntries(ScfEntries(AcfOf(node), descriptor.fields))
    ensures UniqueKeys(result)
  {
    var acf := AcfOf(node);
    var fields := descriptor.fields;
    ghost var entries := ScfEntries(acf, fields);
    result := [];
    var i := 0;
    while i < |fields|
      invariant 0 <= i <= |fields|
      invariant result == FromEntries(entries[..i])
    {
      var (alias, def) := fields[i];
      var value: JsValue;
      match def {
        case Plain(key) =>
          value := ReadField(Get(acf, key));
        case Group(groupKey, children) =>
          var groupObj := ReadGroup(GroupSource(Get(acf, groupKey)), children);
          value := Obj(groupObj);
      }
      FromEntriesSnoc(entries, i);
      result := Assign(result, alias, value);
      i := i + 1;
    }
    assert entries[..i] == entries;
  }

  /** The inner loop of `getScfData` for a group: one property per child
    * alias, read from the group's own record. */
  method ReadGroup(groupAcf: JsValue, children: seq<(string, string)>) returns (groupObj: Fields)
    ensures groupObj == FromEntries(GroupEntries(groupAcf, children))
  {
    ghost var entries := GroupEntries(groupAcf, children);
    groupObj := [];
    var j := 0;
    while j < |children|
      invariant 0 <= j <= |children|
      invariant groupObj == FromEntries(entries[..j])
    {
      var (childAlias, childKey) := children[j];
      FromEntriesSnoc(entries, j);
      groupObj := Assign(groupObj, childAlias, ReadField(Get(groupAcf, childKey)));
      j := j + 1;
    }
    assert entries[..j] == entries;
  }

  /** The result has a property for exactly the descriptor's aliases. */
  lemma ScfAliases(acf: JsValue, fields: seq<(string, FieldDef)>, alias: string)
    ensures HasField(FromEntries(ScfEntries(acf, fields)), alias) <==>
      exists i :: 0 <= i < |fields| && fields[i].0 == alias
  {
    var es := ScfEntries(acf, fields);
    FromEntriesLookup(es, alias);
    if exists i :: 0 <= i < |fields| && fields[i].0 == alias {
      var i :| 0 <= i < |fields| && fields[i].0 == alias;
      assert es[i].0 == alias;
    }
  }

  /** A group's record has a property for exactly its child aliases. */
  lemma GroupAliases(groupAcf: JsValue, children: seq<(string, string)>, childAlias: string)
    ensures HasField(FromEntries(GroupEntries(groupAcf, children)), childAlias) <==>
      exists j :: 0 <= j < |children| && children[j].0 == childAlias
  {
    var es := GroupEntries(groupAcf, children);
    FromEntriesLookup(es, childAlias);
    if exists j :: 0 <= j < |children| && children[j].0 == childAlias {
      var j :| 0 <= j < |children| && children[j].0 == childAlias;
      assert es[j].0 == childAlias;
    }
  }

  /** With distinct aliases (as `Object.entries` of a record guarantees), every
    * alias reads back the value of its own definition. */
  lemma ScfLookup(acf: JsValue, fields: seq<(string, FieldDef)>, i: nat)
    requires i < |fields| && UniqueKeys(fields)
    ensures Lookup(FromEntries(ScfEntries(acf, fields)), fields[i].0) == Some(FieldValue(acf, fields[i].1))
  {
    var es := ScfEntries(acf, fields);
    assert UniqueKeys(es) by {
      forall a, b | 0 <= a < b < |es| ensures es[a].0 != es[b].0 {
        assert es[a].0 == fields[a].0 && es[b].0 == fields[b].0;
      }
    }
    LastValueUnique(es, i);
    FromEntriesLookup(es, fields[i].0);
  }

  /** Every child of a group reads as null when the group's raw value is not
    * an object (a missing group, a string, a number). */
  lemma GroupMissingAllNull(groupRaw: JsValue, children: seq<(string, string)>, childAlias: string)
    requires !groupRaw.Obj? && !groupRaw.Arr?
    requires exists j :: 0 <= j < |children| && children[j].0 == childAlias
    ensures Lookup(FromEntries(GroupEntries(GroupSource(groupRaw), children)), childAlias) == Some(Null)
  {
    var es := GroupEntries(GroupSource(groupRaw), children);
    FromEntriesLookup(es, childAlias);
    AllNullLastValue(es, childAlias);
  }

  lemma {:induction false} AllNullLastValue(es: seq<(string, JsValue)>, key: string)
    requires forall j :: 0 <= j < |es| ==> es[j].1 == Null
    requires exists j :: 0 <= j < |es| && es[j].0 == key
    ensures LastValue(es, key) == Some(Null)
  {
    var n := |es| - 1;
    if es[n].0 != key {
      var init := es[..n];
      var j :| 0 <= j < |es| && es[j].0 == key;
      assert init[j] == es[j];
      AllNullLastValue(init, key);
    }
  }

  /** Without a node, or for a node whose `acf` is missing, null or
    * undefined, every plain field is null and every group is a record whose
    * children are all null. */
  lemma NullNodeFields(node: JsValue, def: FieldDef)
    requires IsNullish(Get(node, "acf"))
    ensures def.Plain? ==> FieldValue(AcfOf(node), def) == Null
    ensures def.Group? ==> forall c :: c in def.children ==>
      Lookup(FieldValue(AcfOf(node), def).fields, c.0) == Some(Null)
  {
    if def.Group? {
      forall c | c in def.children
        ensures Lookup(FieldValue(AcfOf(node), def).fields, c.0) == Some(Null)
      {
        var j :| 0 <= j < |def.children| && def.children[j] == c;
        GroupMissingAllNull(Get(Obj([]), def.groupKey), def.children, c.0);
      }
    }
  }

  // ---------------------------------------------------------------------
  // resolveScfMediaUrl
  // ---------------------------------------------------------------------

  /** A resolved image: its URL, and alt text and caption when known. */
  datatype Media = Media(url: string, alt: Option<string>, caption: Option<string>)

  /** What `resolveScfMediaUrl` does with a field value before any fetch:
    * answer at once, look the image up by id, or give up. */
  datatype MediaPlan = Direct(media: Media) | FetchById(id: real) | Unresolved

  /** `/^(https?:)?\/\//`. */
  predicate IsAbsoluteUrl(s: string) {
    StartsWith(s, "http://") || StartsWith(s, "https://") || StartsWith(s, "//")
  }

  /** `/^\d+$/`. */
  predicate IsDigits(s: string) {
    |s| > 0 && forall k :: 0 <= k < |s| ==> '0' <= s[k] <= '9'
  }

  /** `Number(s)` for a string of decimal digits. */
  function DigitsValue(s: string): (r: nat)
    requires IsDigits(s) || s == []
    ensures s != [] && s[|s| - 1] != '0' ==> r > 0
  {
    if s == [] then 0
    else DigitsValue(s[..|s| - 1]) * 10 + (s[|s| - 1] as int - '0' as int)
  }

  /** A digit string has value zero exactly when every digit is '0'. */
  lemma {:induction false} DigitsValueZero(s: string)
    requires IsDigits(s) || s == []
    ensures DigitsValue(s) == 0 <==> forall k :: 0 <= k < |s| ==> s[k] == '0'
  {
    if s != [] {
      var init := s[..|s| - 1];
      DigitsValueZero(init);
      assert forall k :: 0 <= k < |init| ==> init[k] == s[k];
    }
  }

  /** The id to fetch: a number, or a digit string's value. */
  function NumericId(value: JsValue): (r: Option<real>)
    ensures r.Some? <==> value.Num? || (value.Str? && IsDigits(value.s))
    ensures value.Num? ==> r == Some(value.n)
    ensures value.Str? && IsDigits(value.s) ==> r == Some(DigitsValue(value.s) as real)
  {
    match value
    case Num(n) => Some(n)
    case Str(s) => if IsDigits(s) then Some(DigitsValue(s) as real) else None
    case _ => None
  }

  /** The caption an object field carries: a non-empty `caption` string, else a
    * string `caption.rendered`. */
  function CaptionOf(value: JsValue): (r: Option<string>)
    ensures NonEmptyStringProp(value, "caption").Some? ==> r == NonEmptyStringProp(value, "caption")
    ensures NonEmptyStringProp(value, "caption").None? && Get(Get(value, "caption"), "rendered").Str? ==>
      r == Some(Get(Get(value, "caption"), "rendered").s)
    ensures r.None? <==>
      NonEmptyStringProp(value, "caption").None? && !Get(Get(value, "caption"), "rendered").Str?
  {
    if NonEmptyStringProp(value, "caption").Some? then NonEmptyStringProp(value, "caption")
    else
      var rendered := Get(Get(value, "caption"), "rendered");
      if rendered.Str? then Some(rendered.s) else None
  }

  /** The URL an object field carries: a non-empty `url`, else a non-empty
    * `source_url`. */
  function DirectUrl(value: JsValue): (r: Option<string>)
    ensures NonEmptyStringProp(value, "url").Some? ==> r == NonEmptyStringProp(value, "url")
    ensures NonEmptyStringProp(value, "url").None? ==> r == NonEmptyStringProp(value, "source_url")
    ensures r.Some? ==> r.value != ""
  {
    if NonEmptyStringProp(value, "url").Some? then NonEmptyStringProp(value, "url")
    else NonEmptyStringProp(value, "source_url")
  }

  /** The decision `resolveScfMediaUrl` takes on a field value. */
  function ClassifyMedia(value: JsValue): (r: MediaPlan)
    ensures value.Str? && IsAbsoluteUrl(value.s) ==> r == Direct(Media(value.s, None, None))
    ensures value.Obj? && DirectUrl(value).Some? ==>
      r == Direct(Media(DirectUrl(value).value, NonEmptyStringProp(value, "alt"), CaptionOf(value)))
    ensures r.Direct? <==> (value.Str? && IsAbsoluteUrl(value.s)) || (value.Obj? && DirectUrl(value).Some?)
    ensures r.Direct? ==> r.media.url != ""
    ensures r.Direct? && r.media.alt.Some? ==> r.media.alt.value != ""
    ensures r.FetchById? ==> r.id != 0.0 && NumericId(value) == Some(r.id)
  {
    if value.Str? && IsAbsoluteUrl(value.s) then Direct(Media(value.s, None, None))
    else if value.Obj? && DirectUrl(value).Some? then
      Direct(Media(DirectUrl(value).value, NonEmptyStringProp(value, "alt"), CaptionOf(value)))
    else
      var id := NumericId(value);
      if id.Some? && id.value != 0.0 then FetchById(id.value) else Unresolved
  }

  /** A value is looked up by id exactly when it is a non-zero number or a
    * digit string that is not all zeros; "0", "000" and 0 resolve to nothing. */
  lemma ClassifyFetch(value: JsValue)
    ensures ClassifyMedia(value).FetchById? <==>
      (value.Num? && value.n != 0.0) ||
      (value.Str? && IsDigits(value.s) && exists k :: 0 <= k < |value.s| && value.s[k] != '0')
  {
    if value.Str? && IsDigits(value.s) {
      DigitsValueZero(value.s);
      assert !IsAbsoluteUrl(value.s) by {
        assert value.s[0] != 'h' && value.s[0] != '/';
      }
    }
  }

  /** An object without a usable `url` or `source_url` is never looked up,
    * even when it carries an `id`: the id lookup reads only numbers and
    * digit strings. */
  lemma ObjectWithoutUrlUnresolved(value: JsValue)
    requires value.Obj? && DirectUrl(value).None?
    ensures ClassifyMedia(value) == Unresolved
    ensures forall f: real -> JsValue :: ResolveScfMediaUrl(value, f).None?
  {
  }

  /** Values that are neither an absolute URL, an object with a URL nor a
    * non-zero id resolve to null without a lookup: 0, "0", a relative path,
    * "", a boolean, null and an array. */
  lemma UnresolvedExamples(f: real -> JsValue)
    ensures ResolveScfMediaUrl(Num(0.0), f).None?
    ensures ResolveScfMediaUrl(Str("0"), f).None?
    ensures ResolveScfMediaUrl(Str("img/a.jpg"), f).None?
    ensures ResolveScfMediaUrl(Str(""), f).None?
    ensures ResolveScfMediaUrl(Bool(true), f).None?
    ensures ResolveScfMediaUrl(Null, f).None?
    ensures ResolveScfMediaUrl(Arr([Num(7.0)]), f).None?
  {
    var zero := "0";
    assert !IsAbsoluteUrl(zero) by { assert zero[0] == '0'; }
    assert DigitsValue(zero) == 0 by { assert zero[..0] == []; }
    var rel := "img/a.jpg";
    assert !IsAbsoluteUrl(rel) by { assert rel[0] == 'i'; }
    assert !IsDigits(rel) by { assert rel[0] == 'i'; }
    assert !IsAbsoluteUrl("");
  }

  /** The media record built from a fetched media node: `source_url`, else
    * `guid.rendered`, must be a string; alt text and caption are kept only
    * when they are strings. */
  function MediaFromNode(media: JsValue): (r: Option<Media>)
    ensures r.Some? <==> Coalesce(Get(media, "source_url"), Get(Get(media, "guid"), "rendered")).Str?
    ensures r.Some? && Get(media, "source_url").Str? ==> r.value.url == Get(media, "source_url").s
    ensures r.Some? && IsNullish(Get(media, "source_url")) ==>
      r.value.url == Get(Get(media, "guid"), "rendered").s
    ensures r.Some? ==> (r.value.alt.Some? <==> Get(media, "alt_text").Str?)
    ensures r.Some? && r.value.alt.Some? ==> r.value.alt.value == Get(media, "alt_text").s
    ensures r.Some? ==> (r.value.caption.Some? <==> Get(Get(media, "caption"), "rendered").Str?)
    ensures r.Some? && r.value.caption.Some? ==> r.value.caption.value == Get(Get(media, "caption"), "rendered").s
  {
    var url := Coalesce(Get(media, "source_url"), Coalesce(Get(Get(media, "guid"), "rendered"), Null));
    var alt := Coalesce(Get(media, "alt_text"), Null);
    var caption := Coalesce(Get(Get(media, "caption"), "rendered"), Null);
    if url.Str? then
      Some(Media(url.s,
                 if alt.Str? then Some(alt.s) else None,
                 if caption.Str? then Some(caption.s) else None))
    else None
  }

  /** `resolveScfMediaUrl`; the media lookup of `fetchWpNode` is the parameter
    * `fetchMedia`, from an id to the media node it returns. */
  function ResolveScfMediaUrl(value: JsValue, fetchMedia: real -> JsValue): (r: Option<Media>)
    ensures ClassifyMedia(value).Direct? ==> r == Some(ClassifyMedia(value).media)
    ensures ClassifyMedia(value).Unresolved? ==> r.None?
    ensures ClassifyMedia(value).FetchById? ==> r == MediaFromNode(fetchMedia(ClassifyMedia(value).id))
  {
    match ClassifyMedia(value)
    case Direct(m) => Some(m)
    case FetchById(id) => MediaFromNode(fetchMedia(id))
    case Unresolved => None
  }

  /** Only an id triggers a fetch: for any other value the answer does not
    * depend on what the media endpoint returns. */
  lemma ResolveWithoutFetch(value: JsValue, f: real -> JsValue, g: real -> JsValue)
    requires !ClassifyMedia(value).FetchById?
    ensures ResolveScfMediaUrl(value, f) == ResolveScfMediaUrl(value, g)
  {
  }
}
