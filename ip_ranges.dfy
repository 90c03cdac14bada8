// Change detection for the GitHub Actions runner IP ranges: ordering of
// strings, sorting with deduplication, the per-key diff report, and the
// decision to rewrite the cache.

/** Strings in Python's order (lexicographic on code points), and the sorted,
  * duplicate-free lists that `sorted(set(xs))` produces. */
module SortedStrings {

  /** `a < b` on Python strings: a proper prefix comes first, otherwise the
    * first differing character decides. */
  predicate StrLt(a: string, b: string)
    decreases |a|
  {
    if |a| == 0 then |b| > 0
    else if |b| == 0 then false
    else if a[0] != b[0] then a[0] < b[0]
    else StrLt(a[1..], b[1..])
  }

  lemma {:induction false} StrLtIrreflexive(a: string)
    ensures !StrLt(a, a)
    decreases |a|
  {
    if |a| > 0 { StrLtIrreflexive(a[1..]); }
  }

  lemma {:induction false} StrLtTransitive(a: string, b: string, c: string)
    requires StrLt(a, b) && StrLt(b, c)
    ensures StrLt(a, c)
    decreases |a|
  {
    if |a| > 0 && a[0] == b[0] && b[0] == c[0] {
      StrLtTransitive(a[1..], b[1..], c[1..]);
    }
  }

  /** Any two distinct strings are ordered one way or the other, and not both. */
  lemma {:induction false} StrLtTotal(a: string, b: string)
    requires a != b
    ensures StrLt(a, b) != StrLt(b, a)
    decreases |a|
  {
    if |a| > 0 && |b| > 0 && a[0] == b[0] {
      assert a == [a[0]] + a[1..] && b == [b[0]] + b[1..];
      StrLtTotal(a[1..], b[1..]);
    }
  }

  /** Strictly increasing: sorted and free of duplicates. */
  predicate Sorted(s: seq<string>) {
    forall i, j :: 0 <= i < j < |s| ==> StrLt(s[i], s[j])
  }

  function Elems(s: seq<string>): set<string> {
    set x | x in s
  }

  lemma ElemsEmpty(s: seq<string>)
    ensures Elems(s) == {} <==> s == []
  {
    if s != [] {
      assert s[0] in Elems(s);
    }
  }

  lemma ElemsAppend(a: seq<string>, b: seq<string>)
    ensures Elems(a + b) == Elems(a) + Elems(b)
  {
  }

  /** Inserts `x` into a strictly increasing list, keeping it so. */
  function Insert(x: string, s: seq<string>): (r: seq<string>)
    requires Sorted(s)
    ensures Sorted(r)
    ensures Elems(r) == Elems(s) + {x}
  {
    if s == [] then [x]
    else if x == s[0] then s
    else if StrLt(x, s[0]) then
      assert forall j :: 0 < j < |s| ==> StrLt(x, s[j]) by {
        forall j | 0 < j < |s| ensures StrLt(x, s[j]) { StrLtTransitive(x, s[0], s[j]); }
      }
      [x] + s
    else
      StrLtTotal(x, s[0]);
      var rest := Insert(x, s[1..]);
      assert Elems(s) == {s[0]} + Elems(s[1..]);
      ElemsAppend([s[0]], rest);
      assert forall y :: y in rest ==> StrLt(s[0], y) by {
        forall y | y in rest ensures StrLt(s[0], y) {
          if y != x {
            assert y in Elems(rest);
            assert y in Elems(s[1..]);
            var j :| 0 <= j < |s[1..]| && s[1..][j] == y;
            assert s[j + 1] == y;
          }
        }
      }
      [s[0]] + rest
  }

  /** `sorted(set(xs))`. */
  function SortUnique(xs: seq<string>): (r: seq<string>)
    ensures Sorted(r)
    ensures Elems(r) == Elems(xs)
  {
    if xs == [] then []
    else
      assert Elems(xs) == {xs[0]} + Elems(xs[1..]);
      Insert(xs[0], SortUnique(xs[1..]))
  }

  /** A set has one strictly increasing listing. */
  lemma {:induction false} SortedUnique(a: seq<string>, b: seq<string>)
    requires Sorted(a) && Sorted(b) && Elems(a) == Elems(b)
    ensures a == b
    decreases |a|
  {
    if a != [] {
      assert a[0] in Elems(b);
      assert b != [];
      assert b[0] in Elems(a);
      var i :| 0 <= i < |a| && a[i] == b[0];
      var j :| 0 <= j < |b| && b[j] == a[0];
      if i != 0 && j != 0 {
        StrLtTransitive(a[0], b[0], a[0]);
        StrLtIrreflexive(a[0]);
        assert false;
      }
      forall x | x in a[1..] ensures x != a[0] {
        var k :| 0 <= k < |a[1..]| && a[1..][k] == x;
        assert StrLt(a[0], a[k + 1]);
        StrLtIrreflexive(x);
      }
      forall x | x in b[1..] ensures x != b[0] {
        var k :| 0 <= k < |b[1..]| && b[1..][k] == x;
        assert StrLt(b[0], b[k + 1]);
        StrLtIrreflexive(x);
      }
      assert Elems(a) == {a[0]} + Elems(a[1..]);
      assert Elems(b) == {b[0]} + Elems(b[1..]);
      assert Elems(a[1..]) == Elems(b[1..]);
      SortedUnique(a[1..], b[1..]);
      assert a == [a[0]] + a[1..] && b == [b[0]] + b[1..];
    } else {
      ElemsEmpty(b);
    }
  }

  /** Every finite set of strings has a strictly increasing listing. */
  lemma {:induction false} SortedExists(s: set<string>)
    ensures exists r :: Sorted(r) && Elems(r) == s
    decreases |s|
  {
    if s == {} {
      assert Sorted([]) && Elems([]) == s;
    } else {
      var x :| x in s;
      SortedExists(s - {x});
      var r :| Sorted(r) && Elems(r) == s - {x};
      assert Sorted(Insert(x, r)) && Elems(Insert(x, r)) == s;
    }
  }

  /** The strictly increasing listing of a set: `sorted(s)` in Python. */
  ghost function SortedOf(s: set<string>): (r: seq<string>)
    ensures Sorted(r) && Elems(r) == s
  {
    SortedExists(s);
    var r :| Sorted(r) && Elems(r) == s;
    r
  }

  /** Sorting with deduplication is `sorted(set(xs))`, and is idempotent. */
  lemma SortUniqueIsSortedOf(xs: seq<string>)
    ensures SortUnique(xs) == SortedOf(Elems(xs))
    ensures SortUnique(SortUnique(xs)) == SortUnique(xs)
  {
    SortedUnique(SortUnique(xs), SortedOf(Elems(xs)));
    SortedUnique(SortUnique(SortUnique(xs)), SortUnique(xs));
  }

  /** `sorted(s)` for a set, by repeated insertion. */
  method SortSet(s: set<string>) returns (r: seq<string>)
    ensures r == SortedOf(s)
  {
    var rest := s;
    r := [];
    while rest != {}
      invariant rest <= s
      invariant Sorted(r) && Elems(r) == s - rest
      decreases |rest|
    {
      var x :| x in rest;
      r := Insert(x, r);
      rest := rest - {x};
    }
    SortedUnique(r, SortedOf(s));
  }

  /** The elements of `a` not in `b`, in their order: a list set difference. */
  function Minus(a: seq<string>, b: seq<string>): (r: seq<string>)
    ensures Elems(r) == Elems(a) - Elems(b)
  {
    if a == [] then []
    else
      assert Elems(a) == {a[0]} + Elems(a[1..]);
      ElemsAppend(if a[0] in b then [] else [a[0]], Minus(a[1..], b));
      (if a[0] in b then [] else [a[0]]) + Minus(a[1..], b)
  }
}

/** The logic of scripts/check_github_actions_ips.py, without the network,
  * the file system and the printing. */
module IpRanges {
  import opened SortedStrings
  import JsValues

  /** `Dict[str, List[str]]`. */
  type Ranges = map<string, seq<string>>

  datatype Result<T> = Ok(value: T) | Err(message: string)

  /** The metadata keys that may hold Actions ranges, in the order tried. */
  const ActionKeys: seq<string> := ["actions", "actions_ipv4", "actions_ipv6"]

  const NoRangesMessage: string :=
    "GitHub API did not return any Actions IP ranges. The response structure may have changed."

  const CorruptCacheMessage: string := "Cached IP list is corrupted"

  /** `mapping.get(key, [])`. */
  function ListOr(m: Ranges, key: string): (r: seq<string>)
    ensures key in m ==> r == m[key]
    ensures key !in m ==> r == []
  {
    if key in m then m[key] else []
  }

  // ---------------------------------------------------------------------
  // fetch_actions_ip_ranges / load_cached_ranges
  // ---------------------------------------------------------------------

  /** The mapping the filtering loop builds over `keys`: each key whose list is
    * non-empty, with that list sorted and deduplicated. */
  ghost function KeptRanges(metadata: Ranges, keys: seq<string>): (r: Ranges)
    ensures forall k :: k in r <==> k in keys && ListOr(metadata, k) != []
    ensures forall k :: k in r ==> r[k] == SortedOf(Elems(ListOr(metadata, k)))
  {
    if keys == [] then map[]
    else
      var last := keys[|keys| - 1];
      var kept := KeptRanges(metadata, keys[..|keys| - 1]);
      assert keys == keys[..|keys| - 1] + [last];
      if ListOr(metadata, last) != [] then kept[last := SortedOf(Elems(ListOr(metadata, last)))]
      else kept
  }

  /** What `fetch_actions_ip_ranges` returns for a decoded metadata document:
    * each Actions key with a non-empty list, sorted and deduplicated, or an
    * error when there is none. */
  ghost function ActionRanges(metadata: Ranges): (r: Result<Ranges>)
    ensures r.Err? <==> forall k :: k in ActionKeys ==> ListOr(metadata, k) == []
    ensures r.Ok? ==> r.value != map[] && r.value == KeptRanges(metadata, ActionKeys)
  {
    var kept := KeptRanges(metadata, ActionKeys);
    if kept == map[] then Err(NoRangesMessage)
    else
      var k :| k in kept;
      Ok(kept)
  }

  /** The filtering loop of `fetch_actions_ip_ranges`. */
  method SelectActionRanges(metadata: Ranges) returns (r: Result<Ranges>)
    ensures r == ActionRanges(metadata)
  {
    var results: Ranges := map[];
    var i := 0;
    while i < |ActionKeys|
      invariant 0 <= i <= |ActionKeys|
      invariant results == KeptRanges(metadata, ActionKeys[..i])
    {
      var key := ActionKeys[i];
      var ranges := ListOr(metadata, key);
      assert ActionKeys[..i + 1][..i] == ActionKeys[..i];
      if ranges != [] {
        SortUniqueIsSortedOf(ranges);
        results := results[key := SortUnique(ranges)];
      }
      i := i + 1;
    }
    assert ActionKeys[..i] == ActionKeys;
    if results == map[] {
      r := Err(NoRangesMessage);
    } else {
      r := Ok(results);
    }
  }

  /** The state of the cache file: absent, not valid JSON, or a decoded
    * mapping from key to range list. */
  datatype CacheFile = Missing | Corrupt | Parsed(data: Ranges)

  /** `load_cached_ranges`: an absent cache is empty; a corrupt one is an
    * error; otherwise every list is sorted and deduplicated. */
  function LoadCachedRanges(file: CacheFile): (r: Result<Ranges>)
    ensures file.Missing? ==> r == Ok(map[])
    ensures file.Corrupt? <==> r.Err?
    ensures file.Parsed? ==> r.Ok? && r.value.Keys == file.data.Keys
    ensures file.Parsed? ==> forall k :: k in r.value ==> r.value[k] == SortedOf(Elems(file.data[k]))
  {
    match file
    case Missing => Ok(map[])
    case Corrupt => Err(CorruptCacheMessage)
    case Parsed(data) =>
      var loaded := map k | k in data :: SortUnique(data[k]);
      assert forall k :: k in loaded ==> loaded[k] == SortedOf(Elems(data[k])) by {
        forall k | k in loaded ensures loaded[k] == SortedOf(Elems(data[k])) {
          SortUniqueIsSortedOf(data[k]);
        }
      }
      Ok(loaded)
  }

  // ---------------------------------------------------------------------
  // diff_ranges
  // ---------------------------------------------------------------------

  /** `sorted(new_set - old_set)` for one key. */
  ghost function AddedFor(previous: Ranges, current: Ranges, key: string): seq<string> {
    SortedOf(Elems(ListOr(current, key)) - Elems(ListOr(previous, key)))
  }

  /** `sorted(old_set - new_set)` for one key. */
  ghost function RemovedFor(previous: Ranges, current: Ranges, key: string): seq<string> {
    SortedOf(Elems(ListOr(previous, key)) - Elems(ListOr(current, key)))
  }

  /** Each value on a line of its own behind `prefix`. */
  function Prefixed(prefix: string, values: seq<string>): (r: seq<string>)
    ensures |r| == |values|
    ensures forall i :: 0 <= i < |r| ==> r[i] == prefix + values[i]
  {
    seq(|values|, i requires 0 <= i < |values| => prefix + values[i])
  }

  /** The lines of one key's section, given its sorted additions and
    * removals; nothing when both are empty. */
  function SectionOf(key: string, added: seq<string>, removed: seq<string>): seq<string> {
    if added == [] && removed == [] then []
    else
      ["[" + key + "]"]
      + (if added == [] then [] else ["  Added:"] + Prefixed("    + ", added))
      + (if removed == [] then [] else ["  Removed:"] + Prefixed("    - ", removed))
  }

  /** The lines one key contributes to the report. */
  ghost function Section(previous: Ranges, current: Ranges, key: string): seq<string> {
    SectionOf(key, AddedFor(previous, current, key), RemovedFor(previous, current, key))
  }

  /** The appends the loop body of `diff_ranges` makes for one key. */
  method AppendSection(lines: seq<string>, key: string, added: seq<string>, removed: seq<string>)
    returns (out: seq<string>)
    ensures out == lines + SectionOf(key, added, removed)
  {
    out := lines;
    if added == [] && removed == [] {
      return;
    }
    out := out + ["[" + key + "]"];
    if added != [] {
      out := out + ["  Added:"];
      out := out + Prefixed("    + ", added);
    }
    if removed != [] {
      out := out + ["  Removed:"];
      out := out + Prefixed("    - ", removed);
    }
  }

  /** The lines for the keys, in the given order. */
  ghost function DiffLines(previous: Ranges, current: Ranges, keys: seq<string>): seq<string> {
    if keys == [] then []
    else DiffLines(previous, current, keys[..|keys| - 1]) + Section(previous, current, keys[|keys| - 1])
  }

  /** The report `diff_ranges` returns: sections in ascending key order over
    * the keys of both mappings, joined by newlines. */
  ghost function DiffReport(previous: Ranges, current: Ranges): string {
    JsValues.Join(DiffLines(previous, current, SortedOf(previous.Keys + current.Keys)), "\n")
  }

  /** The loop body's `sorted(new_set - old_set)` and `sorted(old_set - new_set)`
    * are the key's additions and removals. */
  lemma ComputedChanges(previous: Ranges, current: Ranges, key: string)
    ensures SortUnique(Minus(ListOr(current, key), ListOr(previous, key))) == AddedFor(previous, current, key)
    ensures SortUnique(Minus(ListOr(previous, key), ListOr(current, key))) == RemovedFor(previous, current, key)
  {
    SortedUnique(SortUnique(Minus(ListOr(current, key), ListOr(previous, key))), AddedFor(previous, current, key));
    SortedUnique(SortUnique(Minus(ListOr(previous, key), ListOr(current, key))), RemovedFor(previous, current, key));
  }

  /** One more key extends the lines by that key's section, as the loop body
    * computes it. */
  lemma DiffLinesStep(previous: Ranges, current: Ranges, keys: seq<string>, i: nat)
    requires i < |keys|
    ensures DiffLines(previous, current, keys[..i + 1]) ==
      DiffLines(previous, current, keys[..i]) +
      SectionOf(keys[i],
                SortUnique(Minus(ListOr(current, keys[i]), ListOr(previous, keys[i]))),
                SortUnique(Minus(ListOr(previous, keys[i]), ListOr(current, keys[i]))))
  {
    ComputedChanges(previous, current, keys[i]);
    assert keys[..i + 1][..i] == keys[..i];
  }

  /** `diff_ranges`. */
  method DiffRanges(previous: Ranges, current: Ranges) returns (report: string)
    ensures report == DiffReport(previous, current)
  {
    var lines: seq<string> := [];
    var keys := SortSet(previous.Keys + current.Keys);
    var i := 0;
    while i < |keys|
      invariant 0 <= i <= |keys|
      invariant lines == DiffLines(previous, current, keys[..i])
    {
      var key := keys[i];
      var oldList := ListOr(previous, key);
      var newList := ListOr(current, key);
      var added := SortUnique(Minus(newList, oldList));
      var removed := SortUnique(Minus(oldList, newList));
      DiffLinesStep(previous, current, keys, i);
      lines := AppendSection(lines, key, added, removed);
      i := i + 1;
    }
    assert keys[..i] == keys;
    report := JsValues.Join(lines, "\n");
  }

  /** A key whose old and new lists hold the same set of ranges (a missing
    * key counting as an empty list). */
  predicate Unchanged(previous: Ranges, current: Ranges, key: string) {
    Elems(ListOr(previous, key)) == Elems(ListOr(current, key))
  }

  /** A key contributes no lines exactly when its old and new sets agree. */
  lemma SectionEmpty(previous: Ranges, current: Ranges, key: string)
    ensures Section(previous, current, key) == [] <==> Unchanged(previous, current, key)
  {
    var o := Elems(ListOr(previous, key));
    var n := Elems(ListOr(current, key));
    if AddedFor(previous, current, key) == [] && RemovedFor(previous, current, key) == [] {
      assert Elems([]) == {};
      assert n - o == {} && o - n == {};
    }
    if o == n {
      assert n - o == {};
      SortedUnique(AddedFor(previous, current, key), []);
      SortedUnique(RemovedFor(previous, current, key), []);
    }
  }

  lemma SectionLinesNonEmpty(previous: Ranges, current: Ranges, key: string)
    ensures forall i :: 0 <= i < |Section(previous, current, key)| ==> Section(previous, current, key)[i] != ""
  {
    var added := AddedFor(previous, current, key);
    var removed := RemovedFor(previous, current, key);
    var a := if added == [] then [] else ["  Added:"] + Prefixed("    + ", added);
    var b := if removed == [] then [] else ["  Removed:"] + Prefixed("    - ", removed);
    assert forall i :: 0 <= i < |a| ==> a[i] != "";
    assert forall i :: 0 <= i < |b| ==> b[i] != "";
  }

  /** The "+" lines of a key's section name exactly the added ranges. */
  lemma SectionAddedLines(previous: Ranges, current: Ranges, key: string, v: string)
    ensures "    + " + v in Section(previous, current, key) <==>
      v in Elems(ListOr(current, key)) - Elems(ListOr(previous, key))
  {
    var added := AddedFor(previous, current, key);
    var removed := RemovedFor(previous, current, key);
    PrefixedMember("    + ", added, v);
    PrefixedMember("    - ", removed, v);
    PrefixedMember("    + ", removed, v);
    assert v in added <==> v in Elems(added);
    var plus := "    + " + v;
    assert plus[4] == '+' && plus[2] == ' ';
    assert ("  Added:")[2] == 'A' && ("  Removed:")[2] == 'R';
    assert ("[" + key + "]")[0] == '[';
  }

  /** The "-" lines of a key's section name exactly the removed ranges. */
  lemma SectionRemovedLines(previous: Ranges, current: Ranges, key: string, v: string)
    ensures "    - " + v in Section(previous, current, key) <==>
      v in Elems(ListOr(previous, key)) - Elems(ListOr(current, key))
  {
    var added := AddedFor(previous, current, key);
    var removed := RemovedFor(previous, current, key);
    PrefixedMember("    - ", removed, v);
    PrefixedMember("    - ", added, v);
    PrefixedMember("    + ", added, v);
    assert v in removed <==> v in Elems(removed);
    var minus := "    - " + v;
    assert minus[4] == '-' && minus[2] == ' ';
    assert ("  Added:")[2] == 'A' && ("  Removed:")[2] == 'R';
    assert ("[" + key + "]")[0] == '[';
  }

  /** A line of `Prefixed(prefix, values)` with one's own prefix names a value. */
  lemma PrefixedMember(prefix: string, values: seq<string>, v: string)
    ensures prefix + v in Prefixed(prefix, values) <==> v in values
  {
    var lines := Prefixed(prefix, values);
    if prefix + v in lines {
      var i :| 0 <= i < |lines| && lines[i] == prefix + v;
      assert values[i] == (prefix + v)[|prefix|..];
      assert (prefix + v)[|prefix|..] == v;
    }
    if v in values {
      var i :| 0 <= i < |values| && values[i] == v;
      assert lines[i] == prefix + v;
    }
  }

  /** Every line of a report is non-empty. */
  lemma {:induction false} DiffLinesNonEmpty(previous: Ranges, current: Ranges, keys: seq<string>)
    ensures forall i :: 0 <= i < |DiffLines(previous, current, keys)| ==> DiffLines(previous, current, keys)[i] != ""
  {
    if keys != [] {
      DiffLinesNonEmpty(previous, current, keys[..|keys| - 1]);
      SectionLinesNonEmpty(previous, current, keys[|keys| - 1]);
    }
  }

  /** No lines exactly when every listed key is unchanged. */
  lemma {:induction false} DiffLinesEmpty(previous: Ranges, current: Ranges, keys: seq<string>)
    ensures DiffLines(previous, current, keys) == [] <==>
      forall k :: k in keys ==> Unchanged(previous, current, k)
  {
    if keys != [] {
      var init := keys[..|keys| - 1];
      var last := keys[|keys| - 1];
      DiffLinesEmpty(previous, current, init);
      SectionEmpty(previous, current, last);
      KeysSnoc(previous, current, keys);
    }
  }

  /** A property of every key holds of a non-empty list exactly when it holds
    * of all but the last key and of the last. */
  lemma KeysSnoc(previous: Ranges, current: Ranges, keys: seq<string>)
    requires keys != []
    ensures (forall k :: k in keys ==> Unchanged(previous, current, k)) <==>
      (forall k :: k in keys[..|keys| - 1] ==> Unchanged(previous, current, k)) &&
      Unchanged(previous, current, keys[|keys| - 1])
  {
    assert keys == keys[..|keys| - 1] + [keys[|keys| - 1]];
  }

  /** The report is empty exactly when, for every key of either mapping (a
    * missing key counting as an empty list), the old and new sets are equal. */
  lemma DiffReportEmpty(previous: Ranges, current: Ranges)
    ensures DiffReport(previous, current) == "" <==>
      forall k :: Unchanged(previous, current, k)
  {
    var keys := SortedOf(previous.Keys + current.Keys);
    var lines := DiffLines(previous, current, keys);
    DiffLinesEmpty(previous, current, keys);
    DiffLinesNonEmpty(previous, current, keys);
    if lines != [] {
      assert lines[0] != "";
    }
    forall k | k !in keys
      ensures Unchanged(previous, current, k)
    {
      assert k !in Elems(keys);
    }
  }

  // ---------------------------------------------------------------------
  // main
  // ---------------------------------------------------------------------

  /** What one run of `main` decides: its exit status, and the ranges it
    * writes to the cache, if any. */
  datatype Outcome = Outcome(exitCode: int, written: JsValues.Option<Ranges>)

  /** `main` with the `RuntimeError` handler around it: fetch, load the cache,
    * and rewrite the cache when it was empty or the ranges changed. */
  method RunCheck(metadata: Ranges, cache: CacheFile) returns (outcome: Outcome)
    ensures outcome.exitCode == 1 <==> ActionRanges(metadata).Err? || cache.Corrupt?
    ensures outcome.exitCode != 1 ==> outcome.exitCode == 0
    ensures outcome.written.Some? <==>
      outcome.exitCode == 0 &&
      (LoadCachedRanges(cache).value == map[] ||
       DiffReport(LoadCachedRanges(cache).value, ActionRanges(metadata).value) != "")
    ensures outcome.written.Some? ==> outcome.written.value == ActionRanges(metadata).value
  {
    var fetched := SelectActionRanges(metadata);
    if fetched.Err? {
      return Outcome(1, JsValues.None);
    }
    var current := fetched.value;
    var loaded := LoadCachedRanges(cache);
    if loaded.Err? {
      return Outcome(1, JsValues.None);
    }
    var previous := loaded.value;
    if previous == map[] {
      return Outcome(0, JsValues.Some(current));
    }
    var diff := DiffRanges(previous, current);
    if diff == "" {
      return Outcome(0, JsValues.None);
    }
    return Outcome(0, JsValues.Some(current));
  }

  /** Loading a cache whose lists are already sorted and deduplicated gives
    * back the same mapping. */
  lemma ReloadSorted(data: Ranges)
    requires forall k :: k in data ==> Sorted(data[k])
    ensures LoadCachedRanges(Parsed(data)) == Ok(data)
  {
    var loaded := LoadCachedRanges(Parsed(data)).value;
    forall k | k in data ensures loaded[k] == data[k] {
      SortedUnique(loaded[k], data[k]);
    }
    assert loaded == data;
  }

  /** Running again against the cache just written, with the same ranges
    * from the API, leaves the cache alone. */
  lemma RerunWritesNothing(metadata: Ranges)
    requires ActionRanges(metadata).Ok?
    ensures LoadCachedRanges(Parsed(ActionRanges(metadata).value)) == ActionRanges(metadata)
    ensures DiffReport(ActionRanges(metadata).value, ActionRanges(metadata).value) == ""
  {
    var current := ActionRanges(metadata).value;
    ReloadSorted(current);
    DiffReportEmpty(current, current);
  }
}
