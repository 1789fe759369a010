/** The session logic of the Omni-Tool: a marker tally built from marker
    files, a registry of named combinations, and a literal scan of a text
    for every marker and every combination. */
module Omni {
  import opened Strings
  import opened Occurrences
  import opened MarkerManager

  /** `sum(text.count(m) for m in combo)`: every constituent is counted on
      its own, duplicates included. */
  function ComboCount(text: string, combo: seq<string>): nat
    decreases |combo|
  {
    if combo == [] then 0 else PyCount(text, combo[0]) + ComboCount(text, combo[1..])
  }

  /** The count of a combination is additive over its constituent list. */
  lemma {:induction false} ComboCountAppend(text: string, a: seq<string>, b: seq<string>)
    ensures ComboCount(text, a + b) == ComboCount(text, a) + ComboCount(text, b)
    decreases |a|
  {
    if a == [] {
      assert a + b == b;
    } else {
      assert (a + b)[1..] == a[1..] + b;
      ComboCountAppend(text, a[1..], b);
    }
  }

  /** A combination counts something exactly when one of its constituents
      occurs in the text. */
  lemma {:induction false} ComboCountPositive(text: string, combo: seq<string>)
    ensures ComboCount(text, combo) > 0 <==> exists m :: m in combo && Contains(text, m)
    decreases |combo|
  {
    if combo != [] {
      CountPositiveIffContains(text, combo[0]);
      ComboCountPositive(text, combo[1..]);
      if exists m :: m in combo && Contains(text, m) {
        var m :| m in combo && Contains(text, m);
        if m != combo[0] {
          assert m in combo[1..];
        }
      }
    }
  }

  /** The scan result r for a text: a marker is a key when it occurs in the
      text and then maps to its occurrence count; every combination is a key
      and maps to the sum of its constituents' counts, even when that sum is
      zero or a marker of the same name occurs. */
  ghost predicate Scanned(r: map<string, nat>, text: string, markers: map<string, nat>, combos: map<string, seq<string>>) {
    && (forall k :: k in r <==> k in combos || (k in markers && Contains(text, k)))
    && (forall k :: k in combos ==> r[k] == ComboCount(text, combos[k]))
    && (forall k :: k in r && k !in combos ==> r[k] == PyCount(text, k))
  }

  /** A marker that is not also a combination name is reported exactly when
      its count is positive, and then with that count. */
  lemma ScannedMarker(r: map<string, nat>, text: string, markers: map<string, nat>, combos: map<string, seq<string>>, k: string)
    requires Scanned(r, text, markers, combos)
    requires k in markers && k !in combos
    ensures k in r <==> PyCount(text, k) > 0
    ensures k in r ==> r[k] == PyCount(text, k)
  {
    CountPositiveIffContains(text, k);
  }

  /** The scan result does not depend on the order in which the markers and
      the combinations are visited: there is only one. */
  lemma ScannedUnique(r1: map<string, nat>, r2: map<string, nat>, text: string, markers: map<string, nat>, combos: map<string, seq<string>>)
    requires Scanned(r1, text, markers, combos) && Scanned(r2, text, markers, combos)
    ensures r1 == r2
  {
    assert r1.Keys == r2.Keys;
    forall k | k in r1 ensures r1[k] == r2[k] {
      if k in combos {
        assert r1[k] == ComboCount(text, combos[k]) == r2[k];
      } else {
        assert r1[k] == PyCount(text, k) == r2[k];
      }
    }
  }

  /** Every loaded entry is a plain marker name: the session tally uses the
      entries themselves as keys, and a `{meta: ...}` record is a dict, which
      is not hashable. */
  predicate AllPlain(es: seq<Entry>) {
    forall i :: 0 <= i < |es| ==> es[i].Plain?
  }

  /** A run of entries inside a list of plain entries is plain. */
  lemma AllPlainPart(es: seq<Entry>, before: seq<Entry>, part: seq<Entry>)
    requires before + part <= es
    requires AllPlain(es)
    ensures AllPlain(part)
  {
    forall j | 0 <= j < |part| ensures part[j].Plain? {
      assert part[j] == (before + part)[|before| + j] == es[|before| + j];
    }
  }

  /** How a request to create a combination ended. */
  datatype ComboStatus = NoMarkersLoaded | Cancelled | NothingSelected | Stored

  class OmniTool {
    /** Marker name to the number of times it was loaded. */
    var markers: map<string, nat>
    /** Combination name to its constituent marker names. */
    var combinations: map<string, seq<string>>

    constructor ()
      ensures markers == map[] && combinations == map[]
    {
      markers := map[];
      combinations := map[];
    }

    /** `setdefault(marker, 0)` and `+= 1` for every entry of one file. */
    method CountFile(es: seq<Entry>, ghost before: map<string, nat>, ghost seen: seq<Entry>)
      requires AllPlain(es)
      requires Tallied(markers, before, seen, false)
      modifies this`markers
      ensures Tallied(markers, before, seen + es, false)
    {
      var j := 0;
      assert seen + es[..0] == seen;
      while j < |es|
        invariant 0 <= j <= |es|
        invariant Tallied(markers, before, seen + es[..j], false)
      {
        var marker := es[j];
        assert seen + es[..j + 1] == seen + es[..j] + [marker];
        assert marker == Tag(false, marker.name);
        TallyCounted(markers, before, seen + es[..j], false, marker.name);
        markers := Bump(markers, marker.name);
        j := j + 1;
      }
      assert es[..|es|] == es;
    }

    /** `load_directory`: a cancelled dialog changes nothing; otherwise the
        tally is cleared and rebuilt from every recognised file, in walk
        order, writing a YAML companion for every CSV file. A file that
        fails to load ends the walk and leaves the counts made so far. */
    method LoadDirectory(directory: Option<seq<MarkerFile>>) returns (written: seq<Write>, failure: Option<LoadError>)
      requires directory.Some? ==> AllPlain(LoadAll(directory.value).entries)
      modifies this`markers
      ensures directory.None? ==> markers == old(markers) && written == [] && failure == None
      ensures directory.Some? ==> Tallied(markers, map[], LoadAll(directory.value).entries, false)
      ensures directory.Some? ==> failure == LoadAll(directory.value).failure
      ensures directory.Some? ==> written == CompanionWrites(directory.value)
    {
      written, failure := [], None;
      if directory.None? {
        return;
      }
      var files := directory.value;
      markers := map[];
      ghost var seen: seq<Entry> := [];
      var i := 0;
      assert files[..0] == [];
      assert LoadAll(files[..0]) == Batch(seen, None) && CompanionWrites(files[..0]) == written;
      while i < |files|
        invariant 0 <= i <= |files|
        invariant LoadAll(files[..i]) == Batch(seen, None)
        invariant written == CompanionWrites(files[..i])
        invariant Tallied(markers, map[], seen, false)
      {
        var file := files[i];
        WalkStep(files, i);
        if Recognised(file) {
          var m := LoadMarkers(file);
          if m.Err? {
            FailureStops(files, i + 1);
            assert LoadAll(files) == Batch(seen, Some(m.error));
            return written, Some(m.error);
          }
          LoadedAmongAll(files, i);
          AllPlainPart(LoadAll(files).entries, seen, m.value);
          CountFile(m.value, map[], seen);
          seen := seen + m.value;
          assert LoadAll(files[..i + 1]) == Batch(seen, None);
          if IsCsv(file) {
            written := written + [SaveMarkersYaml(Names(m.value), file.stem + ".yaml")];
          }
        } else {
          assert LoadAll(files[..i + 1]) == Batch(seen, None);
        }
        assert LoadAll(files[..i + 1]) == Batch(seen, None);
        assert written == CompanionWrites(files[..i + 1]);
        i := i + 1;
      }
      assert files[..|files|] == files;
    }

    /** `add_file`: a cancelled dialog changes nothing; otherwise every entry
        of the file adds one to its marker's count, and a path ending in
        `.csv` (in any letter case) gets a YAML companion. */
    method AddFile(file: Option<MarkerFile>) returns (written: seq<Write>, failure: Option<LoadError>)
      requires file.Some? && Load(file.value).Ok? ==> AllPlain(Load(file.value).value)
      modifies this`markers
      ensures file.None? || Load(file.value).Err? ==> markers == old(markers) && written == []
      ensures failure == if file.Some? && Load(file.value).Err? then Some(Load(file.value).error) else None
      ensures file.Some? && Load(file.value).Ok? ==>
                var f := file.value;
                && Tallied(markers, old(markers), Load(f).value, false)
                && written == if EndsWith(Lower(f.stem + f.suffix), ".csv") then [Companion(f, Load(f).value)] else []
      ensures forall k :: k in old(markers) ==> k in markers && markers[k] >= old(markers)[k]
    {
      written, failure := [], None;
      if file.None? {
        return;
      }
      var f := file.value;
      var m := LoadMarkers(f);
      if m.Err? {
        return written, Some(m.error);
      }
      if EndsWith(Lower(f.stem + f.suffix), ".csv") {
        written := [SaveMarkersYaml(Names(m.value), f.stem + ".yaml")];
      }
      assert Tallied(markers, markers, [], false);
      CountFile(m.value, markers, []);
      assert [] + m.value == m.value;
    }

    /** `create_combination`: with markers loaded, a non-empty name and a
        non-empty selection from the listed markers, the combination under
        that name becomes the selection in listing order (sorted),
        replacing any earlier one; otherwise nothing changes. */
    method CreateCombination(name: string, picked: set<string>) returns (status: ComboStatus)
      requires picked <= markers.Keys
      modifies this`combinations
      ensures status == if markers == map[] then NoMarkersLoaded
                        else if name == "" then Cancelled
                        else if picked == {} then NothingSelected
                        else Stored
      ensures status == Stored ==> combinations == old(combinations)[name := SortedSet(picked)]
      ensures status != Stored ==> combinations == old(combinations)
    {
      if markers == map[] {
        return NoMarkersLoaded;
      }
      if name == "" {
        return Cancelled;
      }
      var selected := SortedSet(picked);
      if selected == [] {
        return NothingSelected;
      }
      combinations := combinations[name := selected];
      return Stored;
    }

    /** `analyze_text`: nothing when no markers and no combinations are
        loaded or the text is empty; otherwise the count of every marker that
        occurs in the text, then the count of every combination, which
        overwrites a marker of the same name. */
    method AnalyzeText(text: string) returns (result: Option<map<string, nat>>)
      ensures result.None? <==> (markers == map[] && combinations == map[]) || text == ""
      ensures result.Some? ==> Scanned(result.value, text, markers, combinations)
    {
      if markers == map[] && combinations == map[] {
        return None;
      }
      if text == "" {
        return None;
      }
      var counts: map<string, nat> := map[];
      var pending := markers.Keys;
      while pending != {}
        invariant pending <= markers.Keys
        invariant forall k :: k in counts <==> k in markers && k !in pending && Contains(text, k)
        invariant forall k :: k in counts ==> counts[k] == PyCount(text, k)
        decreases pending
      {
        var marker :| marker in pending;
        if Contains(text, marker) {
          counts := counts[marker := Get(counts, marker) + PyCount(text, marker)];
        }
        pending := pending - {marker};
      }
      var names := combinations.Keys;
      while names != {}
        invariant names <= combinations.Keys
        invariant forall k :: k in counts <==> (k in combinations && k !in names) || (k in markers && Contains(text, k))
        invariant forall k :: k in combinations && k !in names ==> counts[k] == ComboCount(text, combinations[k])
        invariant forall k :: k in counts && !(k in combinations && k !in names) ==> counts[k] == PyCount(text, k)
        decreases names
      {
        var name :| name in names;
        counts := counts[name := ComboCount(text, combinations[name])];
        names := names - {name};
      }
      return Some(counts);
    }
  }
}
