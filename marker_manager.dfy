/** The marker-file pipeline: loading one marker file by extension, writing
    a sorted marker list, and tallying plain and meta markers over the files
    of a directory while converting every CSV file to a YAML companion. */
module MarkerManager {
  import opened Strings

  datatype Option<T> = None | Some(value: T)

  datatype Result<T, E> = Ok(value: T) | Err(error: E)

  /** One loaded marker: a plain marker name, or a `{meta: name}` record. */
  datatype Entry = Plain(name: string) | Meta(name: string)

  /** The value stored under the `markers` key of a YAML mapping: a list of
      entries, a string (which `list.extend` walks character by character),
      a mapping (which `list.extend` walks key by key, in document order), or
      any other scalar (null, a number, a boolean). */
  datatype Val = VList(items: seq<Entry>) | VText(text: string) | VKeys(keys: seq<string>) | VOther

  /** What `yaml.safe_load` makes of a file: a top-level list, a mapping,
      any other scalar, or a parse failure. */
  datatype Doc = DList(items: seq<Entry>) | DMap(fields: map<string, Val>) | DScalar | Unparsable

  /** Why loading a file raises: the YAML does not parse, or the `markers`
      value cannot be iterated (`list.extend(None)` is a TypeError). */
  datatype LoadError = ParseFailure | NotIterable

  /** A file on disk: its path is `stem + suffix`; `yaml` and `csvRows` are
      what the YAML and the CSV reader make of its text. */
  datatype MarkerFile = MarkerFile(stem: string, suffix: string, yaml: Doc, csvRows: seq<seq<string>>)

  /** A file written by the pipeline: its path and the list dumped into it. */
  datatype Write = Write(path: string, contents: seq<string>)

  /** The entries loaded so far and, if one file failed to load, why. */
  datatype Batch = Batch(entries: seq<Entry>, failure: Option<LoadError>)

  predicate IsYaml(f: MarkerFile) {
    var ext := Lower(f.suffix);
    ext == ".yaml" || ext == ".yml"
  }

  predicate IsCsv(f: MarkerFile) {
    Lower(f.suffix) == ".csv"
  }

  /** The extension filter of the directory walk. */
  predicate Recognised(f: MarkerFile) {
    IsYaml(f) || IsCsv(f)
  }

  /** `markers.extend(value)` for the value under the `markers` key. */
  function ExtendWith(v: Val): Result<seq<Entry>, LoadError> {
    match v
    case VList(items) => Ok(items)
    case VText(t) => Ok(seq(|t|, i requires 0 <= i < |t| => Plain([t[i]])))
    case VKeys(ks) => Ok(seq(|ks|, i requires 0 <= i < |ks| => Plain(ks[i])))
    case VOther => Err(NotIterable)
  }

  /** The marker of each non-empty CSV row: its first field. */
  function FirstFields(rows: seq<seq<string>>): seq<Entry>
    decreases |rows|
  {
    if rows == [] then []
    else
      var row := rows[|rows| - 1];
      FirstFields(rows[..|rows| - 1]) + (if row != [] then [Plain(row[0])] else [])
  }

  /** What `load_markers` returns for a file, or the error it raises. */
  function Load(f: MarkerFile): Result<seq<Entry>, LoadError> {
    if IsYaml(f) then
      match f.yaml
      case Unparsable => Err(ParseFailure)
      case DList(items) => Ok(items)
      case DMap(fields) => if "markers" in fields then ExtendWith(fields["markers"]) else Ok([])
      case DScalar => Ok([])
    else if IsCsv(f) then Ok(FirstFields(f.csvRows))
    else Ok([])
  }

  /** `load_markers`: dispatch on the lower-cased suffix; a YAML list gives
      its items, a mapping its `markers` value, anything else nothing; a CSV
      file gives the first field of each non-empty row. */
  method LoadMarkers(f: MarkerFile) returns (r: Result<seq<Entry>, LoadError>)
    ensures r == Load(f)
  {
    var ext := Lower(f.suffix);
    var markers: seq<Entry> := [];
    if ext == ".yaml" || ext == ".yml" {
      match f.yaml {
        case Unparsable =>
          return Err(ParseFailure);
        case DList(items) =>
          markers := markers + items;
          assert markers == items;
        case DMap(fields) =>
          if "markers" in fields {
            var more := ExtendWith(fields["markers"]);
            if more.Err? {
              return Err(more.error);
            }
            markers := markers + more.value;
            assert markers == more.value;
          }
        case DScalar =>
      }
    } else if ext == ".csv" {
      var rows := f.csvRows;
      var i := 0;
      while i < |rows|
        invariant 0 <= i <= |rows|
        invariant markers == FirstFields(rows[..i])
      {
        var row := rows[i];
        if row != [] {
          markers := markers + [Plain(row[0])];
        }
        assert rows[..i + 1][..i] == rows[..i];
        i := i + 1;
      }
      assert rows[..|rows|] == rows;
    }
    return Ok(markers);
  }

  /** Any extension other than .yaml, .yml and .csv, in any letter case,
      loads nothing. */
  lemma LoadUnrecognised(f: MarkerFile)
    requires !Recognised(f)
    ensures Load(f) == Ok([])
  {
  }

  /** CSV rows are read in order: the markers of a concatenation of rows are
      the markers of the parts, concatenated. */
  lemma {:induction false} FirstFieldsAppend(a: seq<seq<string>>, b: seq<seq<string>>)
    ensures FirstFields(a + b) == FirstFields(a) + FirstFields(b)
    decreases |b|
  {
    if b == [] {
      assert a + b == a;
    } else {
      var b' := b[..|b| - 1];
      assert (a + b)[..|a + b| - 1] == a + b';
      assert (a + b)[|a + b| - 1] == b[|b| - 1];
      FirstFieldsAppend(a, b');
    }
  }

  /** Every CSV marker is plain, and x is one exactly when some non-empty row
      starts with the field x; there is at most one marker per row. */
  lemma {:induction false} FirstFieldsMembers(rows: seq<seq<string>>, x: string)
    ensures forall e :: e in FirstFields(rows) ==> e.Plain?
    ensures Plain(x) in FirstFields(rows) <==> exists row :: row in rows && row != [] && row[0] == x
    ensures |FirstFields(rows)| <= |rows|
    decreases |rows|
  {
    if rows != [] {
      var init := rows[..|rows| - 1];
      FirstFieldsMembers(init, x);
      assert rows == init + [rows[|rows| - 1]];
      if exists row :: row in rows && row != [] && row[0] == x {
        var row :| row in rows && row != [] && row[0] == x;
        if row != rows[|rows| - 1] {
          assert row in init;
        }
      }
    }
  }

  /** The set of marker names among some entries (`set(markers)`). */
  function Names(es: seq<Entry>): set<string> {
    set i | 0 <= i < |es| :: es[i].name
  }

  /** `save_markers_yaml`: the file at `outPath` receives `sorted(markers)`,
      which lists every marker once, in ascending order. */
  function SaveMarkersYaml(markers: set<string>, outPath: string): (w: Write)
    ensures w.path == outPath
    ensures StrictlyAscending(w.contents)
    ensures forall x :: x in w.contents <==> x in markers
    ensures |w.contents| == |markers|
  {
    Write(outPath, SortedSet(markers))
  }

  /** What `yaml.safe_load` gives back for a file written by `yaml.dump`
      from a list of strings: that same list. */
  function Reloaded(w: Write): Doc {
    DList(seq(|w.contents|, i requires 0 <= i < |w.contents| => Plain(w.contents[i])))
  }

  lemma LowerYaml()
    ensures Lower(".yaml") == ".yaml"
  {
    var s := ".yaml";
    assert forall i :: 0 <= i < |s| ==> LowerChar(s[i]) == s[i];
  }

  /** The names among the reloaded entries are the names written. */
  lemma ReloadedNames(w: Write)
    ensures Names(Reloaded(w).items) == set x | x in w.contents
  {
    var es := Reloaded(w).items;
    forall x ensures x in Names(es) <==> x in w.contents {
      if x in w.contents {
        var i :| 0 <= i < |w.contents| && w.contents[i] == x;
        assert es[i].name == x;
      }
      if x in Names(es) {
        var i :| 0 <= i < |es| && es[i].name == x;
        assert w.contents[i] == x;
      }
    }
  }

  /** A `.yaml` file holding a dumped list loads as that list. */
  lemma LoadReloaded(w: Write, stem: string, rows: seq<seq<string>>)
    ensures Load(MarkerFile(stem, ".yaml", Reloaded(w), rows)) == Ok(Reloaded(w).items)
  {
    LowerYaml();
  }

  /** Loading a saved marker file gives back, in order, the sorted list that
      was written, one plain marker per saved name, and so exactly the set
      that was saved. */
  lemma SaveThenLoad(markers: set<string>, stem: string, rows: seq<seq<string>>)
    ensures var w := SaveMarkersYaml(markers, stem + ".yaml");
            var loaded := Load(MarkerFile(stem, ".yaml", Reloaded(w), rows));
            && loaded == Ok(Reloaded(w).items)
            && |loaded.value| == |markers|
            && Names(loaded.value) == markers
  {
    var w := SaveMarkersYaml(markers, stem + ".yaml");
    LoadReloaded(w, stem, rows);
    ReloadedNames(w);
    assert (set x | x in w.contents) == markers;
  }

  /** The companion YAML file written for a CSV file: same stem, suffix
      `.yaml`, holding the file's own markers once each, sorted. */
  function Companion(f: MarkerFile, es: seq<Entry>): Write {
    SaveMarkersYaml(Names(es), f.stem + ".yaml")
  }

  /** The files of a directory walk, loaded in order; the walk stops at the
      first file whose loading raises. */
  function LoadAll(files: seq<MarkerFile>): Batch
    decreases |files|
  {
    if files == [] then Batch([], None)
    else
      var prev := LoadAll(files[..|files| - 1]);
      var f := files[|files| - 1];
      if prev.failure.Some? || !Recognised(f) then prev
      else match Load(f)
        case Err(e) => Batch(prev.entries, Some(e))
        case Ok(es) => Batch(prev.entries + es, None)
  }

  /** The companion files written during the walk: one per CSV file loaded
      before the walk stopped. */
  function CompanionWrites(files: seq<MarkerFile>): seq<Write>
    decreases |files|
  {
    if files == [] then []
    else
      var init := files[..|files| - 1];
      var f := files[|files| - 1];
      if LoadAll(init).failure.Some? || !Recognised(f) || Load(f).Err? then CompanionWrites(init)
      else CompanionWrites(init) + (if IsCsv(f) then [Companion(f, Load(f).value)] else [])
  }

  /** One more file in the walk: skipped, failed, or loaded and (if CSV)
      converted. */
  lemma WalkStep(files: seq<MarkerFile>, i: nat)
    requires i < |files|
    requires LoadAll(files[..i]).failure.None?
    ensures var f := files[i];
            var prev := LoadAll(files[..i]);
            var next := LoadAll(files[..i + 1]);
            && (!Recognised(f) ==> next == prev && CompanionWrites(files[..i + 1]) == CompanionWrites(files[..i]))
            && (Recognised(f) && Load(f).Err? ==>
                  next == Batch(prev.entries, Some(Load(f).error))
                  && CompanionWrites(files[..i + 1]) == CompanionWrites(files[..i]))
            && (Recognised(f) && Load(f).Ok? ==>
                  && next == Batch(prev.entries + Load(f).value, None)
                  && CompanionWrites(files[..i + 1]) == CompanionWrites(files[..i])
                       + (if IsCsv(f) then [Companion(f, Load(f).value)] else []))
  {
    assert files[..i + 1][..i] == files[..i];
  }

  /** Once one file has failed, later files are neither loaded nor converted. */
  lemma {:induction false} FailureStops(files: seq<MarkerFile>, k: nat)
    requires k <= |files|
    requires LoadAll(files[..k]).failure.Some?
    ensures LoadAll(files) == LoadAll(files[..k])
    ensures CompanionWrites(files) == CompanionWrites(files[..k])
    decreases |files| - k
  {
    if k < |files| {
      var init := files[..|files| - 1];
      assert init[..k] == files[..k];
      FailureStops(init, k);
    } else {
      assert files[..k] == files;
    }
  }

  /** The walk only ever appends: the entries loaded from the first k files
      begin the entries of the whole walk. */
  lemma {:induction false} LoadAllPrefix(files: seq<MarkerFile>, k: nat)
    requires k <= |files|
    ensures LoadAll(files[..k]).entries <= LoadAll(files).entries
    decreases |files| - k
  {
    if k < |files| {
      var init := files[..|files| - 1];
      assert init[..k] == files[..k];
      LoadAllPrefix(init, k);
    } else {
      assert files[..k] == files;
    }
  }

  /** A file the walk loads contributes its entries, in order, right after
      those of the files before it. */
  lemma LoadedAmongAll(files: seq<MarkerFile>, i: nat)
    requires i < |files|
    requires LoadAll(files[..i]).failure.None?
    requires Recognised(files[i]) && Load(files[i]).Ok?
    ensures LoadAll(files[..i]).entries + Load(files[i]).value <= LoadAll(files).entries
  {
    WalkStep(files, i);
    LoadAllPrefix(files, i + 1);
  }

  /** The writes a file causes on its own: a companion if it is CSV. */
  function FileWrites(f: MarkerFile): seq<Write>
    requires Load(f).Ok?
  {
    if Recognised(f) && IsCsv(f) then [Companion(f, Load(f).value)] else []
  }

  /** The writes of every file, each on its own, in walk order. */
  function EachFileWrites(files: seq<MarkerFile>): seq<Write>
    requires forall f :: f in files ==> Load(f).Ok?
    decreases |files|
  {
    if files == [] then [] else FileWrites(files[0]) + EachFileWrites(files[1..])
  }

  lemma {:induction false} EachFileWritesAppend(files: seq<MarkerFile>, f: MarkerFile)
    requires forall g :: g in files + [f] ==> Load(g).Ok?
    ensures EachFileWrites(files + [f]) == EachFileWrites(files) + FileWrites(f)
    decreases |files|
  {
    if files != [] {
      assert (files + [f])[1..] == files[1..] + [f];
      EachFileWritesAppend(files[1..], f);
    }
  }

  /** When every file loads, each CSV file causes exactly one companion
      write, whose contents depend on that file alone, and no other file
      causes any. */
  lemma {:induction false} CompanionWritesPerFile(files: seq<MarkerFile>)
    requires forall f :: f in files ==> Load(f).Ok?
    ensures LoadAll(files).failure.None?
    ensures CompanionWrites(files) == EachFileWrites(files)
    decreases |files|
  {
    if files != [] {
      var init := files[..|files| - 1];
      var f := files[|files| - 1];
      assert files == init + [f];
      CompanionWritesPerFile(init);
      EachFileWritesAppend(init, f);
    }
  }

  /** When no file fails, the entries of a walk over two lists of files are
      those of the first list followed by those of the second. */
  lemma {:induction false} LoadAllAppend(a: seq<MarkerFile>, b: seq<MarkerFile>)
    requires LoadAll(a + b).failure.None?
    ensures LoadAll(a).failure.None? && LoadAll(b).failure.None?
    ensures LoadAll(a + b).entries == LoadAll(a).entries + LoadAll(b).entries
    decreases |b|
  {
    if b == [] {
      assert a + b == a;
    } else {
      var b' := b[..|b| - 1];
      assert (a + b)[..|a + b| - 1] == a + b';
      assert (a + b)[|a + b| - 1] == b[|b| - 1];
      LoadAllAppend(a, b');
    }
  }

  function Get(m: map<string, nat>, k: string): nat {
    if k in m then m[k] else 0
  }

  /** `counts[k] += 1` on a defaultdict(int). */
  function Bump(m: map<string, nat>, k: string): map<string, nat> {
    m[k := Get(m, k) + 1]
  }

  function Tag(meta: bool, name: string): Entry {
    if meta then Meta(name) else Plain(name)
  }

  /** `after` is `before` with every plain (or, if `meta`, every meta) entry
      of es counted once more: a name is a key exactly when it was one or
      occurs in es, and its value grows by its number of occurrences. */
  ghost predicate Tallied(after: map<string, nat>, before: map<string, nat>, es: seq<Entry>, meta: bool) {
    && (forall m :: m in after <==> m in before || multiset(es)[Tag(meta, m)] > 0)
    && (forall m :: m in after ==> after[m] == Get(before, m) + multiset(es)[Tag(meta, m)])
  }

  lemma TallyCounted(after: map<string, nat>, before: map<string, nat>, es: seq<Entry>, meta: bool, name: string)
    requires Tallied(after, before, es, meta)
    ensures Tallied(Bump(after, name), before, es + [Tag(meta, name)], meta)
  {
    assert multiset(es + [Tag(meta, name)]) == multiset(es) + multiset{Tag(meta, name)};
  }

  lemma TallyIgnored(after: map<string, nat>, before: map<string, nat>, es: seq<Entry>, meta: bool, e: Entry)
    requires Tallied(after, before, es, meta)
    requires e.Meta? != meta
    ensures Tallied(after, before, es + [e], meta)
  {
    assert multiset(es + [e]) == multiset(es) + multiset{e};
  }

  /** The sum of all counts of a tally. */
  ghost function Total(m: map<string, nat>): nat
    decreases |m|
  {
    if m == map[] then 0 else var k :| k in m; m[k] + Total(m - {k})
  }

  lemma {:induction false} TotalRemove(m: map<string, nat>, k: string)
    requires k in m
    ensures Total(m) == m[k] + Total(m - {k})
    decreases |m|
  {
    var j :| j in m && Total(m) == m[j] + Total(m - {j});
    if j != k {
      TotalRemove(m - {j}, k);
      TotalRemove(m - {k}, j);
      assert m - {j} - {k} == m - {k} - {j};
    }
  }

  /** Counting one more occurrence raises the sum of all counts by one. */
  lemma TotalBump(m: map<string, nat>, k: string)
    ensures Total(Bump(m, k)) == Total(m) + 1
  {
    var m' := Bump(m, k);
    TotalRemove(m', k);
    if k in m {
      TotalRemove(m, k);
      assert m' - {k} == m - {k};
    } else {
      assert m' - {k} == m;
    }
  }

  /** The two tallies of `analyze_markers` after counting es. */
  ghost predicate Counted(plain: map<string, nat>, meta: map<string, nat>, es: seq<Entry>) {
    && Tallied(plain, map[], es, false)
    && Tallied(meta, map[], es, true)
  }

  lemma CountStep(plain: map<string, nat>, meta: map<string, nat>, es: seq<Entry>, e: Entry)
    requires Counted(plain, meta, es)
    ensures e.Meta? ==> Counted(plain, Bump(meta, e.name), es + [e])
    ensures e.Plain? ==> Counted(Bump(plain, e.name), meta, es + [e])
  {
    if e.Meta? {
      TallyCounted(meta, map[], es, true, e.name);
      TallyIgnored(plain, map[], es, false, e);
    } else {
      TallyCounted(plain, map[], es, false, e.name);
      TallyIgnored(meta, map[], es, true, e);
    }
  }

  /** The number of plain (or, if `meta`, meta) entries. */
  function KindCount(es: seq<Entry>, meta: bool): (n: nat)
    ensures n <= |es|
    decreases |es|
  {
    if es == [] then 0
    else KindCount(es[..|es| - 1], meta) + (if es[|es| - 1].Meta? == meta then 1 else 0)
  }

  lemma {:induction false} KindCountSplit(es: seq<Entry>)
    ensures KindCount(es, false) + KindCount(es, true) == |es|
    decreases |es|
  {
    if es != [] {
      KindCountSplit(es[..|es| - 1]);
    }
  }

  lemma TallyOfNothing(t: map<string, nat>, meta: bool)
    requires Tallied(t, map[], [], meta)
    ensures t == map[]
  {
    assert t.Keys == {};
  }

  /** Takes back one count of k. */
  function Unbump(t: map<string, nat>, k: string): map<string, nat>
    requires k in t
  {
    if t[k] <= 1 then t - {k} else t[k := t[k] - 1]
  }

  /** The tally before the last entry, when that entry was counted. */
  lemma TallyBeforeCounted(t: map<string, nat>, init: seq<Entry>, meta: bool, k: string)
    requires Tallied(t, map[], init + [Tag(meta, k)], meta)
    ensures k in t
    ensures Tallied(Unbump(t, k), map[], init, meta)
    ensures t == Bump(Unbump(t, k), k)
  {
    var x := Tag(meta, k);
    var before := multiset(init);
    assert multiset(init + [x]) == before + multiset{x};
    assert k in t;
    var u := Unbump(t, k);
    forall m ensures m in u <==> before[Tag(meta, m)] > 0 {
      if m != k {
        assert Tag(meta, m) != x;
      }
    }
    forall m | m in u ensures u[m] == before[Tag(meta, m)] {
      if m != k {
        assert Tag(meta, m) != x;
      }
    }
    assert Bump(u, k).Keys == t.Keys;
  }

  /** The tally before the last entry, when that entry was of the other kind. */
  lemma TallyBeforeIgnored(t: map<string, nat>, init: seq<Entry>, meta: bool, e: Entry)
    requires Tallied(t, map[], init + [e], meta)
    requires e.Meta? != meta
    ensures Tallied(t, map[], init, meta)
  {
    assert multiset(init + [e]) == multiset(init) + multiset{e};
    assert forall m :: Tag(meta, m) != e;
  }

  /** A tally started from nothing sums to the number of entries of its
      kind: every counted entry adds exactly one. */
  lemma {:induction false} TallySum(t: map<string, nat>, es: seq<Entry>, meta: bool)
    requires Tallied(t, map[], es, meta)
    ensures Total(t) == KindCount(es, meta)
    decreases |es|
  {
    if es == [] {
      TallyOfNothing(t, meta);
    } else {
      var init := es[..|es| - 1];
      var e := es[|es| - 1];
      assert es == init + [e];
      if e.Meta? == meta {
        assert e == Tag(meta, e.name);
        TallyBeforeCounted(t, init, meta, e.name);
        TallySum(Unbump(t, e.name), init, meta);
        TotalBump(Unbump(t, e.name), e.name);
      } else {
        TallyBeforeIgnored(t, init, meta, e);
        TallySum(t, init, meta);
      }
    }
  }

  /** The plain and the meta tally together count every entry once. */
  lemma TalliesSumToEntries(plain: map<string, nat>, meta: map<string, nat>, es: seq<Entry>)
    requires Counted(plain, meta, es)
    ensures Total(plain) + Total(meta) == |es|
  {
    TallySum(plain, es, false);
    TallySum(meta, es, true);
    KindCountSplit(es);
  }

  /** Every `{meta: ...}` record names a non-empty meta marker. A record
      with an empty or missing `meta` would be used as a key of the plain
      tally, and a dict is not hashable. */
  predicate MetaNamed(es: seq<Entry>) {
    forall i :: 0 <= i < |es| && es[i].Meta? ==> es[i].name != ""
  }

  /** A run of entries inside a list whose meta records are all named has
      only named meta records. */
  lemma MetaNamedPart(es: seq<Entry>, before: seq<Entry>, part: seq<Entry>)
    requires before + part <= es
    requires MetaNamed(es)
    ensures MetaNamed(part)
  {
    forall j | 0 <= j < |part| && part[j].Meta? ensures part[j].name != "" {
      assert part[j] == (before + part)[|before| + j] == es[|before| + j];
    }
  }

  /** The inner loop of `analyze_markers`: a `{meta: name}` record with a
      non-empty name adds one to the meta tally, any other entry adds one to
      the plain tally. */
  method CountEntries(plain: map<string, nat>, meta: map<string, nat>, es: seq<Entry>, ghost seen: seq<Entry>)
    returns (plain': map<string, nat>, meta': map<string, nat>)
    requires MetaNamed(es)
    requires Counted(plain, meta, seen)
    ensures Counted(plain', meta', seen + es)
  {
    plain', meta' := plain, meta;
    var j := 0;
    assert seen + es[..0] == seen;
    while j < |es|
      invariant 0 <= j <= |es|
      invariant Counted(plain', meta', seen + es[..j])
    {
      var marker := es[j];
      assert seen + es[..j + 1] == seen + es[..j] + [marker];
      CountStep(plain', meta', seen + es[..j], marker);
      if marker.Meta? && marker.name != "" {
        meta' := Bump(meta', marker.name);
      } else {
        plain' := Bump(plain', marker.name);
      }
      j := j + 1;
    }
    assert es[..|es|] == es;
  }

  /** `analyze_markers` over the files of a directory, in walk order: counts
      every plain and every meta entry of every recognised file, with no
      deduplication, and writes a companion for every CSV file. A file that
      fails to load ends the walk; the companions written before it stay. */
  method AnalyzeMarkers(files: seq<MarkerFile>)
    returns (outcome: Result<(map<string, nat>, map<string, nat>), LoadError>, written: seq<Write>)
    requires MetaNamed(LoadAll(files).entries)
    ensures written == CompanionWrites(files)
    ensures outcome.Err? <==> LoadAll(files).failure.Some?
    ensures outcome.Err? ==> outcome.error == LoadAll(files).failure.value
    ensures outcome.Ok? ==> Tallied(outcome.value.0, map[], LoadAll(files).entries, false)
    ensures outcome.Ok? ==> Tallied(outcome.value.1, map[], LoadAll(files).entries, true)
    ensures outcome.Ok? ==> Total(outcome.value.0) + Total(outcome.value.1) == |LoadAll(files).entries|
  {
    var allMarkers: map<string, nat> := map[];
    var metaMarkers: map<string, nat> := map[];
    written := [];
    ghost var seen: seq<Entry> := [];
    var i := 0;
    assert files[..0] == [];
    while i < |files|
      invariant 0 <= i <= |files|
      invariant LoadAll(files[..i]) == Batch(seen, None)
      invariant written == CompanionWrites(files[..i])
      invariant Counted(allMarkers, metaMarkers, seen)
    {
      var file := files[i];
      WalkStep(files, i);
      if Recognised(file) {
        var loaded := LoadMarkers(file);
        if loaded.Err? {
          FailureStops(files, i + 1);
          return Err(loaded.error), written;
        }
        var markers := loaded.value;
        LoadedAmongAll(files, i);
        MetaNamedPart(LoadAll(files).entries, seen, markers);
        allMarkers, metaMarkers := CountEntries(allMarkers, metaMarkers, markers, seen);
        seen := seen + markers;
        assert LoadAll(files[..i + 1]) == Batch(seen, None);
        if IsCsv(file) {
          written := written + [SaveMarkersYaml(Names(markers), file.stem + ".yaml")];
        }
      } else {
        assert LoadAll(files[..i + 1]) == Batch(seen, None);
      }
      assert LoadAll(files[..i + 1]) == Batch(seen, None);
      assert written == CompanionWrites(files[..i + 1]);
      i := i + 1;
    }
    assert files[..|files|] == files;
    TalliesSumToEntries(allMarkers, metaMarkers, seen);
    return Ok((allMarkers, metaMarkers)), written;
  }

  /** A walk that fails on its first file never reaches a later file, so a
      nameless meta record there is never counted and the walk may be
      analysed: the result is the parse error. */
  lemma FailureHidesLaterRecords()
    ensures var files := [MarkerFile("bad", ".yaml", Unparsable, []),
                          MarkerFile("later", ".yaml", DList([Meta("")]), [])];
            && LoadAll(files) == Batch([], Some(ParseFailure))
            && MetaNamed(LoadAll(files).entries)
  {
    LowerYaml();
    var files := [MarkerFile("bad", ".yaml", Unparsable, []),
                  MarkerFile("later", ".yaml", DList([Meta("")]), [])];
    assert files[..1][..0] == [];
    assert LoadAll(files[..1]) == Batch([], Some(ParseFailure));
    FailureStops(files, 1);
  }

  /** A `{meta: x}` record never touches the plain tally. */
  lemma MetaNeverPlain(plain: map<string, nat>, es: seq<Entry>, x: string)
    requires Tallied(plain, map[], es, false)
    requires forall i :: 0 <= i < |es| ==> es[i] != Plain(x)
    ensures x !in plain
  {
    assert multiset(es)[Plain(x)] == 0;
  }
}
