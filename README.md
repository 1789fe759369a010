# Marker manager and Omni-Tool, modelled in Dafny

This project models the marker pipeline of the repository:

- **`load_markers`** reads one marker file according to its lower-cased
  suffix. A YAML file gives the items of a top-level list, or the value under
  the `markers` key of a top-level mapping. A CSV file gives the first field
  of every non-empty row. Any other file gives nothing.
- **`save_markers_yaml`** writes `sorted(markers)` to a path.
- **`analyze_markers`** walks the files of a directory. It counts every plain
  marker and every `{meta: name}` record, with no deduplication, and
  converts each CSV file into a YAML companion holding its distinct markers,
  sorted.
- **`OmniTool`** keeps a per-session tally of markers (`markers`) and a
  registry of named combinations (`combinations`). It loads a directory or a
  single file into the tally, stores a combination picked from the sorted
  marker listing, and scans a text. The scan reports the non-overlapping
  occurrence count of every marker found in the text, and the summed count
  of every combination.

Layout:

- `strings.dfy` (module `Strings`): ASCII lower-casing and `endswith`.
  Python's string order, proved to be a strict total order. `sorted()` of a
  set of strings, proved to be the only ascending, duplicate-free listing of
  that set.
- `occurrences.dfy` (module `Occurrences`): `pat in text` and
  `text.count(pat)` as Python defines them, including the empty pattern.
- `marker_manager.dfy` (module `MarkerManager`): files, loading, saving, the
  directory walk and the two tallies.
- `omni_tool.dfy` (module `Omni`): class `OmniTool` with the fields
  `markers` and `combinations`, and its four commands.

A file is a value: its stem and suffix, what the YAML parser makes of its
text (`Doc`), and what the CSV reader makes of it (rows of fields). Writing a
file is a `Write(path, contents)` value returned by the operation. A
directory is the sequence of its files in walk order. A dialog answer is a
parameter: `None` for a cancelled file or directory dialog, `""` for a
cancelled or empty string prompt, and a set of picked names for the
listbox selection.

Under the `markers` key, a list gives its items, a string its characters
and a mapping its keys in document order, as `list.extend` walks them.
Loading can raise: `ParseFailure` when the YAML does not parse, and
`NotIterable` when `markers:` holds a null, a number or a boolean, since
`list.extend` rejects those. A raise in the middle of a directory walk ends
the walk, and no later file is read. In `analyze_markers` the tallies are
lost with the raise; only the companion files written before it stay, and
the model returns the error with those writes. In the Omni-Tool the
companion files stay, and so do the cleared tally and the counts made
before the failing file; the model returns the error beside that state.

## Model

| member | source | states |
|---|---|---|
| MarkerManager.LoadMarkers | scripts/marker_manager.py:7-23 | The loop over CSV rows and the YAML dispatch compute `Load(f)`: the list items, the `markers` value (a string is walked character by character, a mapping key by key; a non-iterable value is an error), nothing for any other document, the first field of every non-empty CSV row, and the parse error. |
| MarkerManager.LoadUnrecognised | scripts/marker_manager.py:7-23 | A suffix other than .yaml, .yml or .csv, in any letter case, loads the empty list. |
| MarkerManager.FirstFieldsAppend | scripts/marker_manager.py:19-22 | Rows are read in order: the markers of concatenated rows are the concatenated markers. |
| MarkerManager.FirstFieldsMembers | scripts/marker_manager.py:19-22 | CSV markers are all plain. x is a marker exactly when some non-empty row starts with x. There is at most one marker per row. |
| MarkerManager.SaveMarkersYaml | scripts/marker_manager.py:26-28 | The written list goes to the given path, lists every saved marker exactly once, and is strictly ascending in Python's string order. |
| MarkerManager.SaveThenLoad | scripts/marker_manager.py:13-28 | Reloading a saved `.yaml` file gives back the sorted list, one plain marker per saved name, so the set of names is the saved set. |
| MarkerManager.WalkStep | scripts/marker_manager.py:36-48 | One step of the walk: an unrecognised file changes nothing; a failing file records its error and writes nothing; a loaded file appends its entries and, if it is CSV, its companion. |
| MarkerManager.FailureStops | scripts/marker_manager.py:36-38 | After the first failing file, no later file is loaded or converted. |
| MarkerManager.LoadAllAppend | scripts/marker_manager.py:36-44 | When no file fails, the entries of a walk over two runs of files are the entries of the first run followed by those of the second. |
| MarkerManager.CompanionWritesPerFile | scripts/marker_manager.py:45-48 | When every file loads, each CSV file causes exactly one companion write, determined by that file alone, and no other file causes any. |
| MarkerManager.TallyCounted | scripts/marker_manager.py:42-44 | Incrementing a defaultdict entry keeps the tally correct for the entries seen plus one more entry of its kind. |
| MarkerManager.TallyIgnored | scripts/marker_manager.py:40-44 | An entry of the other kind leaves a tally correct for the longer list. |
| MarkerManager.TotalBump | scripts/marker_manager.py:42-44 | One increment raises the sum of all counts by exactly one. |
| MarkerManager.CountStep | scripts/marker_manager.py:40-44 | Bumping a meta record's name in the meta tally, or a plain entry's name in the plain tally, keeps both tallies exact for the entries seen plus that one. |
| MarkerManager.KindCountSplit | scripts/marker_manager.py:39-44 | Every entry is of exactly one kind. |
| MarkerManager.TallySum | scripts/marker_manager.py:39-44 | A tally started empty sums to the number of entries of its kind. |
| MarkerManager.TalliesSumToEntries | scripts/marker_manager.py:39-44 | The plain and the meta tally together count every loaded entry exactly once: there is no deduplication and nothing is lost. |
| MarkerManager.CountEntries | scripts/marker_manager.py:39-44 | The loop over one file's entries, routing a `{meta: name}` record with a non-empty name to the meta tally and everything else to the plain tally, extends both tallies by exactly that file's plain and meta entries. |
| MarkerManager.LoadAllPrefix | scripts/marker_manager.py:36-44 | The walk only appends: the entries loaded from the first files begin the entries of the whole walk. |
| MarkerManager.LoadedAmongAll | scripts/marker_manager.py:36-44 | A file the walk loads contributes its entries, in order, right after those of the files before it. |
| MarkerManager.FailureHidesLaterRecords | scripts/marker_manager.py:36-38 | A walk whose first file does not parse ends with that error and counts nothing, even when a later file holds a nameless meta record, which is never read. |
| MarkerManager.AnalyzeMarkers | scripts/marker_manager.py:31-49 | The companion writes are those of the walk. The result is an error exactly when the walk fails, and then it is that error. Otherwise each marker's count is its number of occurrences across all loaded files, a name is a key only if it occurs, and the two tallies sum to the number of loaded entries. |
| MarkerManager.MetaNeverPlain | scripts/marker_manager.py:40-44 | A name that never appears as a plain entry is not a key of the plain tally, even when it appears as a meta record. |
| Strings.LessIsStrictOrder | scripts/marker_manager.py:28 | Python's `<` on str is irreflexive, transitive and total. |
| Strings.LeastExists | scripts/marker_manager.py:28 | Every non-empty set of strings has a least element. |
| Strings.SortedSet | scripts/marker_manager.py:28 | `sorted(set)` has as many elements as the set, lists exactly its members, and is strictly ascending. |
| Strings.AscendingListingsEqual | scripts/marker_manager.py:28 | Two strictly ascending listings of the same members are equal. |
| Strings.SortedSetIsTheListing | scripts/omni_tool.py:84-90 | Any strictly ascending listing of a set is `sorted` of that set, so the listbox order is determined by the keys alone. |
| Occurrences.ContainsWindow | scripts/omni_tool.py:108 | `pat in text` holds exactly when some window of the text equals pat. |
| Occurrences.CountPositiveIffContains | scripts/omni_tool.py:108-109 | `text.count(pat)` is positive exactly when `pat in text`, including the empty pattern. |
| Occurrences.CountFits | scripts/omni_tool.py:109 | Counted matches do not overlap: count times the pattern length is at most the text length. |
| Occurrences.CountRepeated | scripts/omni_tool.py:109 | n back-to-back copies of a non-empty pattern count exactly n times. |
| Occurrences.OverlapCountsOnce | scripts/omni_tool.py:109 | "aa" sits at positions 0 and 1 of "aaa", yet is counted once. |
| Omni.ComboCountAppend | scripts/omni_tool.py:111 | A combination's count is additive over its list of constituents. |
| Omni.ComboCountPositive | scripts/omni_tool.py:111 | A combination's count is positive exactly when one of its constituents occurs in the text. |
| Omni.ScannedMarker | scripts/omni_tool.py:107-109 | A marker that is not also a combination name is reported exactly when its count is positive, and then with that count. |
| Omni.ScannedUnique | scripts/omni_tool.py:106-112 | There is only one scan result for a text, so the order in which dictionaries are iterated does not matter. |
| Omni.OmniTool.constructor | scripts/omni_tool.py:18-19 | A new session has no markers and no combinations. |
| Omni.OmniTool.CountFile | scripts/omni_tool.py:57-59 | Each entry of a file adds one to its marker's count. |
| Omni.OmniTool.LoadDirectory | scripts/omni_tool.py:46-60 | A cancelled dialog changes nothing. Otherwise the tally is rebuilt from nothing to count every entry the walk loads. The error, if any, is that of the first failing file. The companion writes are one per CSV file loaded before the failure. |
| Omni.OmniTool.AddFile | scripts/omni_tool.py:62-72 | A cancelled dialog or a failing load changes nothing. Otherwise every entry adds one to its marker's count, no count drops, and a path ending in `.csv` in any letter case gets a YAML companion. |
| Omni.OmniTool.CreateCombination | scripts/omni_tool.py:74-94 | Nothing is stored when no markers are loaded, the name is empty or cancelled, or nothing is selected. Otherwise the name maps to the selection in sorted listing order, replacing an earlier combination of that name. |
| Omni.OmniTool.AnalyzeText | scripts/omni_tool.py:96-112 | Nothing is reported when neither markers nor combinations exist or the text is empty. Otherwise the report has exactly the markers that occur, with their counts, and every combination with the sum of its constituents' counts, overriding a marker of the same name. |

## Left out

- The tkinter window, buttons, message boxes and the log pane are not modelled. Dialog answers are parameters, and log lines are not produced.
- Parsing YAML and CSV is not modelled: a file carries what the parser and the reader make of it. Errors the CSV reader raises are not modelled.
- Reading and writing files is not modelled: a written file is a returned `Write` value. The walk does not see companion files it writes itself, and directory paths are not modelled (a path is stem plus suffix).
- `Path.rglob` order is not modelled: a directory is its files in an arbitrary but fixed order.
- `os.path.isfile` in `analyze_text` is not modelled. The text is the string already read; a path is treated like any other text.
- `main` in both scripts, with its argument parsing and printing, is not modelled.
- Lower: only ASCII letters are lower-cased. Python's `str.lower` also maps non-ASCII letters.
- YAML items that are neither strings nor `{meta: ...}` mappings (numbers, lists, mappings without `meta`) are not modelled. Used as tally keys they would raise a TypeError for unhashable values, or count under a non-string key.
- MarkerManager.AnalyzeMarkers requires every `{meta: ...}` record the walk loads to have a non-empty name. Such a record with an empty name is a dict used as a tally key, which raises; records in files after a failing file are never loaded and are not constrained.
- Omni.OmniTool.LoadDirectory requires every entry the walk loads to be plain. A `{meta: ...}` record in the Omni-Tool is a dict used as a key and raises; files after a failing file are never loaded and are not constrained.
- Omni.OmniTool.AddFile requires every entry of the loaded file to be plain, for the same reason as LoadDirectory.
- Omni.OmniTool.CreateCombination takes the selection when the name is entered. The source reads it when the Save button is pressed, possibly after the tally has changed; that timing is not modelled.
- Omni.OmniTool.LoadDirectory counts a file's entries before recording its companion write, while the source writes first. Both steps always succeed once the file has loaded, so the resulting state is the same.
