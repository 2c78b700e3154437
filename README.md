# o365_ip — a verified model of the version-gated fetch-and-diff pipeline

`o365_ip.py` polls the Microsoft Office 365 endpoint service. On each run it
fetches the published version. If that version equals the one it committed
last time, the run stops. Otherwise it fetches the endpoint records and
collects their IP addresses into a deduplicated set. It can also write a
delta (addresses added and removed) against the previous snapshot. Then it
writes the new snapshot and commits the version.

This project models that core in Dafny and proves its properties:

- `state_line.dfy` (module `StateLine`): the single-line state files.
  `print(value)` writes `value + "\n"`. Reading takes the first line and
  applies `str.rstrip()`.
- `state_store.dfy` (module `StateStore`): the state files as a
  `map<path, Content>`. `Disk` is a class whose methods remove and write
  files in place.
- `collector.dfy` (module `Collector`): `get_ip_addresses` after the fetch.
  It is a method with two nested loops, specified by `Collected`.
- `delta.dfy` (module `Delta`): the two loops of `generate_delta`, specified
  by `Minus` (ordered set difference).
- `version_gate.dfy` (module `VersionGate`): `get_versions`,
  `get_version_info`, the sentinel `"42"` and the committed version text.
- `pipeline.dfy` (module `Pipeline`): `main` as the method `Run` on a `Disk`.
  It is specified by the function `Main`, and the lemmas about runs are
  stated on `Main`.

The two network calls are inputs. `Run` takes the version object (a
`map<string, string>`) and the record list (`seq<Record>`). `sys.exit(0)`
becomes the outcome `Skipped`. Two exceptions that end the run are modelled,
as the outcome `Failed`: opening a state file at the empty path
(`CannotOpen`), and a previous snapshot that is not a JSON object
(`SnapshotUnreadable`).

Some behaviours of the code are easy to misread; the model follows the code:

- With `--force` the code does not override the version gate. It deletes the
  version file, so the gate compares against `"42"`. A forced run therefore
  stops when the service publishes `"42"` (`Pipeline.ForcedRun`).
- A missing version file is not a distinct "not found" value. It is the
  ordinary string `"42"`, which a published version can equal
  (`VersionGate.FirstRunGate`).
- The collected set and the delta lists have a definite order: the order in
  which addresses are first seen, because the code uses dicts and lists.
  That order is proved (`Collector.CollectedFirstSeenOrder`,
  `Delta.MinusConcat`).
- A version object without `latest` gives `None`. `print(None)` commits the
  text `"None"`, and `None` never equals a string, so such runs never stop at
  the gate (`VersionGate.MissingLatestNeverUpToDate`).

`Main` and `Run` accept any paths, as the code does. That includes an empty
path (opening it fails) and two options naming the same file (a later step then
sees what an earlier one wrote). The lemmas about whole runs in `Pipeline`,
apart from the frame lemmas and `ForceActsAsFirstRun`, assume distinct
non-empty state paths (`Pipeline.SeparatePaths`). With aliased or empty paths
those properties can fail: for example, a forced run whose delta file is the
version file stops when the service publishes `"{}"`, and a run with an empty
version path never completes.

## Model

| member | source | states |
|---|---|---|
| `StateLine.Rstrip` | o365_ip.py:104 | the result is the longest prefix of the line that does not end in whitespace, and only whitespace is dropped |
| `StateLine.FirstLine` | o365_ip.py:104 | the result is the prefix before the first line break, and it holds no line break |
| `StateLine.FirstLineOfWritten` | o365_ip.py:104-110 | the first line of `value + "\n"` is `value` when `value` has no line break |
| `StateLine.FirstLineStopsAtBreak` | o365_ip.py:104 | the first line ends at or before any line break in the text |
| `StateLine.ReadWriteRoundTrip` | o365_ip.py:101-110 | reading back a written state value returns it exactly when it has no line break and no trailing whitespace (both directions) |
| `StateLine.ReadStateStable` | o365_ip.py:101-110 | a value read from a state file is clean, so writing it and reading it again gives it unchanged |
| `StateStore.Write` | o365_ip.py:63 | opening for writing fails exactly on the empty path; otherwise the path then holds the new content, and no other path changes |
| `StateStore.Disk.RemoveIfFile` | o365_ip.py:27-32 | the file is removed if it exists, and nothing else changes; afterwards it does not exist |
| `StateStore.Disk.WriteFile` | o365_ip.py:63 | success exactly when the path can be opened; the new file map is the old one with that path replaced |
| `Collector.InsertAllProperties` | o365_ip.py:154-156 | dict-key insertion keeps existing keys where they are, holds exactly the old keys and the inserted ones, and never duplicates a key |
| `Collector.InsertAllConcat` | o365_ip.py:150-156 | inserting two runs in turn is inserting their concatenation |
| `Collector.FirstIndex` | o365_ip.py:148-156 | returns the position of the first occurrence, with no earlier occurrence |
| `Collector.FirstIndexOfPrefix` | o365_ip.py:148-156 | appending does not move the first occurrence of an element already present |
| `Collector.StreamMembership` | o365_ip.py:150-156 | an address is offered exactly when some admitted record lists it |
| `Collector.CollectedMembership` | o365_ip.py:150-156 | an IP is collected iff some record has an `ips` field that lists it and is required or optional IPs are included; records without `ips` contribute nothing |
| `Collector.CollectedNoDuplicates` | o365_ip.py:148-156 | every collected IP appears once, even when several records list it |
| `Collector.FirstSeenOrder` | o365_ip.py:148-156 | inserting a sequence orders its distinct elements by first occurrence |
| `Collector.CollectedFirstSeenOrder` | o365_ip.py:148-156 | the collected IPs are ordered by where each was first offered, so a repeat never moves a key |
| `Collector.CollectedStep` | o365_ip.py:150-156 | one more record only appends its new addresses in its own order; the earlier set is a prefix |
| `Collector.RequiredOnlyIsSubset` | o365_ip.py:153-156 | excluding optional IPs never adds an IP |
| `Collector.CollectIps` | o365_ip.py:145-157 | the nested loops over records and their `ips` compute exactly the collected set |
| `Delta.MinusMembership` | o365_ip.py:124-131 | an element is kept iff it is in the first sequence and not in the second |
| `Delta.MinusConcat` | o365_ip.py:124-131 | the difference is taken piecewise, so it keeps the first sequence's order |
| `Delta.MinusNoDuplicates` | o365_ip.py:124-131 | a duplicate-free set gives a duplicate-free difference |
| `Delta.MinusBounds` | o365_ip.py:116-131 | the difference is empty iff everything is in the second sequence; against an empty snapshot it is the whole set |
| `Delta.AddRemoveDisjoint` | o365_ip.py:124-131 | `add` and `remove` share no IP |
| `Delta.DiffSelf` | o365_ip.py:124-131 | diffing a set against itself gives empty lists |
| `Delta.DeltaApplies` | o365_ip.py:124-131 | an IP is in the new set iff it is added, or it was in the snapshot and is not removed |
| `Delta.Diff` | o365_ip.py:115-131 | the two loops build `add` = new minus previous in the new order and `remove` = previous minus new in the previous order |
| `VersionGate.GetVersionInfo` | o365_ip.py:94-98 | the result is present exactly when `latest` is a key, and it is then that value |
| `VersionGate.PreviousVersionRead` | o365_ip.py:72-78 | without a version file the previous version is "42"; otherwise it is the first line of the file, right-stripped |
| `VersionGate.CommitThenGate` | o365_ip.py:80-91 | a committed version is read back exactly when it is clean, and the next run with that version then stops at the gate |
| `VersionGate.MissingLatestNeverUpToDate` | o365_ip.py:94-98 | a version object without `latest` never matches the previous version, and committing it writes "None" |
| `VersionGate.NoneIsClean` | o365_ip.py:110 | the text "None" that `print(None)` writes reads back unchanged |
| `VersionGate.FirstRunGate` | o365_ip.py:72-80 | with no version file the gate stops exactly when the service publishes "42" |
| `Pipeline.ResetFiles` | o365_ip.py:25-36 | force removes the delta, version and snapshot files; then a configured delta file holds `{}`; fails only if it cannot be opened |
| `Pipeline.GenerateDelta` | o365_ip.py:113-134 | reads the snapshot (empty if absent) and writes the delta; an unreadable snapshot fails with no file changed |
| `Pipeline.Run` | o365_ip.py:21-57 | the step-by-step run leaves exactly the outcome and files that `Main` gives |
| `Pipeline.ResetStateFacts` | o365_ip.py:25-36 | with separate paths the resets cannot fail, leave `{}` in the delta file and keep the snapshot and version file |
| `Pipeline.DiffAndDumpFacts` | o365_ip.py:49-54 | with distinct non-empty state paths, the delta is taken against the snapshot still on disk, the snapshot then holds the collected set, and the version file is untouched |
| `Pipeline.ResetStateFrame` | o365_ip.py:25-36 | the resets touch no file other than the state files |
| `Pipeline.DiffAndDumpFrame` | o365_ip.py:49-54 | the delta and snapshot writes touch no other file |
| `Pipeline.OnlyStateFilesChange` | o365_ip.py:21-57 | a run changes no file other than the three state files |
| `Pipeline.SkipIff` | o365_ip.py:35-43 | with distinct non-empty state paths, a run stops iff the published version equals the previous one; a skipped run leaves the snapshot and version file as the reset left them, and `{}` in the delta file |
| `Pipeline.CompletedRun` | o365_ip.py:45-55 | with distinct non-empty state paths, a run completes iff the gate lets it through and the snapshot is readable; the delta is then against the old snapshot, the snapshot holds the collected set and the version file the new version |
| `Pipeline.UnfinishedRunKeepsVersion` | o365_ip.py:45-55 | with distinct non-empty state paths, a run that does not complete never writes the version file |
| `Pipeline.ForceActsAsFirstRun` | o365_ip.py:25-32 | a forced run equals an unforced run on the file system without the three state files |
| `Pipeline.ForcedRun` | o365_ip.py:25-43 | with distinct non-empty state paths, a forced run stops iff "42" is published; when it completes, the delta adds the whole set and removes nothing |
| `Pipeline.RerunSkips` | o365_ip.py:39-43 | with distinct non-empty state paths, after a completed run with a clean version, an unforced rerun with the same version stops and keeps the snapshot and version file |
| `Pipeline.InterruptedCommitConverges` | o365_ip.py:53-55 | with distinct non-empty state paths, if a run stops between the snapshot write and the version commit, the next run proceeds and ends with the same snapshot and version file; unforced, its delta is empty |
| `Pipeline.ExampleRun` | o365_ip.py:21-57 | snapshot {1.2.3.4}, version "A", published "B": the run completes and commits "B" |
| `Pipeline.ExampleDelta` | o365_ip.py:46-54 | in that example the snapshot becomes {1.2.3.4, 5.6.7.8} and the delta adds 5.6.7.8 and removes nothing |
| `Pipeline.ExampleVersions` | o365_ip.py:101-104 | a version file holding "A\n" reads "A" |
| `Pipeline.ExampleCollected` | o365_ip.py:145-157 | one required record listing 1.2.3.4 and 5.6.7.8 collects exactly those two, in that order |
| `Pipeline.ExampleMinus` | o365_ip.py:124-131 | the example's delta lists are ["5.6.7.8"] and [] |

## Left out

- Network I/O (`requests.get(...).json()`): the version object and the record list are inputs to `Run`.
- A fetch that raises (connection error or a body that is not JSON, for the version or for the records) is not modelled. In the code it ends the run after the resets: the force removals have happened and a configured delta file holds `{}`, while the snapshot and the version file stay as the resets left them.
- `init()`: argument parsing, log setup, client GUID generation with `uuid.uuid4()` and URL building. The options arrive as an `Options` value.
- Logging calls, and the process exit itself. `sys.exit(0)` is the outcome `Skipped`. Only the two modelled exceptions, `CannotOpen` and `SnapshotUnreadable`, are the outcome `Failed`.
- `init_deltafile`: it is never called.
- JSON formatting: `indent=2` versus compact output. A snapshot is the sequence of its keys. The delta is its two lists. The marker value 42 is not kept.
- JSON that is not of the shapes this program writes. A file read as a snapshot that holds a text line counts as unreadable, even if that text happens to be a valid JSON list, string or object (`json.load` would read `{}` from the text `{}`). A snapshot is a sequence of keys, so an object with repeated keys keeps each repeat, and the delta can list such a key twice; `json.load` keeps it once. A JSON file read as a version gives `"{}"` or `"{"`, which is the first line of JSON as this program writes it.
- Field types in fetched data are not modelled. `latest` is always a string, `ips` is a list of strings, and `required` is a boolean. A record with a non-empty `ips` that lacks `required` makes the source raise (a `KeyError` at o365_ip.py:153); that is not modelled.
- File-system failures other than the empty path, on removal, reading or writing: permissions, missing directories, or a directory at the path. Paths are compared as strings, so two spellings of one file are different paths.
- Character decoding. Files hold Unicode text, and `str.isspace` is modelled as a fixed list of whitespace characters.
- Crashes inside a single write, and concurrent runs against the same files.
