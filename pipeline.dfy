/**
 * The orchestration of one run (o365_ip.py, `main`) over the persisted state
 * files. The two network calls are inputs: the version object and the record
 * list the service returned. `sys.exit(0)` on an unchanged version is the
 * outcome `Skipped`; an exception that ends the run is `Failed`.
 */
module Pipeline {
  import opened Wrappers
  import StateLine
  import opened StateStore
  import opened Collector
  import opened Delta
  import opened VersionGate

  /** The options `main` reads; a delta file is configured when `deltafile` is present. */
  datatype Options = Options(
    force: bool,
    outfile: string,
    verfile: string,
    deltafile: Option<string>,
    includeOptional: bool)

  datatype Failure =
    | CannotOpen(path: string)          // `open(path, 'w')` raised
    | SnapshotUnreadable(path: string)  // `json.load` on the previous snapshot raised

  datatype Outcome = Skipped | Completed | Failed(failure: Failure)

  /** How a run ended and the files it left behind. */
  datatype RunResult = RunResult(outcome: Outcome, files: Files)

  /**
   * The file system with the three state files gone: the delta file (its path
   * tested for truthiness), the version file and the snapshot.
   */
  function Cleared(o: Options, files: Files): Files {
    var f := if o.deltafile.Some? && o.deltafile.value != "" then Removed(files, o.deltafile.value) else files;
    Removed(Removed(f, o.verfile), o.outfile)
  }

  /** The force reset clears the state files only when `--force` is given. */
  function ForceReset(o: Options, files: Files): Files {
    if o.force then Cleared(o, files) else files
  }

  /** The keys of the previous snapshot; an absent snapshot is the empty object. */
  function Baseline(files: Files, outfile: string): Option<seq<string>> {
    if IsFile(files, outfile) then LoadKeys(files[outfile]) else Some([])
  }

  /** The resets before the version check: the force reset, then `{}` in a configured delta file. */
  function ResetState(o: Options, files: Files): Option<Files> {
    var reset := ForceReset(o, files);
    if o.deltafile.Some? then Write(reset, o.deltafile.value, KeyObject([])) else Some(reset)
  }

  /**
   * `generate_delta`: the delta of `data` against the snapshot on disk (an
   * absent snapshot is empty), written to the delta file.
   */
  function DeltaWritten(files: Files, data: seq<string>, outfile: string, deltafile: string): Result<Files, Failure> {
    match Baseline(files, outfile)
    case None => Err(SnapshotUnreadable(outfile))
    case Some(previous) =>
      match Write(files, deltafile, DeltaObject(Minus(data, previous), Minus(previous, data)))
      case None => Err(CannotOpen(deltafile))
      case Some(h) => Ok(h)
  }

  /**
   * After the gate let the run through: the delta when a delta file is
   * configured, then the new snapshot. `Completed` here means the snapshot
   * has been written.
   */
  function DiffAndDump(o: Options, files: Files, ips: seq<string>): RunResult {
    var delta := if o.deltafile.Some? then DeltaWritten(files, ips, o.outfile, o.deltafile.value) else Ok(files);
    match delta
    case Err(failure) => RunResult(Failed(failure), files)
    case Ok(g) =>
      match Write(g, o.outfile, KeyObject(ips))
      case None => RunResult(Failed(CannotOpen(o.outfile)), g)
      case Some(h) => RunResult(Completed, h)
  }

  /** Every step of `main` up to and including the snapshot write, but not the version commit. */
  function UpToSnapshot(o: Options, files: Files, versionInfo: map<string, string>, records: seq<Record>): RunResult {
    match ResetState(o, files)
    case None => RunResult(Failed(CannotOpen(o.deltafile.value)), ForceReset(o, files))
    case Some(f) =>
      var (current, previous) := GetVersions(versionInfo, f, o.verfile);
      if UpToDate(current, previous) then RunResult(Skipped, f)
      else DiffAndDump(o, f, Collected(records, o.includeOptional))
  }

  /** One whole run of `main`: the steps above, then the version commit. */
  function Main(o: Options, files: Files, versionInfo: map<string, string>, records: seq<Record>): RunResult {
    var r := UpToSnapshot(o, files, versionInfo, records);
    if r.outcome != Completed then r
    else
      match Write(r.files, o.verfile, CommittedContent(GetVersionInfo(versionInfo)))
      case None => RunResult(Failed(CannotOpen(o.verfile)), r.files)
      case Some(h) => RunResult(Completed, h)
  }

  /** `generate_delta`: reads the previous snapshot, runs the two loops and writes the delta file. */
  method GenerateDelta(disk: Disk, data: seq<string>, outfile: string, deltafile: string)
    returns (failure: Option<Failure>)
    modifies disk
    ensures match DeltaWritten(old(disk.files), data, outfile, deltafile)
      case Err(f) => failure == Some(f) && disk.files == old(disk.files)
      case Ok(h) => failure == None && disk.files == h
  {
    var previous := Baseline(disk.files, outfile);
    if previous.None? {
      return Some(SnapshotUnreadable(outfile));
    }
    var add, remove := Diff(data, previous.value);
    var ok := disk.WriteFile(deltafile, DeltaObject(add, remove));
    if !ok {
      return Some(CannotOpen(deltafile));
    }
    return None;
  }

  /**
   * The start of `main`: the force reset, then `{}` in a configured delta
   * file; false when the delta file cannot be opened.
   */
  method ResetFiles(disk: Disk, o: Options) returns (ok: bool)
    modifies disk
    ensures ok <==> ResetState(o, old(disk.files)).Some?
    ensures disk.files == if ok then ResetState(o, old(disk.files)).value else ForceReset(o, old(disk.files))
  {
    if o.force {
      if o.deltafile.Some? && o.deltafile.value != "" {
        disk.RemoveIfFile(o.deltafile.value);
      }
      disk.RemoveIfFile(o.verfile);
      disk.RemoveIfFile(o.outfile);
    }
    ok := true;
    if o.deltafile.Some? {
      ok := disk.WriteFile(o.deltafile.value, KeyObject([]));
    }
  }

  /** `main`, step by step on the file system. */
  method Run(disk: Disk, o: Options, versionInfo: map<string, string>, records: seq<Record>)
    returns (outcome: Outcome)
    modifies disk
    ensures RunResult(outcome, disk.files) == Main(o, old(disk.files), versionInfo, records)
  {
    var ok := ResetFiles(disk, o);
    if !ok {
      return Failed(CannotOpen(o.deltafile.value));
    }
    ghost var reset := disk.files;
    var (current, previous) := GetVersions(versionInfo, disk.files, o.verfile);
    if current == Some(previous) {
      return Skipped;
    }
    var ips := CollectIps(records, o.includeOptional);
    assert UpToSnapshot(o, old(disk.files), versionInfo, records) == DiffAndDump(o, reset, ips);
    if o.deltafile.Some? {
      var failure := GenerateDelta(disk, ips, o.outfile, o.deltafile.value);
      if failure.Some? {
        return Failed(failure.value);
      }
    }
    ok := disk.WriteFile(o.outfile, KeyObject(ips));
    if !ok {
      return Failed(CannotOpen(o.outfile));
    }
    ok := disk.WriteFile(o.verfile, CommittedContent(current));
    if !ok {
      return Failed(CannotOpen(o.verfile));
    }
    return Completed;
  }

  /** The three state files are distinct, non-empty paths. */
  predicate SeparatePaths(o: Options) {
    o.outfile != "" && o.verfile != "" && o.outfile != o.verfile &&
    (o.deltafile.Some? ==>
      o.deltafile.value != "" && o.deltafile.value != o.outfile && o.deltafile.value != o.verfile)
  }

  /** The paths a run may change. */
  predicate IsStatePath(o: Options, p: string) {
    p == o.outfile || p == o.verfile || (o.deltafile.Some? && p == o.deltafile.value)
  }

  /** Two file systems agree on a path: both lack it or both hold the same content there. */
  predicate SameAt(a: Files, b: Files, p: string) {
    (p in a <==> p in b) && (p in a ==> a[p] == b[p])
  }

  /**
   * With separate paths the resets cannot fail, leave `{}` in a configured
   * delta file and do not touch the snapshot or the version file.
   */
  lemma ResetStateFacts(o: Options, files: Files)
    requires SeparatePaths(o)
    ensures ResetState(o, files).Some?
    ensures var f, reset := ResetState(o, files).value, ForceReset(o, files);
      SameAt(f, reset, o.outfile) && SameAt(f, reset, o.verfile) &&
      PreviousVersion(f, o.verfile) == PreviousVersion(reset, o.verfile) &&
      Baseline(f, o.outfile) == Baseline(reset, o.outfile) &&
      (o.deltafile.Some? ==> IsFile(f, o.deltafile.value) && f[o.deltafile.value] == KeyObject([]))
  {
  }

  /**
   * With separate paths the snapshot step writes the delta against the
   * snapshot on disk and the new snapshot, and leaves the version file alone.
   */
  lemma DiffAndDumpFacts(o: Options, files: Files, ips: seq<string>)
    requires SeparatePaths(o)
    ensures var r := DiffAndDump(o, files, ips);
      SameAt(r.files, files, o.verfile) &&
      (r.outcome == Completed <==> (o.deltafile.Some? ==> Baseline(files, o.outfile).Some?)) &&
      (r.outcome != Completed ==> r.outcome == Failed(SnapshotUnreadable(o.outfile)) && r.files == files) &&
      (r.outcome == Completed ==> IsFile(r.files, o.outfile) && r.files[o.outfile] == KeyObject(ips)) &&
      (r.outcome == Completed && o.deltafile.Some? ==>
        var prev := Baseline(files, o.outfile).value;
        IsFile(r.files, o.deltafile.value) &&
        r.files[o.deltafile.value] == DeltaObject(Minus(ips, prev), Minus(prev, ips)))
  {
  }

  /** The resets touch no file other than the state files. */
  lemma ResetStateFrame(o: Options, files: Files, p: string)
    requires !IsStatePath(o, p)
    ensures SameAt(ForceReset(o, files), files, p)
    ensures ResetState(o, files).Some? ==> SameAt(ResetState(o, files).value, files, p)
  {
  }

  /** The delta and the snapshot write touch no file other than the state files. */
  lemma DiffAndDumpFrame(o: Options, files: Files, ips: seq<string>, p: string)
    requires !IsStatePath(o, p)
    ensures SameAt(DiffAndDump(o, files, ips).files, files, p)
  {
  }

  /** A run touches no file other than the three state files. */
  lemma OnlyStateFilesChange(o: Options, files: Files, versionInfo: map<string, string>, records: seq<Record>, p: string)
    requires !IsStatePath(o, p)
    ensures SameAt(Main(o, files, versionInfo, records).files, files, p)
  {
    ResetStateFrame(o, files, p);
    if ResetState(o, files).Some? {
      DiffAndDumpFrame(o, ResetState(o, files).value, Collected(records, o.includeOptional), p);
    }
  }

  /**
   * The gate: with separate paths a run stops exactly when the published
   * version equals the one the version file holds after the force reset
   * ("42" when there is none); it then leaves `{}` in a configured delta
   * file and the snapshot and version file as the reset left them.
   */
  lemma SkipIff(o: Options, files: Files, versionInfo: map<string, string>, records: seq<Record>)
    requires SeparatePaths(o)
    ensures var r, reset := Main(o, files, versionInfo, records), ForceReset(o, files);
      r.outcome == Skipped <==> GetVersionInfo(versionInfo) == Some(PreviousVersion(reset, o.verfile))
    ensures var r, reset := Main(o, files, versionInfo, records), ForceReset(o, files);
      r.outcome == Skipped ==>
        SameAt(r.files, reset, o.outfile) && SameAt(r.files, reset, o.verfile) &&
        (o.deltafile.Some? ==> IsFile(r.files, o.deltafile.value) && r.files[o.deltafile.value] == KeyObject([]))
  {
    ResetStateFacts(o, files);
    var f := ResetState(o, files).value;
    DiffAndDumpFacts(o, f, Collected(records, o.includeOptional));
  }

  /**
   * A completed run: the delta is taken against the snapshot as it was before
   * this run overwrote it, the snapshot holds the collected set and the
   * version file the published version.
   */
  lemma CompletedRun(o: Options, files: Files, versionInfo: map<string, string>, records: seq<Record>)
    requires SeparatePaths(o)
    ensures var r, reset := Main(o, files, versionInfo, records), ForceReset(o, files);
      r.outcome == Completed <==>
        GetVersionInfo(versionInfo) != Some(PreviousVersion(reset, o.verfile)) &&
        (o.deltafile.Some? ==> Baseline(reset, o.outfile).Some?)
    ensures var r, reset, ips := Main(o, files, versionInfo, records), ForceReset(o, files),
                                 Collected(records, o.includeOptional);
      r.outcome == Completed ==>
        IsFile(r.files, o.outfile) && r.files[o.outfile] == KeyObject(ips) &&
        IsFile(r.files, o.verfile) && r.files[o.verfile] == CommittedContent(GetVersionInfo(versionInfo)) &&
        (o.deltafile.Some? ==>
          var prev := Baseline(reset, o.outfile).value;
          IsFile(r.files, o.deltafile.value) &&
          r.files[o.deltafile.value] == DeltaObject(Minus(ips, prev), Minus(prev, ips)))
  {
    ResetStateFacts(o, files);
    var f := ResetState(o, files).value;
    DiffAndDumpFacts(o, f, Collected(records, o.includeOptional));
  }

  /**
   * With separate paths a run that does not complete never writes the
   * version file, so the next run retries the same version.
   */
  lemma UnfinishedRunKeepsVersion(o: Options, files: Files, versionInfo: map<string, string>, records: seq<Record>)
    requires SeparatePaths(o)
    requires Main(o, files, versionInfo, records).outcome != Completed
    ensures SameAt(Main(o, files, versionInfo, records).files, ForceReset(o, files), o.verfile)
  {
    ResetStateFacts(o, files);
    var f := ResetState(o, files).value;
    DiffAndDumpFacts(o, f, Collected(records, o.includeOptional));
  }

  /** A forced run is a first run: it behaves as if the three state files had never existed. */
  lemma ForceActsAsFirstRun(o: Options, files: Files, versionInfo: map<string, string>, records: seq<Record>)
    requires o.force
    ensures Main(o, files, versionInfo, records) ==
      Main(o.(force := false), Cleared(o, files), versionInfo, records)
  {
    assert ForceReset(o, files) == ForceReset(o.(force := false), Cleared(o, files));
  }

  /**
   * A forced run with separate paths sees no version file, so it stops only
   * when "42" is published; when it completes, everything collected is added
   * and nothing removed.
   */
  lemma ForcedRun(o: Options, files: Files, versionInfo: map<string, string>, records: seq<Record>)
    requires SeparatePaths(o) && o.force
    ensures var r := Main(o, files, versionInfo, records);
      r.outcome == Skipped <==> GetVersionInfo(versionInfo) == Some(Sentinel)
    ensures var r, ips := Main(o, files, versionInfo, records), Collected(records, o.includeOptional);
      r.outcome == Completed && o.deltafile.Some? ==>
        r.files[o.deltafile.value] == DeltaObject(ips, [])
  {
    var reset := ForceReset(o, files);
    assert !IsFile(reset, o.verfile) && !IsFile(reset, o.outfile);
    SkipIff(o, files, versionInfo, records);
    CompletedRun(o, files, versionInfo, records);
    var ips := Collected(records, o.includeOptional);
    MinusBounds(ips, []);
    MinusBounds([], ips);
  }

  /**
   * Idempotence: after a completed run that committed a clean version, a run
   * without force that sees the same version stops and leaves the snapshot
   * and the version file as the first run wrote them.
   */
  lemma RerunSkips(o: Options, files: Files, versionInfo: map<string, string>,
                   records: seq<Record>, records': seq<Record>)
    requires SeparatePaths(o)
    requires Main(o, files, versionInfo, records).outcome == Completed
    requires "latest" in versionInfo && StateLine.Clean(versionInfo["latest"])
    ensures var first := Main(o, files, versionInfo, records);
      var second := Main(o.(force := false), first.files, versionInfo, records');
      second.outcome == Skipped &&
      SameAt(second.files, first.files, o.outfile) && SameAt(second.files, first.files, o.verfile)
  {
    var first := Main(o, files, versionInfo, records);
    CompletedRun(o, files, versionInfo, records);
    StateLine.ReadWriteRoundTrip(versionInfo["latest"]);
    assert PreviousVersion(first.files, o.verfile) == versionInfo["latest"];
    SkipIff(o.(force := false), first.files, versionInfo, records');
  }

  /**
   * Crash safety: when a run stops after writing the snapshot and before
   * committing the version, the next identical run proceeds again and ends
   * with the snapshot and version file the uninterrupted run would have left;
   * without force its delta is then empty.
   */
  lemma InterruptedCommitConverges(o: Options, files: Files, versionInfo: map<string, string>, records: seq<Record>)
    requires SeparatePaths(o)
    requires UpToSnapshot(o, files, versionInfo, records).outcome == Completed
    ensures var crashed := UpToSnapshot(o, files, versionInfo, records).files;
      var whole, again := Main(o, files, versionInfo, records), Main(o, crashed, versionInfo, records);
      again.outcome == Completed && whole.outcome == Completed &&
      SameAt(again.files, whole.files, o.outfile) && SameAt(again.files, whole.files, o.verfile) &&
      (!o.force && o.deltafile.Some? ==> again.files[o.deltafile.value] == DeltaObject([], []))
  {
    var crashed := UpToSnapshot(o, files, versionInfo, records).files;
    var ips := Collected(records, o.includeOptional);
    ResetStateFacts(o, files);
    var f := ResetState(o, files).value;
    DiffAndDumpFacts(o, f, ips);
    assert crashed == DiffAndDump(o, f, ips).files;
    assert PreviousVersion(ForceReset(o, crashed), o.verfile) == PreviousVersion(ForceReset(o, files), o.verfile);
    CompletedRun(o, files, versionInfo, records);
    CompletedRun(o, crashed, versionInfo, records);
    if !o.force && o.deltafile.Some? {
      DiffSelf(ips);
    }
  }

  /**
   * An end-to-end example: the snapshot holds 1.2.3.4, the version file "A",
   * the service publishes "B" and one required record lists 1.2.3.4 and
   * 5.6.7.8. The run completes and commits "B".
   */
  lemma ExampleRun(o: Options, files: Files, records: seq<Record>)
    requires SeparatePaths(o) && !o.force && o.deltafile.Some?
    requires o.outfile in files && files[o.outfile] == KeyObject(["1.2.3.4"])
    requires o.verfile in files && files[o.verfile] == Line("A\n")
    requires records == [Record(Some(["1.2.3.4", "5.6.7.8"]), true)]
    ensures var r := Main(o, files, map["latest" := "B"], records);
      r.outcome == Completed && r.files[o.verfile] == Line("B\n")
  {
    ExampleVersions(files, o.verfile);
    CompletedRun(o, files, map["latest" := "B"], records);
  }

  /** In the example the snapshot gains 5.6.7.8 and the delta adds it and removes nothing. */
  lemma ExampleDelta(o: Options, files: Files, records: seq<Record>)
    requires SeparatePaths(o) && !o.force && o.deltafile.Some?
    requires o.outfile in files && files[o.outfile] == KeyObject(["1.2.3.4"])
    requires o.verfile in files && files[o.verfile] == Line("A\n")
    requires records == [Record(Some(["1.2.3.4", "5.6.7.8"]), true)]
    ensures var r := Main(o, files, map["latest" := "B"], records);
      r.files[o.outfile] == KeyObject(["1.2.3.4", "5.6.7.8"]) &&
      r.files[o.deltafile.value] == DeltaObject(["5.6.7.8"], [])
  {
    ExampleRun(o, files, records);
    ExampleCollected(records, o.includeOptional);
    ExampleMinus();
    CompletedRun(o, files, map["latest" := "B"], records);
  }

  /** The example's version file reads "A". */
  lemma ExampleVersions(f: Files, verfile: string)
    requires verfile != "" && verfile in f && f[verfile] == Line("A\n")
    ensures PreviousVersion(f, verfile) == "A"
  {
    assert "A\n"[1..] == "\n";
    assert StateLine.FirstLine("A\n") == "A";
  }

  /** The example's collected set. */
  lemma ExampleCollected(records: seq<Record>, includeOptional: bool)
    requires records == [Record(Some(["1.2.3.4", "5.6.7.8"]), true)]
    ensures Collected(records, includeOptional) == ["1.2.3.4", "5.6.7.8"]
  {
    var s := ["1.2.3.4", "5.6.7.8"];
    assert Stream(records, includeOptional) == s by {
      assert records[..0] == [];
    }
    assert s[..1] == ["1.2.3.4"] && s[..1][..0] == [];
    assert InsertAll([], s[..1]) == ["1.2.3.4"];
  }

  /** The example's delta against the snapshot {1.2.3.4}. */
  lemma ExampleMinus()
    ensures Minus(["1.2.3.4", "5.6.7.8"], ["1.2.3.4"]) == ["5.6.7.8"]
    ensures Minus(["1.2.3.4"], ["1.2.3.4", "5.6.7.8"]) == []
  {
    var s := ["1.2.3.4", "5.6.7.8"];
    assert s[..1] == ["1.2.3.4"] && s[..1][..0] == [];
    assert ["1.2.3.4"][..0] == [];
  }
}
