/**
 * The version gate (o365_ip.py, `get_versions` and `get_version_info`): the
 * version the service publishes is compared with the one committed by the
 * last completed run; the run stops when they are equal.
 */
module VersionGate {
  import opened Wrappers
  import StateLine
  import opened StateStore

  /** The previous version assumed when no version file exists. */
  const Sentinel := "42"

  /** `get_version_info` after the fetch: the `latest` field of the version object, if any. */
  function GetVersionInfo(versionInfo: map<string, string>): (latest: Option<string>)
    ensures latest.Some? <==> "latest" in versionInfo
    ensures latest.Some? ==> latest.value == versionInfo["latest"]
  {
    if "latest" in versionInfo then Some(versionInfo["latest"]) else None
  }

  /** The version the last run committed, as `get_versions` reads it. */
  function PreviousVersion(files: Files, verfile: string): string {
    if IsFile(files, verfile) then ReadLine(files[verfile]) else Sentinel
  }

  /** `get_versions`: the current and the previous version. */
  function GetVersions(versionInfo: map<string, string>, files: Files, verfile: string): (Option<string>, string) {
    (GetVersionInfo(versionInfo), PreviousVersion(files, verfile))
  }

  /** The gate's equality test: an absent version equals no string. */
  predicate UpToDate(current: Option<string>, previous: string) {
    current == Some(previous)
  }

  /** `str(version)`, which `print` writes: `None` becomes the text "None". */
  function VersionText(current: Option<string>): string {
    match current
    case Some(v) => v
    case None => "None"
  }

  /** `commit_processed_version`: the content the version file gets. */
  function CommittedContent(current: Option<string>): Content {
    Line(StateLine.WriteState(VersionText(current)))
  }

  /**
   * Without a version file the previous version is "42", otherwise the file's
   * first line with trailing whitespace stripped. The lemma only unfolds the
   * definitions; what the read means comes from the contracts of
   * `StateLine.FirstLine` and `StateLine.Rstrip`, and `StateLine.ReadWriteRoundTrip`
   * says which committed values it gives back.
   */
  lemma PreviousVersionRead(files: Files, verfile: string)
    ensures !IsFile(files, verfile) ==> PreviousVersion(files, verfile) == "42"
    ensures IsFile(files, verfile) && files[verfile].Line? ==>
      PreviousVersion(files, verfile) == StateLine.Rstrip(StateLine.FirstLine(files[verfile].text))
  {
  }

  /**
   * A committed version is read back by the next run exactly when it is clean
   * (no line break, no trailing whitespace); then the next run with the same
   * published version stops.
   */
  lemma CommitThenGate(files: Files, verfile: string, v: string)
    requires verfile != ""
    ensures var next := files[verfile := CommittedContent(Some(v))];
      PreviousVersion(next, verfile) == v <==> StateLine.Clean(v)
    ensures var next := files[verfile := CommittedContent(Some(v))];
      UpToDate(Some(v), PreviousVersion(next, verfile)) <==> StateLine.Clean(v)
  {
    StateLine.ReadWriteRoundTrip(v);
  }

  /**
   * A version object without `latest` is never up to date, whatever was
   * committed; committing it writes "None", which the next run reads back.
   */
  lemma MissingLatestNeverUpToDate(versionInfo: map<string, string>, files: Files, verfile: string)
    requires "latest" !in versionInfo
    requires verfile != ""
    ensures !UpToDate(GetVersionInfo(versionInfo), PreviousVersion(files, verfile))
    ensures PreviousVersion(files[verfile := CommittedContent(GetVersionInfo(versionInfo))], verfile) == "None"
  {
    NoneIsClean();
    StateLine.ReadWriteRoundTrip("None");
  }

  /** The text "None" has no line break and does not end in whitespace. */
  lemma NoneIsClean()
    ensures StateLine.Clean("None")
  {
    var none := "None";
    assert forall i :: 0 <= i < |none| ==> none[i] in {'N', 'o', 'n', 'e'};
  }

  /**
   * On a first run the gate stops only when the service publishes "42" itself;
   * the sentinel is an ordinary string and can match.
   */
  lemma FirstRunGate(versionInfo: map<string, string>, files: Files, verfile: string)
    requires !IsFile(files, verfile)
    ensures UpToDate(GetVersionInfo(versionInfo), PreviousVersion(files, verfile)) <==>
      "latest" in versionInfo && versionInfo["latest"] == "42"
  {
  }
}
