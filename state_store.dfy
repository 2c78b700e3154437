/**
 * The files the pipeline keeps between runs, as a map from path to content.
 * Paths are compared as strings; two different strings never name the same file.
 */
module StateStore {
  import opened Wrappers
  import StateLine

  /**
   * What a state file holds. JSON is kept abstract: an object whose keys are
   * the collected addresses (the values are the fixed marker 42 and carry
   * nothing), or a delta object with its two arrays.
   */
  datatype Content =
    | Line(text: string)                                // text written by `print`
    | KeyObject(keys: seq<string>)                      // a JSON object, keys in file order
    | DeltaObject(add: seq<string>, remove: seq<string>) // {"add": [...], "remove": [...]}

  type Files = map<string, Content>

  /** `os.path.isfile`: the empty path never names a file. */
  predicate IsFile(files: Files, path: string) {
    path != "" && path in files
  }

  /**
   * `read_single_state` on a file with this content. JSON is written either
   * as `{}` or pretty-printed with the opening brace alone on its first line.
   */
  function ReadLine(c: Content): string {
    match c
    case Line(text) => StateLine.ReadState(text)
    case KeyObject(keys) => if keys == [] then "{}" else "{"
    case DeltaObject(_, _) => "{"
  }

  /**
   * `json.load` on a snapshot file, seen as the keys of the object it holds;
   * None when the text is not a JSON object.
   */
  function LoadKeys(c: Content): Option<seq<string>> {
    match c
    case Line(_) => None
    case KeyObject(keys) => Some(keys)
    case DeltaObject(_, _) => Some(["add", "remove"])
  }

  /** `open(path, 'w')` then a write: fails only on the empty path, and touches no other file. */
  function Write(files: Files, path: string, c: Content): (r: Option<Files>)
    ensures r.Some? <==> path != ""
    ensures r.Some? ==> IsFile(r.value, path) && r.value[path] == c
    ensures r.Some? ==> forall p | p != path ::
      (p in r.value <==> p in files) && (p in files ==> r.value[p] == files[p])
  {
    if path == "" then None else Some(files[path := c])
  }

  /** Deleting a path when it names an existing file; otherwise nothing happens. */
  function Removed(files: Files, path: string): Files {
    if IsFile(files, path) then files - {path} else files
  }

  /** The file system the pipeline runs against. */
  class Disk {
    var files: Files

    constructor (initial: Files)
      ensures files == initial
    {
      files := initial;
    }

    /** Deletes the path when it names an existing file; otherwise nothing happens. */
    method RemoveIfFile(path: string)
      modifies this
      ensures files == Removed(old(files), path)
      ensures !IsFile(files, path)
    {
      if IsFile(files, path) {
        files := files - {path};
      }
    }

    /** Opens `path` for writing and replaces its content; false when it cannot be opened. */
    method WriteFile(path: string, c: Content) returns (ok: bool)
      modifies this
      ensures ok <==> Write(old(files), path, c).Some?
      ensures files == if ok then Write(old(files), path, c).value else old(files)
    {
      ok := path != "";
      if ok {
        files := files[path := c];
      }
    }
  }
}
