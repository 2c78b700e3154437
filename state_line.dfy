/**
 * Single-value state files (o365_ip.py, `read_single_state` and
 * `write_single_state`). A value is written as Python's `print` writes it,
 * followed by a newline, and read back as the first line of the file with
 * trailing whitespace removed.
 */
module StateLine {

  /** Python's `str.isspace` on one character. */
  predicate IsSpace(c: char) {
    c == ' ' || ('\t' <= c <= '\r') || ('\U{1C}' <= c <= '\U{1F}') ||
    c == '\U{85}' || c == '\U{A0}' || c == '\U{1680}' ||
    ('\U{2000}' <= c <= '\U{200A}') || c == '\U{2028}' || c == '\U{2029}' ||
    c == '\U{202F}' || c == '\U{205F}' || c == '\U{3000}'
  }

  /** A character that ends a line for `readline` in text mode (universal newlines). */
  predicate IsLineBreak(c: char) {
    c == '\n' || c == '\r'
  }

  predicate NoLineBreak(s: string) {
    forall i :: 0 <= i < |s| ==> !IsLineBreak(s[i])
  }

  /** `str.rstrip()`: the longest prefix that does not end in whitespace. */
  function Rstrip(s: string): (r: string)
    ensures r <= s
    ensures r == [] || !IsSpace(r[|r| - 1])
    ensures forall i :: |r| <= i < |s| ==> IsSpace(s[i])
  {
    if s != [] && IsSpace(s[|s| - 1]) then Rstrip(s[..|s| - 1]) else s
  }

  /**
   * The text of the first line, without its terminator. `readline` keeps the
   * terminator, but it is whitespace and the caller strips it at once.
   */
  function FirstLine(text: string): (line: string)
    ensures line <= text
    ensures NoLineBreak(line)
    ensures |line| < |text| ==> IsLineBreak(text[|line|])
  {
    if text == [] || IsLineBreak(text[0]) then [] else [text[0]] + FirstLine(text[1..])
  }

  /** `read_single_state`: the value held by a state file with this text. */
  function ReadState(text: string): string {
    Rstrip(FirstLine(text))
  }

  /** `write_single_state`: the value followed by a newline, as Python's `print` writes it. */
  function WriteState(value: string): string {
    value + "\n"
  }

  /** A value that survives being written and read back. */
  predicate Clean(value: string) {
    NoLineBreak(value) && (value == [] || !IsSpace(value[|value| - 1]))
  }

  /** The first line of a value followed by a newline is the value itself, when it has no line break. */
  lemma {:induction false} FirstLineOfWritten(value: string)
    requires NoLineBreak(value)
    ensures FirstLine(WriteState(value)) == value
  {
    if value != [] {
      assert WriteState(value)[1..] == WriteState(value[1..]);
      FirstLineOfWritten(value[1..]);
    }
  }

  /** The first line stops at or before any line break. */
  lemma {:induction false} FirstLineStopsAtBreak(text: string, i: nat)
    requires i < |text| && IsLineBreak(text[i])
    ensures |FirstLine(text)| <= i
  {
    if i > 0 && !IsLineBreak(text[0]) {
      FirstLineStopsAtBreak(text[1..], i - 1);
    }
  }

  /** A written value reads back unchanged exactly when it is clean. */
  lemma ReadWriteRoundTrip(value: string)
    ensures ReadState(WriteState(value)) == value <==> Clean(value)
  {
    if NoLineBreak(value) {
      FirstLineOfWritten(value);
    } else {
      var i :| 0 <= i < |value| && IsLineBreak(value[i]);
      FirstLineStopsAtBreak(WriteState(value), i);
    }
  }

  /** Whatever is read from a state file is clean, so writing it back and reading it again gives it unchanged. */
  lemma ReadStateStable(text: string)
    ensures Clean(ReadState(text))
    ensures ReadState(WriteState(ReadState(text))) == ReadState(text)
  {
    var line := FirstLine(text);
    var r := ReadState(text);
    assert r <= line;
    assert forall i :: 0 <= i < |r| ==> r[i] == line[i];
    ReadWriteRoundTrip(r);
  }
}
