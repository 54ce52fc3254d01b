/** Raw file contents, physical lines, and what Python calls a blank line. */
module Bytes {

  newtype byte = b: int | 0 <= b < 256

  type Line = seq<byte>

  const LF: byte := 10
  const CR: byte := 13

  datatype Option<+T> = None | Some(value: T)

  /** Position of the first line feed at or after `start`, or the length when there is none. */
  function NextLF(data: seq<byte>, start: nat): (n: nat)
    requires start <= |data|
    ensures start <= n <= |data|
    ensures n < |data| ==> data[n] == LF
    ensures forall i :: start <= i < n ==> data[i] != LF
    decreases |data| - start
  {
    if start == |data| || data[start] == LF then start else NextLF(data, start + 1)
  }

  /** End of the span consumed by the line starting at `start`, newline included. */
  function LineEnd(data: seq<byte>, start: nat): (e: nat)
    requires start < |data|
    ensures start < e <= |data|
    ensures e < |data| ==> data[e - 1] == LF
  {
    var nl := NextLF(data, start);
    if nl < |data| then nl + 1 else nl
  }

  /** Empty, or ending in a line feed: what an append-only writer can safely extend. */
  predicate Terminated(data: seq<byte>) {
    |data| == 0 || data[|data| - 1] == LF
  }

  /** The physical lines of a file, line feeds removed; a final partial line counts. */
  function Lines(data: seq<byte>): seq<Line>
    decreases |data|
  {
    if |data| == 0 then []
    else [data[..NextLF(data, 0)]] + Lines(data[LineEnd(data, 0)..])
  }

  // ---------------------------------------------------------------- blank lines

  /** Stripped away by `bytes.strip()`. */
  predicate IsAsciiSpace(b: byte) {
    b == 32 || 9 <= b <= 13
  }

  /** `not raw.strip()` on bytes. */
  predicate Blank(raw: Line) {
    forall i :: 0 <= i < |raw| ==> IsAsciiSpace(raw[i])
  }

  /** Length of the UTF-8 encoding of the white-space character that `s` starts with, or 0.
      The characters are those of `str.isspace()`; four of them are ASCII control
      characters that `bytes.strip()` keeps. */
  function LeadingSpace(s: Line): (k: nat)
    ensures k <= |s| && k <= 3
  {
    if |s| >= 1 && (IsAsciiSpace(s[0]) || 28 <= s[0] <= 31) then 1
    else if |s| >= 2 && s[0] == 0xC2 && (s[1] == 0x85 || s[1] == 0xA0) then 2
    else if |s| >= 3 && s[0] == 0xE1 && s[1] == 0x9A && s[2] == 0x80 then 3
    else if |s| >= 3 && s[0] == 0xE2 && s[1] == 0x80 &&
            (0x80 <= s[2] <= 0x8A || s[2] == 0xA8 || s[2] == 0xA9 || s[2] == 0xAF) then 3
    else if |s| >= 3 && s[0] == 0xE2 && s[1] == 0x81 && s[2] == 0x9F then 3
    else if |s| >= 3 && s[0] == 0xE3 && s[1] == 0x80 && s[2] == 0x80 then 3
    else 0
  }

  /** `not line.strip()` on text. */
  predicate StrBlank(s: Line)
    decreases |s|
  {
    |s| == 0 || (LeadingSpace(s) > 0 && StrBlank(s[LeadingSpace(s)..]))
  }

  lemma {:induction false} BlankIsStrBlank(s: Line)
    requires Blank(s)
    ensures StrBlank(s)
    decreases |s|
  {
    if |s| > 0 {
      assert IsAsciiSpace(s[0]);
      BlankIsStrBlank(s[1..]);
    }
  }

  // ---------------------------------------------------------------- carriage returns

  /** One trailing carriage return removed, as the chain hash does. */
  function ChopCR(raw: Line): Line {
    if |raw| > 0 && raw[|raw| - 1] == CR then raw[..|raw| - 1] else raw
  }

  /** All carriage returns at either end removed: JSON white space around the value. */
  function TrimCR(raw: Line): Line
    decreases |raw|
  {
    if |raw| > 0 && raw[|raw| - 1] == CR then TrimCR(raw[..|raw| - 1])
    else if |raw| > 0 && raw[0] == CR then TrimCR(raw[1..])
    else raw
  }

  lemma {:induction false} TrimLeading(raw: Line)
    ensures TrimCR([CR] + raw) == TrimCR(raw)
    decreases |raw|
  {
    var s := [CR] + raw;
    if |raw| == 0 {
      assert s[..0] == raw;
    } else if raw[|raw| - 1] == CR {
      assert s[..|raw|] == [CR] + raw[..|raw| - 1];
      TrimLeading(raw[..|raw| - 1]);
    } else {
      assert s[1..] == raw;
    }
  }

  /** Every carriage return ends a line: it precedes a line feed or the end of the file. */
  ghost predicate CrClean(data: seq<byte>) {
    forall i :: 0 <= i < |data| && data[i] == CR ==> i + 1 == |data| || data[i + 1] == LF
  }

  predicate NoLineBreak(s: Line) {
    forall i :: 0 <= i < |s| ==> s[i] != LF && s[i] != CR
  }

  lemma BlankChop(raw: Line)
    ensures Blank(ChopCR(raw)) == Blank(raw)
  {
    if |raw| > 0 && raw[|raw| - 1] == CR {
      assert raw == ChopCR(raw) + [CR];
      if Blank(ChopCR(raw)) {
        forall i | 0 <= i < |raw| ensures IsAsciiSpace(raw[i]) {
          if i < |raw| - 1 { assert raw[i] == ChopCR(raw)[i]; }
        }
      }
      if Blank(raw) {
        forall i | 0 <= i < |ChopCR(raw)| ensures IsAsciiSpace(ChopCR(raw)[i]) {
          assert raw[i] == ChopCR(raw)[i];
        }
      }
    }
  }

  /** Dropping a trailing carriage return does not change whether a line is blank. */
  lemma {:induction false} StrBlankChop(s: Line)
    requires |s| > 0 && s[|s| - 1] == CR
    ensures StrBlank(s) == StrBlank(s[..|s| - 1])
    decreases |s|
  {
    var t := s[..|s| - 1];
    var k := LeadingSpace(s);
    if |t| == 0 {
      assert k == 1 && s[k..] == [];
    } else {
      assert LeadingSpace(t) == k;
      if k > 0 {
        StrBlankChop(s[k..]);
        DropBoth(s, k);
      }
    }
  }

  lemma DropBoth(s: Line, k: nat)
    requires k < |s|
    ensures s[k..][..|s| - k - 1] == s[..|s| - 1][k..]
  {
    assert s[k..][..|s| - k - 1] == s[k..|s| - 1];
    assert s[..|s| - 1][k..] == s[k..|s| - 1];
  }

  // ---------------------------------------------------------------- splitting facts

  /** A line feed found inside a prefix is found at the same place in any extension. */
  lemma {:induction false} NextLFExtends(data: seq<byte>, more: seq<byte>, start: nat)
    requires start <= |data|
    requires NextLF(data, start) < |data|
    ensures NextLF(data + more, start) == NextLF(data, start)
    decreases |data| - start
  {
    if data[start] != LF {
      NextLFExtends(data, more, start + 1);
    }
  }

  /** In a newline-terminated file every line has its own line feed. */
  lemma TerminatedHasLF(data: seq<byte>, start: nat)
    requires Terminated(data) && start < |data|
    ensures NextLF(data, start) < |data|
    ensures LineEnd(data, start) == NextLF(data, start) + 1
  {
    assert data[|data| - 1] == LF;
  }
}
