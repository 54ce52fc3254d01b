/** Reading log files into records with exact byte coordinates
    (orchestrator/audit_integrity.py, `_read_file_records` and `read_records`). */
module AuditRecords {
  import opened Bytes
  import opened Codec

  /** A daily log file; file names sort as their dates do. */
  datatype LogFile = LogFile(date: int, data: seq<byte>)

  /** The members of a parsed JSON object that the verifier looks at. */
  datatype Members = Members(prevHash: Option<Hash>, sourceId: Option<string>)

  datatype Record = Record(
    index: nat, file: int, byteStart: nat, byteEnd: nat, raw: Line, parsed: Option<Members>)

  /** The parsed object of a line, or None when it is malformed or not an object. */
  function Parsed(c: Codec, raw: Line): Option<Members> {
    match Load(c, raw)
    case Object(prevHash, sourceId) => Some(Members(prevHash, sourceId))
    case _ => None
  }

  /** Hash of a record's line as the writer hashed it. */
  function ChainHash(c: Codec, rec: Record): Hash {
    c.digest(ChopCR(rec.raw))
  }

  /** The record of the line starting at `start`, or nothing when that line is blank. */
  function RecordAt(c: Codec, f: LogFile, start: nat, index: nat): seq<Record>
    requires start < |f.data|
  {
    var nl := NextLF(f.data, start);
    var raw := f.data[start..nl];
    if Blank(raw) then []
    else [Record(index, f.date, start, LineEnd(f.data, start), raw, Parsed(c, raw))]
  }

  /** Records of the physical lines of `f` from byte `start` on, numbered from `index`. */
  function RecordsFrom(c: Codec, f: LogFile, start: nat, index: nat): seq<Record>
    decreases |f.data| - start
  {
    if start >= |f.data| then []
    else
      var here := RecordAt(c, f, start, index);
      here + RecordsFrom(c, f, LineEnd(f.data, start), index + |here|)
  }

  function FileRecords(c: Codec, f: LogFile, index: nat): seq<Record> {
    RecordsFrom(c, f, 0, index)
  }

  /** Records of all files in order, numbered globally from `index`. */
  function RecordsOf(c: Codec, files: seq<LogFile>, index: nat): seq<Record>
    decreases |files|
  {
    if |files| == 0 then []
    else
      var first := FileRecords(c, files[0], index);
      first + RecordsOf(c, files[1..], index + |first|)
  }

  lemma Regroup<T>(a: seq<T>, b: seq<T>, d: seq<T>)
    ensures a + (b + d) == (a + b) + d
  {
  }

  lemma Around<T>(s: seq<T>, k: nat)
    requires k < |s|
    ensures s == s[..k] + ([s[k]] + s[k + 1..])
  {
  }

  /** One line moved from what is left to read to what has been read. */
  lemma RecordsStep(c: Codec, f: LogFile, done: seq<Record>, start: nat, index: nat)
    requires start < |f.data|
    ensures var here := RecordAt(c, f, start, index);
      done + RecordsFrom(c, f, start, index) ==
      (done + here) + RecordsFrom(c, f, LineEnd(f.data, start), index + |here|)
  {
    hide RecordAt, LineEnd;
    var here := RecordAt(c, f, start, index);
    Regroup(done, here, RecordsFrom(c, f, LineEnd(f.data, start), index + |here|));
  }

  lemma RecordsFromEnd(c: Codec, f: LogFile, index: nat)
    ensures RecordsFrom(c, f, |f.data|, index) == []
  {
  }

  /** `_read_file_records`: one pass over the bytes of a file. */
  method ReadFileRecords(c: Codec, f: LogFile, startIndex: nat) returns (records: seq<Record>)
    ensures records == FileRecords(c, f, startIndex)
  {
    hide Blank, Parsed, RecordsFrom;
    records := [];
    var idx := startIndex;
    var n := |f.data|;
    var start := 0;
    while start < n
      invariant 0 <= start <= n
      invariant idx == startIndex + |records|
      invariant FileRecords(c, f, startIndex) == records + RecordsFrom(c, f, start, idx)
    {
      var nl := NextLF(f.data, start);
      var lineEnd := if nl == n then n else nl + 1;
      var raw := f.data[start..nl];
      ghost var here := RecordAt(c, f, start, idx);
      RecordsStep(c, f, records, start, idx);
      if !Blank(raw) {
        records := records + [Record(idx, f.date, start, lineEnd, raw, Parsed(c, raw))];
        idx := idx + 1;
      }
      start := lineEnd;
    }
    assert RecordsFrom(c, f, n, idx) == [] by { RecordsFromEnd(c, f, idx); }
  }

  /** `read_records`: all files, one after the other. */
  method ReadRecords(c: Codec, files: seq<LogFile>) returns (records: seq<Record>)
    ensures records == RecordsOf(c, files, 0)
  {
    hide RecordsFrom;
    records := [];
    for i := 0 to |files|
      invariant RecordsOf(c, files, 0) == records + RecordsOf(c, files[i..], |records|)
    {
      var more := ReadFileRecords(c, files[i], |records|);
      assert files[i..][0] == files[i] && files[i..][1..] == files[i + 1..];
      Regroup(records, more, RecordsOf(c, files[i + 1..], |records| + |more|));
      records := records + more;
    }
  }

  // ---------------------------------------------------------------- what a record is

  /** A record lies inside its file: its raw bytes are one whole physical line. */
  ghost predicate WellPlaced(c: Codec, f: LogFile, r: Record) {
    && r.file == f.date
    && r.byteStart < r.byteEnd <= |f.data|
    && (r.byteStart == 0 || f.data[r.byteStart - 1] == LF)
    && r.byteStart + |r.raw| <= |f.data|
    && r.raw == f.data[r.byteStart..r.byteStart + |r.raw|]
    && LF !in r.raw
    && (if r.byteStart + |r.raw| < |f.data|
        then f.data[r.byteStart + |r.raw|] == LF && r.byteEnd == r.byteStart + |r.raw| + 1
        else r.byteEnd == |f.data|)
    && !Blank(r.raw)
    && r.parsed == Parsed(c, r.raw)
  }

  lemma RecordAtWellPlaced(c: Codec, f: LogFile, start: nat, index: nat)
    requires start < |f.data| && (start == 0 || f.data[start - 1] == LF)
    ensures var here := RecordAt(c, f, start, index);
      && |here| <= 1
      && (|here| == 1 ==>
            && WellPlaced(c, f, here[0]) && here[0].index == index
            && here[0].byteStart == start && here[0].byteEnd == LineEnd(f.data, start))
    ensures LineEnd(f.data, start) >= |f.data| || f.data[LineEnd(f.data, start) - 1] == LF
  {
    hide Blank, Parsed;
  }

  /** Records of one file: each well placed, numbered from `index`, in byte order from `start`. */
  ghost predicate AllPlaced(c: Codec, f: LogFile, rs: seq<Record>, start: nat, index: nat) {
    && Numbered(rs, index)
    && (forall i :: 0 <= i < |rs| ==> WellPlaced(c, f, rs[i]) && rs[i].byteStart >= start)
    && (forall i, j :: 0 <= i < j < |rs| ==> rs[i].byteEnd <= rs[j].byteStart)
  }

  ghost predicate Numbered(rs: seq<Record>, index: nat) {
    forall i :: 0 <= i < |rs| ==> rs[i].index == index + i
  }

  lemma NumberedConcat(a: seq<Record>, b: seq<Record>, index: nat)
    requires Numbered(a, index) && Numbered(b, index + |a|)
    ensures Numbered(a + b, index)
  {
  }

  lemma AllPlacedJoin(c: Codec, f: LogFile, here: seq<Record>, rest: seq<Record>, start: nat, end: nat, index: nat)
    requires |here| <= 1 && start <= end
    requires |here| == 1 ==> WellPlaced(c, f, here[0]) && here[0].index == index
                             && here[0].byteStart == start && here[0].byteEnd == end
    requires AllPlaced(c, f, rest, end, index + |here|)
    ensures AllPlaced(c, f, here + rest, start, index)
  {
    hide WellPlaced;
    var rs := here + rest;
    assert forall i :: |here| <= i < |rs| ==> rs[i] == rest[i - |here|];
  }

  /** Every record is a whole physical line at the offsets it reports, in byte order. */
  lemma {:induction false} RecordsWellPlaced(c: Codec, f: LogFile, start: nat, index: nat)
    requires start == 0 || start >= |f.data| || f.data[start - 1] == LF
    ensures AllPlaced(c, f, RecordsFrom(c, f, start, index), start, index)
    decreases |f.data| - start
  {
    hide RecordAt, WellPlaced, LineEnd, AllPlaced;
    if start < |f.data| {
      var end := LineEnd(f.data, start);
      var here := RecordAt(c, f, start, index);
      var rest := RecordsFrom(c, f, end, index + |here|);
      RecordAtWellPlaced(c, f, start, index);
      RecordsWellPlaced(c, f, end, index + |here|);
      AllPlacedJoin(c, f, here, rest, start, end, index);
    } else {
      NoneToPlace(c, f, start, index);
    }
  }

  lemma NoneToPlace(c: Codec, f: LogFile, start: nat, index: nat)
    ensures AllPlaced(c, f, [], start, index)
  {
  }

  /** A line of a newline-terminated file is unchanged by what is appended after it. */
  lemma RecordAtExtends(c: Codec, f: LogFile, whole: LogFile, start: nat, index: nat)
    requires Terminated(f.data) && f.data <= whole.data && f.date == whole.date
    requires start < |f.data|
    ensures RecordAt(c, whole, start, index) == RecordAt(c, f, start, index)
    ensures LineEnd(whole.data, start) == LineEnd(f.data, start)
  {
    TerminatedHasLF(f.data, start);
    NextLFExtends(f.data, whole.data[|f.data|..], start);
    assert f.data + whole.data[|f.data|..] == whole.data;
    var nl := NextLF(f.data, start);
    assert whole.data[start..nl] == f.data[start..nl];
  }

  /** Reading a newline-terminated file and then what follows it is reading the whole. */
  lemma {:induction false} RecordsSplit(c: Codec, f: LogFile, whole: LogFile, start: nat, index: nat)
    requires Terminated(f.data) && f.data <= whole.data && f.date == whole.date
    requires start <= |f.data|
    ensures var head := RecordsFrom(c, f, start, index);
      RecordsFrom(c, whole, start, index) == head + RecordsFrom(c, whole, |f.data|, index + |head|)
    decreases |f.data| - start
  {
    hide RecordAt, LineEnd;
    if start < |f.data| {
      RecordAtExtends(c, f, whole, start, index);
      var here := RecordAt(c, f, start, index);
      var end := LineEnd(f.data, start);
      RecordsSplit(c, f, whole, end, index + |here|);
      var head := RecordsFrom(c, f, end, index + |here|);
      Regroup(here, head, RecordsFrom(c, whole, |f.data|, index + |here| + |head|));
    }
  }

  /** The record of a single last line. */
  lemma LastLineRecord(c: Codec, whole: LogFile, start: nat, line: Line, index: nat)
    requires start <= |whole.data| && whole.data[start..] == line + [LF]
    requires LF !in line && !Blank(line)
    ensures RecordsFrom(c, whole, start, index) ==
      [Record(index, whole.date, start, start + |line| + 1, line, Parsed(c, line))]
  {
    hide Blank, Parsed;
    NextLFOfLine(whole.data[..start], line);
    assert whole.data[..start] + (line + [LF]) == whole.data;
    assert |whole.data| == start + |line| + 1;
    assert whole.data[start..start + |line|] == line;
    assert LineEnd(whole.data, start) == |whole.data|;
    assert RecordsFrom(c, whole, |whole.data|, index + 1) == [];
  }

  /** Appending one line and its newline to a terminated file adds exactly one record. */
  lemma RecordsAppendLine(c: Codec, f: LogFile, line: Line, index: nat)
    requires Terminated(f.data) && LF !in line && !Blank(line)
    ensures FileRecords(c, f.(data := f.data + line + [LF]), index) ==
      FileRecords(c, f, index) +
      [Record(index + |FileRecords(c, f, index)|, f.date, |f.data|, |f.data| + |line| + 1, line, Parsed(c, line))]
  {
    hide Blank, Parsed, RecordsFrom;
    var whole := f.(data := f.data + line + [LF]);
    assert whole.data == f.data + (line + [LF]);
    RecordsSplit(c, f, whole, 0, index);
    LastLineRecord(c, whole, |f.data|, line, index + |FileRecords(c, f, index)|);
  }

  lemma NextLFOfLine(data: seq<byte>, line: Line)
    requires LF !in line
    ensures NextLF(data + (line + [LF]), |data|) == |data| + |line|
  {
    var whole := data + (line + [LF]);
    assert forall i :: 0 <= i < |line| ==> whole[|data| + i] == line[i];
    assert whole[|data| + |line|] == LF;
  }

  /** Global numbering: record k carries index k. */
  lemma {:induction false} IndicesCount(c: Codec, files: seq<LogFile>, index: nat)
    ensures Numbered(RecordsOf(c, files, index), index)
    decreases |files|
  {
    hide RecordsFrom, Numbered;
    if |files| > 0 {
      var first := FileRecords(c, files[0], index);
      assert Numbered(first, index) by { RecordsWellPlaced(c, files[0], 0, index); }
      IndicesCount(c, files[1..], index + |first|);
      NumberedConcat(first, RecordsOf(c, files[1..], index + |first|), index);
    } else {
      NumberedNil(index);
    }
  }

  lemma NumberedNil(index: nat)
    ensures Numbered([], index)
  {
  }

  /** Records of a concatenation of file lists. */
  lemma {:induction false} RecordsOfConcat(c: Codec, a: seq<LogFile>, b: seq<LogFile>, index: nat)
    ensures RecordsOf(c, a + b, index) ==
      RecordsOf(c, a, index) + RecordsOf(c, b, index + |RecordsOf(c, a, index)|)
    decreases |a|
  {
    hide FileRecords;
    if |a| == 0 {
      assert a + b == b;
    } else {
      assert (a + b)[0] == a[0] && (a + b)[1..] == a[1..] + b;
      var first := FileRecords(c, a[0], index);
      RecordsOfConcat(c, a[1..], b, index + |first|);
      var restA := RecordsOf(c, a[1..], index + |first|);
      Regroup(first, restA, RecordsOf(c, b, index + |first| + |restA|));
    }
  }

  /** Where the k-th record of a directory lives. */
  lemma {:induction false} LocateRecord(c: Codec, files: seq<LogFile>, index: nat, k: nat) returns (j: nat, before: seq<Record>)
    requires k < |RecordsOf(c, files, index)|
    ensures j < |files| && before == RecordsOf(c, files[..j], index)
    ensures var own := FileRecords(c, files[j], index + |before|);
      && |before| <= k < |before| + |own|
      && RecordsOf(c, files, index)[k] == own[k - |before|]
    decreases |files|
  {
    hide RecordsFrom;
    var first := FileRecords(c, files[0], index);
    if k < |first| {
      j, before := 0, [];
      assert files[..0] == [];
    } else {
      var j', before' := LocateRecord(c, files[1..], index + |first|, k - |first|);
      j, before := j' + 1, first + before';
      assert files[..j][0] == files[0] && files[..j][1..] == files[1..][..j'];
    }
  }
}
