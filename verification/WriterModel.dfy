/** What the audit log writer does, as functions on its whole state: its chain state, its
    best-effort buffer and the files on disk (audit-log-writer/src/log_writer.py and
    audit-log-writer/src/file_manager.py). */
module WriterModel {
  import opened Bytes
  import opened Codec
  import opened AuditRecords
  import opened TextView
  import opened StartupGate

  // ---------------------------------------------------------------- daily files

  predicate HasFile(files: seq<LogFile>, date: int) {
    exists i :: 0 <= i < |files| && files[i].date == date
  }

  function Insert(files: seq<LogFile>, f: LogFile): seq<LogFile>
    decreases |files|
  {
    if |files| == 0 || f.date < files[0].date then [f] + files
    else [files[0]] + Insert(files[1..], f)
  }

  /** Opening for append creates the file when it is missing. */
  function Open(files: seq<LogFile>, date: int): seq<LogFile> {
    if HasFile(files, date) then files else Insert(files, LogFile(date, []))
  }

  /** Text written at the end of the file of that date. */
  function Extend(files: seq<LogFile>, date: int, text: seq<byte>): seq<LogFile>
    decreases |files|
  {
    if |files| == 0 then []
    else if files[0].date == date then [files[0].(data := files[0].data + text)] + files[1..]
    else [files[0]] + Extend(files[1..], date, text)
  }

  function AppendLine(files: seq<LogFile>, date: int, line: Line): seq<LogFile> {
    Extend(Open(files, date), date, line + [LF])
  }

  // ---------------------------------------------------------------- the writer

  /** A buffered best-effort line and the day it belongs to. */
  datatype Pending = Pending(date: int, line: Line)

  datatype Writer = Writer(
    files: seq<LogFile>, prevHash: Hash, sequence: nat, seen: set<string>,
    today: int, buffer: seq<Pending>)

  /** An event as an emitter sends it; `wellFormed` is the verdict of the envelope check. */
  datatype Inbound = Inbound(wellFormed: bool, sourceId: string, durable: bool, body: string)

  datatype Response = Ack(prevHash: Hash, sequence: nat) | Duplicate(sourceId: string) | Error

  function AppendAll(files: seq<LogFile>, pending: seq<Pending>): seq<LogFile>
    decreases |pending|
  {
    if |pending| == 0 then files
    else AppendAll(AppendLine(files, pending[0].date, pending[0].line), pending[1..])
  }

  function Flush(w: Writer): Writer {
    w.(files := AppendAll(w.files, w.buffer), buffer := [])
  }

  /** Midnight rollover: what is buffered goes to the old day. */
  function RollOver(w: Writer, date: int): Writer {
    if date != w.today then Flush(w).(today := date) else w
  }

  function EventLine(c: Codec, w: Writer, ev: Inbound): Line {
    c.dump(Event(ev.sourceId, w.prevHash, ev.body))
  }

  function Commit(c: Codec, w: Writer, date: int, ev: Inbound): Writer {
    var w1 := RollOver(w, date);
    var line := EventLine(c, w1, ev);
    var w2 :=
      if ev.durable then
        var w' := Flush(w1);
        w'.(files := AppendLine(w'.files, date, line))
      else
        w1.(buffer := w1.buffer + [Pending(date, line)]);
    w2.(prevHash := c.digest(line), sequence := w2.sequence + 1, seen := w2.seen + {ev.sourceId})
  }

  predicate Accepts(w: Writer, ev: Inbound) {
    ev.wellFormed && ev.sourceId !in w.seen
  }

  /** One inbound event handled on day `date`. */
  function Handle(c: Codec, w: Writer, date: int, ev: Inbound): (Writer, Response) {
    if !ev.wellFormed then (w, Error)
    else if ev.sourceId in w.seen then (w, Duplicate(ev.sourceId))
    else
      var w' := Commit(c, w, date, ev);
      (w', Ack(w.prevHash, w'.sequence))
  }

  // ---------------------------------------------------------------- recovery

  datatype Recovered = Recovered(prevHash: Hash, sequence: nat, seen: set<string>)

  /** One non-empty line: malformed lines are skipped; None is the exception that a line which is
      no JSON object raises. */
  function RecoverLine(c: Codec, acc: Recovered, line: Line): Option<Recovered> {
    match Load(c, line)
    case Object(_, sourceId) =>
      Some(Recovered(c.digest(line), acc.sequence + 1,
                     acc.seen + {if sourceId.Some? then sourceId.value else ""}))
    case NonObject => None
    case _ => Some(acc)
  }

  function RecoverLines(c: Codec, acc: Recovered, lines: seq<Line>): Option<Recovered>
    decreases |lines|
  {
    if |lines| == 0 then Some(acc)
    else
      match RecoverLine(c, acc, lines[0])
      case None => None
      case Some(acc') => RecoverLines(c, acc', lines[1..])
  }

  function DataOf(files: seq<LogFile>, date: int): Option<seq<byte>>
    decreases |files|
  {
    if |files| == 0 then None
    else if files[0].date == date then Some(files[0].data)
    else DataOf(files[1..], date)
  }

  function RecoverDay(c: Codec, acc: Recovered, files: seq<LogFile>, date: int): Option<Recovered> {
    match DataOf(files, date)
    case None => Some(acc)
    case Some(data) =>
      if !Decodes(c, data) then None
      else RecoverLines(c, acc, Filter(SkipEmpty, TextLines(data)))
  }

  /** Yesterday's file, then today's; nothing older. */
  function Recover(c: Codec, files: seq<LogFile>, today: int): Option<Recovered> {
    match RecoverDay(c, Recovered(Genesis(c), 0, {}), files, today - 1)
    case None => None
    case Some(acc) => RecoverDay(c, acc, files, today)
  }

  /** A writer process started on day `today`; None when recovery raises. */
  function Start(c: Codec, files: seq<LogFile>, today: int): Option<Writer> {
    match Recover(c, files, today)
    case None => None
    case Some(r) => Some(Writer(files, r.prevHash, r.sequence, r.seen, today, []))
  }

  // ---------------------------------------------------------------- runs

  /** What can happen to a writer.  A restart follows a stop or a crash: `written` of the buffered
      lines had reached the disk (all of them on a clean stop), and the process may have created
      a file for that day or a later one without writing to it. */
  datatype Op =
    | Submit(date: int, event: Inbound)
    | Tick
    | Restart(written: nat, created: Option<int>, date: int)

  /** The disk that a crash leaves behind. */
  function CrashDisk(w: Writer, written: nat, created: Option<int>): seq<LogFile> {
    var k := if written <= |w.buffer| then written else |w.buffer|;
    var files := AppendAll(w.files, w.buffer[..k]);
    if created.Some? then Open(files, created.value) else files
  }

  function Step(c: Codec, w: Writer, op: Op): Option<Writer> {
    match op
    case Submit(date, event) => Some(Handle(c, w, date, event).0)
    case Tick => Some(Flush(w))
    case Restart(written, created, date) => Start(c, CrashDisk(w, written, created), date)
  }

  function Run(c: Codec, w: Writer, ops: seq<Op>): Option<Writer>
    decreases |ops|
  {
    if |ops| == 0 then Some(w)
    else
      match Step(c, w, ops[0])
      case None => None
      case Some(w') => Run(c, w', ops[1..])
  }

  function DayAfter(today: int, op: Op): int {
    match op
    case Submit(date, _) => date
    case Tick => today
    case Restart(_, _, date) => date
  }

  /** The day of a step is not before the writer's, and a file that a crash left empty was created
      in between. */
  predicate StepForward(today: int, op: Op) {
    && DayAfter(today, op) >= today
    && (op.Restart? && op.created.Some? ==> today <= op.created.value <= op.date)
  }

  /** The calendar never runs backwards. */
  ghost predicate DatesForward(today: int, ops: seq<Op>)
    decreases |ops|
  {
    |ops| == 0 || (StepForward(today, ops[0]) && DatesForward(DayAfter(today, ops[0]), ops[1..]))
  }
}
