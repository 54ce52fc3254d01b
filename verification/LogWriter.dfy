/** The writer and its file manager, updating their fields in place
    (audit-log-writer/src/log_writer.py and audit-log-writer/src/file_manager.py). */
module LogWriter {
  import opened Bytes
  import opened Codec
  import opened AuditRecords
  import opened TextView
  import opened StartupGate
  import opened WriterModel

  class FileManager {
    var files: seq<LogFile>
    var currentDate: Option<int>

    /** An open handle points at an existing file. */
    ghost predicate Valid()
      reads this
    {
      currentDate.Some? ==> HasFile(files, currentDate.value)
    }

    constructor (files: seq<LogFile>)
      ensures Valid() && this.files == files && currentDate == None
    {
      this.files := files;
      currentDate := None;
    }

    method EnsureFileForDate(date: int)
      requires Valid()
      modifies this
      ensures Valid() && currentDate == Some(date)
      ensures files == Open(old(files), date)
    {
      if currentDate != Some(date) {
        if !HasFile(files, date) {
          files := Insert(files, LogFile(date, []));
          InsertHas(old(files), LogFile(date, []));
        }
        currentDate := Some(date);
      }
    }

    method AppendLine(date: int, line: Line)
      requires Valid()
      modifies this
      ensures Valid() && currentDate == Some(date)
      ensures files == WriterModel.AppendLine(old(files), date, line)
    {
      EnsureFileForDate(date);
      ExtendHas(files, date, line + [LF], date);
      files := Extend(files, date, line + [LF]);
    }

    method Close()
      modifies this
      ensures currentDate == None && files == old(files)
    {
      currentDate := None;
    }

    /** Reads yesterday's and today's file; None when reading raises. */
    method RecoverChainState(c: Codec, today: int) returns (r: Option<Recovered>)
      ensures r == Recover(c, files, today)
    {
      var acc := Recovered(Genesis(c), 0, {});
      var days := [today - 1, today];
      for d := 0 to 2
        invariant d == 0 ==> acc == Recovered(Genesis(c), 0, {})
        invariant d == 1 ==> Some(acc) == RecoverDay(c, Recovered(Genesis(c), 0, {}), files, today - 1)
        invariant d == 2 ==> Some(acc) == Recover(c, files, today)
      {
        ghost var before := acc;
        var data := DataOf(files, days[d]);
        if data.Some? {
          var text := ReadText(c, data.value);
          if text.None? {
            return None;
          }
          var lines := Filter(SkipEmpty, text.value);
          for i := 0 to |lines|
            invariant RecoverLines(c, before, lines) == RecoverLines(c, acc, lines[i..])
          {
            assert lines[i..][0] == lines[i] && lines[i..][1..] == lines[i + 1..];
            var event := Load(c, lines[i]);
            if event == NonObject {
              return None;
            }
            if event.Object? {
              var id := if event.sourceId.Some? then event.sourceId.value else "";
              acc := Recovered(c.digest(lines[i]), acc.sequence + 1, acc.seen + {id});
            }
          }
        }
      }
      r := Some(acc);
    }
  }

  lemma {:induction false} InsertHas(files: seq<LogFile>, f: LogFile)
    ensures HasFile(Insert(files, f), f.date)
    decreases |files|
  {
    var all := Insert(files, f);
    if |files| == 0 || f.date < files[0].date {
      assert all[0].date == f.date;
    } else {
      InsertHas(files[1..], f);
      var i :| 0 <= i < |Insert(files[1..], f)| && Insert(files[1..], f)[i].date == f.date;
      assert all[i + 1].date == f.date;
    }
  }

  lemma {:induction false} ExtendHas(files: seq<LogFile>, date: int, text: seq<byte>, d: int)
    requires HasFile(files, d)
    ensures HasFile(Extend(files, date, text), d)
    decreases |files|
  {
    var all := Extend(files, date, text);
    var i :| 0 <= i < |files| && files[i].date == d;
    if files[0].date == date {
      assert all[i].date == d;
    } else if i == 0 {
      assert all[0].date == d;
    } else {
      assert files[1..][i - 1].date == d;
      ExtendHas(files[1..], date, text, d);
      var k :| 0 <= k < |Extend(files[1..], date, text)| && Extend(files[1..], date, text)[k].date == d;
      assert all[k + 1].date == d;
    }
  }

  class AuditLogWriter {
    const codec: Codec
    const fileManager: FileManager

    var prevHash: Hash
    var sequence: nat
    var seenSourceIds: set<string>
    var currentDate: int
    var buffer: seq<Pending>

    ghost predicate Valid()
      reads this, fileManager
    {
      fileManager.Valid()
    }

    /** The state as a value. */
    ghost function State(): Writer
      reads this, fileManager
    {
      Writer(fileManager.files, prevHash, sequence, seenSourceIds, currentDate, buffer)
    }

    /** A process before `Initialize`: genesis anchor, nothing seen, nothing buffered. */
    constructor (codec: Codec, fileManager: FileManager, today: int)
      requires fileManager.Valid()
      ensures Valid() && this.codec == codec && this.fileManager == fileManager
      ensures State() == Writer(fileManager.files, Genesis(codec), 0, {}, today, [])
    {
      this.codec := codec;
      this.fileManager := fileManager;
      prevHash := Genesis(codec);
      sequence := 0;
      seenSourceIds := {};
      currentDate := today;
      buffer := [];
    }

    /** Recovers the chain state of a fresh process; false when recovery raises. */
    method Initialize(today: int) returns (started: bool)
      requires Valid() && buffer == []
      modifies this
      ensures Valid() && started == Start(codec, old(fileManager.files), today).Some?
      ensures started ==> State() == Start(codec, old(fileManager.files), today).value
      ensures !started ==> State() == old(State())
    {
      var r := fileManager.RecoverChainState(codec, today);
      if r.None? {
        return false;
      }
      prevHash, sequence, seenSourceIds := r.value.prevHash, r.value.sequence, r.value.seen;
      currentDate := today;
      return true;
    }

    method FlushBestEffort()
      requires Valid()
      modifies this`buffer, fileManager
      ensures Valid() && State() == Flush(old(State()))
    {
      if |buffer| == 0 {
        return;
      }
      for i := 0 to |buffer|
        invariant Valid() && buffer == old(buffer)
        invariant AppendAll(old(fileManager.files), buffer) == AppendAll(fileManager.files, buffer[i..])
      {
        assert buffer[i..][0] == buffer[i] && buffer[i..][1..] == buffer[i + 1..];
        fileManager.AppendLine(buffer[i].date, buffer[i].line);
      }
      buffer := [];
    }

    /** `_commit_event`: day rollover and the new event. */
    method CommitEvent(date: int, ev: Inbound) returns (event: Event)
      requires Valid()
      modifies this`buffer, this`currentDate, fileManager
      ensures Valid() && State() == RollOver(old(State()), date)
      ensures event == Event(ev.sourceId, prevHash, ev.body)
    {
      if date != currentDate {
        FlushBestEffort();
        currentDate := date;
      }
      currentDate := date;
      event := Event(ev.sourceId, prevHash, ev.body);
    }

    /** `_write_event`: to disk after the buffer when durable, to the buffer otherwise. */
    method WriteEvent(event: Event, date: int, durable: bool) returns (line: Line)
      requires Valid()
      modifies this, fileManager
      ensures Valid() && line == codec.dump(event)
      ensures var w := if durable then Flush(old(State())) else old(State());
        State() == w.(
          files := if durable then AppendLine(w.files, date, line) else w.files,
          buffer := if durable then [] else w.buffer + [Pending(date, line)],
          prevHash := codec.digest(line),
          sequence := w.sequence + 1,
          seen := w.seen + {event.sourceId})
    {
      line := codec.dump(event);
      if durable {
        FlushBestEffort();
        fileManager.AppendLine(date, line);
      } else {
        buffer := buffer + [Pending(date, line)];
      }
      prevHash := codec.digest(line);
      sequence := sequence + 1;
      seenSourceIds := seenSourceIds + {event.sourceId};
    }

    method HandleEvent(date: int, ev: Inbound) returns (resp: Response)
      requires Valid()
      modifies this, fileManager
      ensures Valid() && (State(), resp) == Handle(codec, old(State()), date, ev)
    {
      if !ev.wellFormed {
        return Error;
      }
      if ev.sourceId in seenSourceIds {
        return Duplicate(ev.sourceId);
      }
      var event := CommitEvent(date, ev);
      var line := WriteEvent(event, date, ev.durable);
      resp := Ack(event.prevHash, sequence);
    }

    /** Clean stop: everything buffered is written and the handle is closed. */
    method Shutdown()
      requires Valid()
      modifies this`buffer, fileManager
      ensures Valid() && State() == Flush(old(State()))
    {
      FlushBestEffort();
      fileManager.Close();
    }
  }
}
