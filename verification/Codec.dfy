/** The parts of the log format that stay abstract: SHA-256 and JSON text. */
module Codec {
  import opened Bytes

  type Hash = string

  /** What `json.loads` makes of a line.  Of an object only the two members the chain uses
      are kept; None means absent or not a string. */
  datatype Json =
    | Undecodable
    | Malformed
    | NonObject
    | Object(prevHash: Option<Hash>, sourceId: Option<string>)

  /** An event with its writer-assigned chain link; `body` stands for all other members. */
  datatype Event = Event(sourceId: string, prevHash: Hash, body: string)

  datatype Codec = Codec(digest: Line -> Hash, parse: Line -> Json, dump: Event -> Line)

  /** The UTF-8 bytes of "DRNT-GENESIS". */
  const GENESIS_STRING: Line := [68, 82, 78, 84, 45, 71, 69, 78, 69, 83, 73, 83]

  lemma GenesisBytes()
    ensures |GENESIS_STRING| == |"DRNT-GENESIS"|
    ensures forall i :: 0 <= i < |GENESIS_STRING| ==> GENESIS_STRING[i] as int == "DRNT-GENESIS"[i] as int
  {
  }

  function Genesis(c: Codec): Hash {
    c.digest(GENESIS_STRING)
  }

  /** Parsing a line; carriage returns around the value are JSON white space. */
  function Load(c: Codec, raw: Line): Json {
    if StrBlank(raw) then Malformed else c.parse(TrimCR(raw))
  }

  /** Serialisation as `json.dumps` does it: one line, no raw control characters, not blank,
      and read back to the members that were written. */
  ghost predicate Faithful(c: Codec) {
    forall e: Event {:trigger c.dump(e)} ::
      && NoLineBreak(c.dump(e))
      && !StrBlank(c.dump(e))
      && c.parse(c.dump(e)) == Object(Some(e.prevHash), Some(e.sourceId))
  }

  /** No two lines share a digest. */
  ghost predicate CollisionFree(c: Codec) {
    forall a: Line, b: Line {:trigger c.digest(a), c.digest(b)} :: c.digest(a) == c.digest(b) ==> a == b
  }

  lemma LoadChop(c: Codec, raw: Line)
    ensures Load(c, ChopCR(raw)) == Load(c, raw)
  {
    if |raw| > 0 && raw[|raw| - 1] == CR {
      StrBlankChop(raw);
    }
  }

  lemma LoadLeading(c: Codec, raw: Line)
    ensures Load(c, [CR] + raw) == Load(c, raw)
  {
    TrimLeading(raw);
    assert LeadingSpace([CR] + raw) == 1;
    assert ([CR] + raw)[1..] == raw;
  }

  lemma LoadDump(c: Codec, e: Event)
    requires Faithful(c)
    ensures Load(c, c.dump(e)) == Object(Some(e.prevHash), Some(e.sourceId))
    ensures NoLineBreak(c.dump(e)) && !Blank(c.dump(e)) && ChopCR(c.dump(e)) == c.dump(e)
  {
    var raw := c.dump(e);
    assert |raw| > 0 && raw[|raw| - 1] != CR;
    if Blank(raw) {
      BlankIsStrBlank(raw);
    }
  }
}
