# Verification of the DRNT hub's audit log and governance core

Dafny models of the parts of the hub whose correctness spans several components, and proofs about
them. `dafny verify dfyconfig.toml` checks everything.

## What is modelled

**The tamper-evident audit log, as one protocol.** Log files are byte sequences. SHA-256 and JSON
are a `Codec` of three total functions, digest, parse and dump; what is assumed of them is stated
where it is used (`Faithful`: one line per event that reads back; `CollisionFree`; `SplitsLikeJson`: how
JSON text breaks at carriage returns), and `CodecExists` shows that all can hold together. On top of
that:

- `Bytes`, `Codec`, `AuditRecords`, `AuditClassify`, `ReportMeaning`: physical lines, records with byte
  ranges, the segment-aware classifier and what its report says.
- `AuditRepair`, `RepairCrash`: tail repair, byte-exact, torn final writes undone by it, and repairs cut
  off half-way. `AuditTamper`, `TamperBytes`: where an edit or a removal shows, down to the bytes.
- `WriterModel`, `LogWriter`: the writer on values and as the classes that refine it statement by
  statement; `WriterRecovery`, `RecoveryAnchor` and `WriterRuns`: recovery, where it anchors on any
  directory, and all runs with rollovers, buffered events, crashes at line boundaries and restarts.
  `AckMeaning`: what the writer's answers say. `EncodingFailure`: events that do not encode.
- `TextView`, `TextPieces`, `StartupGate`, `GateWindow`, `OtherVerifiers`, `ScriptPieces`,
  `VerifierOutcomes`, `CrlfRewrite`, `Divergences`: three further readers of the same files, which read
  text and not bytes, their outcomes, how they compare with the classifier, and concrete logs on which
  they differ.
- `RecoveredIds`, `AuditClient`: the ids a restart remembers, and the client's retries on top of writer
  runs.

**Three smaller state machines.** `IdempotencyStore`, `JobSubmission` and `JobReview` (submissions,
overrides and reviews, interleaving at their awaits) with `SubmissionOutcomes` and `JobOutcomes` (what
they come to), `CapabilityState`, `TemporalDecay`, `TrustLevels`, `TrustRuns` and `HubStartup` (trust
levels that only configuration may raise) with `DecayPolicy`, `TrustMeaning` and `HubMeaning` (what
each policy, handler and startup does), and the loop algorithms `SpanMerging` with `Redaction` and
`RedactionMeaning`, `CircuitBreaker`, `RateLimiter` and `Pagination`.

## Assumptions

- The calendar never runs backwards (`DatesForward`), and clocks of limiter and decay do not either.
- A crash is a process crash at a line boundary: what was handed to the operating system stays.
  `AuditRepair.TornWrite` and `RepairTornWrite` treat the other case.
- Events are UTF-8 encodable, except in `EncodingFailure`: a lone surrogate in a best-effort event makes
  `compute_hash` raise after the line has entered the buffer (`audit-log-writer/src/log_writer.py:109-118`).
- Carriage returns around a JSON text are white space.
- Only for the statements about carriage returns inside a record: of a JSON object broken at them into
  several lines the last is no object, since it closes a brace that it does not open; broken into one
  line and white space, that line reads like the whole (`SplitsLikeJson`); the genesis text is no JSON
  object.
- A handler's change of state and its event are one step, and durable events are acknowledged in the
  order in which their emits began. The passes of `evaluate_startup` and reconciliation run alone, at
  startup; `evaluate` on a running hub is suspended at each emit. A model change of a running hub is
  one step per capability.
- Emits and database writes succeed unless a step says otherwise: `JobSubmission` and `JobReview` have
  failing emits, cut-off calls and restarts.
- Equal configuration hashes mean equal configurations.

## Where the code differs from its description

- `orchestrator/startup_validator.py:107-147` trusts the first line of its window, so a log of one
  event passes whatever it holds; `CoveringGateIsExact` therefore names record 0 separately.
- `_has_coherent_continuation` lets a record link to an unparsable line before it count as linked for
  `_first_break` but not as coherent; `NothingLostAfterBreak` states exactly when that happens behind a
  break, and `LinkedBehindTheBreak` is such a log.
- The text-mode readers treat a carriage return inside a record as a line end, which the byte reader
  does not. So a valid log need not pass the gate (`LoneCarriageReturn`; exactly when it does:
  `ValidPassesIff`), and recovery need not anchor at its tip (`LoneCarriageReturnMisleadsRecovery`;
  exactly when it does: `AnchorIsTip`, `RecoverableIff`, and what that means for the next event:
  `FirstEventAfterStart`). The writer itself never writes such a record (`RunKeepsClean`).
- The standalone script reads text too, so it can accept a log that the verifier reports as corrupt
  (`ScriptVouchesForCorruptLog`); `IntactAcceptedIff` and `BothAcceptIff` say exactly when the two agree.
- A best-effort event that does not encode is never written, and neither is anything after it: each
  flush stops at it and repeats the lines before it. `StuckVerdict` says exactly when the log is then
  still valid.
- Quarantine files are named by the second. Two repairs within one second share a name, and the later
  one replaces the bytes of the earlier; `ResumeRepair` requires distinct stamps.
- A stored review answer is replaced when two calls with one key and different payloads overlap
  (`AnswerChangesIff`).
- `evaluate` reads a level, awaits its emit and then sets that level minus one. A handler in between
  can have demoted further, and the pass then raises the level again (`InterruptedDecayRaises`);
  `ResumeExactly` gives the exact condition on the level found, and `NoSelfPromotion` is about runs that
  meet it (`SafeStep`), with no announced decay lost to a cut-off pass (`CutExactly`, `EndExactly`).
- The digest in a verification report leaves out blank lines, the digest in the repair manifest does
  not; `SuffixDigestsAgree` gives the exact condition.
- A model change moves a suspended capability from -1 up to 0, although every event is wal.demoted.
- `reconcile` raises at a configured capability without a state entry and keeps the levels it has
  already changed, while the stored hash stays. A later startup under the stored configuration then
  skips reconciliation. `NoSelfPromotion` is therefore proved for runs whose configurations are safe in
  the sense of `SafeConfig`, `StartHubKeeps` shows that this condition is exact, and
  `RolledBackConfigurationKeepsLevel` is a run that breaks the bound.
- A submission that is cut off while its event is being emitted leaves its key reserved for ever
  (`AbandonedNeverLoads`).
- Two overlapping reviews with different keys are both applied (`OverlappingReviewsBothApply`); a review
  decides only at its events, so the first does not shut out a second before its closing one is
  acknowledged. `SecondReviewIff` gives the exact condition and `SequentialReviewsExclude` what holds
  afterwards.
- A page limit below 1 loses jobs; the HTTP route does not let one through.

## Model

| member | source | states |
|---|---|---|
| `AuditRecords.ReadFileRecords` | orchestrator/audit_integrity.py:129-166 | One pass over the bytes of a file yields one record per non-blank physical line, with the byte range of the line and its parsed view |
| `AuditRecords.ReadRecords` | orchestrator/audit_integrity.py:179-184 | All files in order, records numbered through |
| `AuditRecords.RecordsWellPlaced` | orchestrator/audit_integrity.py:142-165 | Every record's byte range is one whole physical line of its file, inside the file, with consecutive indices and ascending positions |
| `AuditRecords.RecordsSplit` | orchestrator/audit_integrity.py:129-166 | Reading a file that was cut after a newline, and then the rest from the cut on, gives the records of the whole file |
| `AuditRecords.RecordsAppendLine` | orchestrator/audit_integrity.py:129-166 | A line appended to a newline-terminated file adds exactly one record and disturbs none |
| `AuditClassify.SegmentStarts` | orchestrator/audit_integrity.py:232-247 | Flags exactly the first record of every file |
| `AuditClassify.FindFirstBreak` | orchestrator/audit_integrity.py:250-269 | The least record that neither carries the hash before it nor opens a segment at the start of a file; -1 when all link |
| `AuditClassify.FirstBreak` | orchestrator/audit_integrity.py:250-269 | The result links at every earlier record and at none when it is -1, and does not link at the break |
| `AuditClassify.FindCoherentContinuation` | orchestrator/audit_integrity.py:272-289 | True exactly when some later record links coherently to the record before it |
| `AuditClassify.Classify` | orchestrator/audit_integrity.py:302-395 | Empty exactly without records, valid exactly when every record links, and a broken tail always has a valid prefix in front of the break; every field of the report is settled by ReportMeaning.ReportMeans |
| `AuditClassify.HashSuffix` | orchestrator/audit_integrity.py:292-299 | Digest of the raw bytes of the records from the break on, newlines included |
| `AuditClassify.ClassifyRecords` | orchestrator/audit_integrity.py:302-395 | The branches of the classifier compute that report, counts, tip hash and suffix digest included; what it means is ReportMeaning.ReportMeans |
| `ReportMeaning.ReportMeans` | orchestrator/audit_integrity.py:302-395 | For every list of records and every status: the number of records, the length of the longest valid prefix, its last record and tip hash, the record that breaks it and the digest of the bytes from there on; interior exactly when that prefix is empty or some later record resumes the chain |
| `ReportMeaning.FileReportMeans` | orchestrator/audit_integrity.py:302-395 | On files the last valid record is the one before the first invalid one, also when all are valid |
| `ReportMeaning.ReportCountsSegments` | orchestrator/audit_integrity.py:325-339 | The report on a valid directory gives the number of its segments, however it is split into segments |
| `AuditClassify.VerifyPath` | orchestrator/audit_integrity.py:398-402 | Reads everything and reports the classification of the records |
| `AuditClassify.ValidSplits` | orchestrator/audit_integrity.py:232-269 | A valid log is a concatenation of segments, each opening at genesis at the first record of a file and linked record by record |
| `AuditClassify.SplitsValid` | orchestrator/audit_integrity.py:232-269 | Conversely every such concatenation of segments classifies as valid |
| `AuditClassify.ChainGrows` | orchestrator/audit_integrity.py:250-269 | A valid chain with one more record is valid exactly when that record links |
| `AuditClassify.ValidPrefixes` | orchestrator/audit_integrity.py:250-269 | Every prefix of a valid chain is valid |
| `AuditRepair.LogDirectory.RepairTail` | orchestrator/audit_integrity.py:418-516 | Repairs exactly the logs classified as broken tail and leaves every other directory untouched; the cut is where the first record that does not link starts, in its file at its byte; sealed plus quarantined bytes are the original bytes; the manifest holds counts, anchor and the digest of what was quarantined; every moment in between is a crash point as RepairCrash.NoByteLost speaks of it |
| `AuditRepair.LogDirectory.SealAndUnlink` | orchestrator/audit_integrity.py:474-485 | Truncates the break file and then removes the newer files one by one, ending with the sealed files; each moment has the whole quarantine and the newer files not yet removed |
| `RepairCrash.NoByteLost` | orchestrator/audit_integrity.py:459-485 | At every moment of a repair, a half-written quarantine included, either all files are as they were or the sealed files are there and, with the quarantine, hold all bytes; no other quarantine file is touched |
| `RepairCrash.CutOffVerdict` | orchestrator/audit_integrity.py:474-485 | The directory that a repair leaves after any number of removals verifies when no record is left behind the sealed ones; it is a broken tail at the same record with the same tip when the first record left does not carry that tip, and breaks only later, if at all, when it does |
| `RepairCrash.ResumeRepair` | orchestrator/audit_integrity.py:418-516 | A second repair under another stamp then keeps the valid prefix of the original log and every quarantined byte, and ends with exactly that prefix unless the first record left carried its tip |
| `AuditRepair.SplitAtFile` | orchestrator/audit_integrity.py:446-478 | Finds the file holding the break and the files before and after it |
| `AuditRepair.Collect` | orchestrator/audit_integrity.py:462-478 | Collects the bytes and names of the files moved to quarantine, in order |
| `AuditRepair.SealedPlusCutOff` | orchestrator/audit_integrity.py:459-478 | Sealed bytes followed by the bytes cut off are the original bytes of all files |
| `AuditRepair.CutAtRecord` | orchestrator/audit_integrity.py:129-166 | Cutting a file where a record starts leaves exactly the records before it, and a newline-terminated file |
| `AuditRepair.BreakPoint` | orchestrator/audit_integrity.py:446-462 | Sealing at the file and offset of the first corrupt record leaves files that re-read to exactly the records before it |
| `AuditRepair.PrefixVerifies` | orchestrator/audit_integrity.py:349-395 | The records before the first break classify as valid with the tip that the report of the broken log names |
| `AuditRepair.RepairHolds` | orchestrator/audit_integrity.py:446-509 | After a repair the files re-read to exactly the valid prefix and verify with the reported tip, and every sealed file is a byte prefix of the original |
| `AuditRepair.NothingLostAfterBreak` | orchestrator/audit_integrity.py:272-289 | Behind a broken tail no quarantined record is a coherent continuation; it links exactly when it carries the hash of the line before it and that line is no JSON object |
| `AuditRepair.SuffixDigestsAgree` | orchestrator/audit_integrity.py:292-299 | After any repair the digest in the report on the broken log is the digest in the manifest exactly when no line from the cut on is blank |
| `AuditRepair.SuffixBytesAgree` | orchestrator/audit_integrity.py:292-299 | The bytes that the report digests are the bytes that a cut at the break quarantines exactly when no line from there on is blank |
| `AuditRepair.TornWrite` | orchestrator/audit_integrity.py:358-395 | A torn final line on a terminated valid log adds one record; the log is valid when that record happens to link and otherwise a broken tail whose break starts where the log ended |
| `AuditRepair.CutRestoresTornWrite` | orchestrator/audit_integrity.py:446-478 | Whatever cuts a torn log at its break restores the files byte for byte and quarantines exactly the fragment |
| `AuditRepair.RepairTornWrite` | orchestrator/audit_integrity.py:418-516 | A log torn and then repaired has its original files again, with the fragment in quarantine; a fragment that links is refused and left alone |
| `AuditRepair.AppendedVerdict` | orchestrator/audit_integrity.py:349-395 | Verdict on a valid chain with one more record, in both cases |
| `AuditTamper.EditVerdict` | orchestrator/audit_integrity.py:250-289 | An edited record with the same link and another hash shows at exactly the next record: interior corruption when two records follow, a broken tail when one does, unseen exactly when none does or the next opens a segment |
| `AuditTamper.EditChangesHash` | orchestrator/audit_integrity.py:220-229 | Under a collision-free hash two records have the same chain hash exactly when their lines are equal up to one trailing carriage return |
| `AuditTamper.RemovalVerdict` | orchestrator/audit_integrity.py:250-289 | Verdict on a valid log with one record removed, whose hash is not that of its predecessor or genesis: first break and status in every position |
| `TamperBytes.EditOnDisk` | orchestrator/audit_integrity.py:129-166 | Replacing one physical line of a file by another line replaces exactly its record, up to index and offsets |
| `TamperBytes.RemovalOnDisk` | orchestrator/audit_integrity.py:129-166 | Removing one physical line of a file removes exactly its record, up to index and offsets |
| `TamperBytes.EditedLogVerdict` | orchestrator/audit_integrity.py:250-289 | The verdict on the files of a valid log with the bytes of one line replaced: first break and status in every position |
| `TamperBytes.RemovedLogVerdict` | orchestrator/audit_integrity.py:250-289 | The verdict on the files of a valid log with the bytes of one line removed, in every position |
| `AuditTamper.VerdictAtBreak` | orchestrator/audit_integrity.py:349-395 | First break and status from the first record that does not link and whether the next is coherent |
| `AuditTamper.TipDeterminesSegment` | orchestrator/audit_integrity.py:220-269 | Under a collision-free hash the tip of a segment determines all its lines |
| `AuditTamper.NoRecordHashesToGenesis` | orchestrator/audit_integrity.py:220-229 | The genesis hash is the hash of no record |
| `TextView.RecordsAreLines` | orchestrator/audit_integrity.py:129-166 | The raw lines of the records are the physical lines of the file without the blank ones |
| `TextView.TextLinesAreChopped` | orchestrator/startup_validator.py:555-561 | With carriage returns only before newlines, reading as text yields the physical lines, each without its trailing carriage return |
| `TextPieces.TextLinesArePieces` | orchestrator/startup_validator.py:555-561 | Reading any bytes as text yields the physical lines, each without its trailing carriage return and broken at the carriage returns inside |
| `TextPieces.TextShowsRecords` | orchestrator/startup_validator.py:551-566 | The non-blank text lines of a file are the visible pieces of its records, in order |
| `StartupGate.CheckHashChain` | orchestrator/startup_validator.py:545-581 | The loop over the newest files gathers lines until the window is full and passes the tail of them on |
| `StartupGate.VerifyTailChain` | orchestrator/startup_validator.py:107-147 | Scans from the second line of the window: passed, first bad position, or the exception |
| `StartupGate.GatherIsSuffix` | orchestrator/startup_validator.py:551-566 | What is gathered is the end of the log: all of it or at least the asked number of lines |
| `StartupGate.ValidPassesGate` | orchestrator/startup_validator.py:107-147 | A valid log with carriage returns only before newlines passes the gate at every window size, zero and negative ones included |
| `StartupGate.RejectionIsCorruption` | orchestrator/startup_validator.py:545-581 | For such logs, whenever the gate does not pass, the full verifier reports a broken tail or interior corruption |
| `StartupGate.CoveringGateIsExact` | orchestrator/startup_validator.py:545-581 | For such logs, when the window covers the log: valid exactly when the gate passes, record 0 carries genesis and no line is blank to str.strip only |
| `GateWindow.ValidPassesIff` | orchestrator/startup_validator.py:545-581 | Without any condition on carriage returns: a valid log passes exactly when every record with a line in the window behind its first line shows as one line and follows a record without inner carriage return, or opens a segment |
| `GateWindow.WindowIsTail` | orchestrator/startup_validator.py:551-570 | The window is the end of the text lines of the log, as many as asked for or all |
| `GateWindow.CoveringPassIff` | orchestrator/startup_validator.py:545-581 | Without any condition on carriage returns: when the window covers the log and the gate passes, the log is valid exactly when it opens at genesis and each record is an object that shows as one line behind a record without inner carriage return, or opens a segment |
| `VerifierOutcomes.GateMeaning` | orchestrator/startup_validator.py:545-581 | On any log: raises on a file it reads and cannot decode; otherwise the window, the last lines asked for or all, passes, fails at its first line that does not continue the one before it, or raises there when that line is a JSON value but no object |
| `VerifierOutcomes.GateWithoutWindow` | orchestrator/startup_validator.py:545-581 | A window size of 0 or less looks at the newest file alone, without as many of its first lines as the size is below 0 |
| `GateWindow.EmptyPasses` | orchestrator/startup_validator.py:545-581 | A log without records passes |
| `StartupGate.ReadText` | orchestrator/startup_validator.py:555-561 | Decodes all text lines or raises |
| `OtherVerifiers.VerifyScript` | audit-log-writer/scripts/drnt_audit_verify.py:40-105 | The loops over files and lines compute the verdict of the scan |
| `OtherVerifiers.ScanAccepts` | audit-log-writer/scripts/drnt_audit_verify.py:52-97 | The scan accepts exactly one unbroken chain of lines from the expected hash on |
| `OtherVerifiers.ScriptAcceptsSingleSegments` | audit-log-writer/scripts/drnt_audit_verify.py:40-105 | With carriage returns only before newlines the standalone script accepts exactly the logs that the segment-aware verifier accepts, that are one segment, and whose blank lines are empty; no assumption on the codec |
| `ScriptPieces.ScriptLinesArePieces` | audit-log-writer/scripts/drnt_audit_verify.py:62-66 | What the script looks at are the pieces of the physical lines of all files that are not empty, in order |
| `ScriptPieces.ScriptIntactIff` | audit-log-writer/scripts/drnt_audit_verify.py:40-105 | On any files the script returns True exactly when all decode and those pieces form one chain from genesis |
| `VerifierOutcomes.ScriptCrashesIff` | audit-log-writer/scripts/drnt_audit_verify.py:62-105 | The script ends in an exception exactly when some file does not decode or holds a line that is a JSON value but no object, wherever that is |
| `ScriptPieces.IntactAcceptedIff` | audit-log-writer/scripts/drnt_audit_verify.py:40-105 | When the script returns True the log is valid or empty exactly when every record shows as one piece that is not empty and every record with a successor has no carriage return inside |
| `ScriptPieces.BothAcceptIff` | audit-log-writer/scripts/drnt_audit_verify.py:40-105 | Script and segment-aware verifier both accept exactly the logs that are one segment of such records and whose blank lines show nothing; so a valid log is accepted by the script exactly then |
| `ScriptPieces.CleanShowsWhole` | audit-log-writer/scripts/drnt_audit_verify.py:62-66 | With carriage returns only before newlines the condition on records always holds, and blank lines show nothing when they are empty |
| `Divergences.ScriptVouchesForCorruptLog` | audit-log-writer/scripts/drnt_audit_verify.py:62-66 | With a codec that meets every assumption: a log that the script accepts and the verifier reports as corrupt in its interior, two chained events with only a carriage return between them |
| `OtherVerifiers.VerifyChain` | audit-log-writer/src/hash_chain.py:14-46 | The index loop with early return computes the first position out of order |
| `VerifierOutcomes.ChainCheckMeaning` | audit-log-writer/src/hash_chain.py:14-46 | In order exactly when every line is an object with the hash of the line before it; otherwise broken at the first that is not, or an exception when that one is no object |
| `OtherVerifiers.ChainChecksAgree` | audit-log-writer/src/hash_chain.py:14-46 | On one file of JSON objects the writer's check and the segment-aware one find the same first break |
| `CrlfRewrite.CrlfKeepsVerdict` | orchestrator/audit_integrity.py:220-229 | Rewriting all newlines to CR LF changes no part of the verdict on the chain: status, counts, first break, tip, segments |
| `CrlfRewrite.ToCrlfLines` | orchestrator/audit_integrity.py:142-165 | The rewritten file has the same physical lines, each followed by a carriage return |
| `Divergences.LoneCarriageReturn` | orchestrator/startup_validator.py:555-561 | With a codec that meets every assumption: a log that verifies and that the gate rejects in every window of two lines or more, because of a carriage return inside a record |
| `Divergences.HiddenBlankLine` | orchestrator/startup_validator.py:555-561 | With such a codec: a log the gate passes in every window and the verifier reports, because of a line blank to str.strip but not to bytes.strip |
| `Divergences.LoneCarriageReturnMisleadsRecovery` | audit-log-writer/src/file_manager.py:79-109 | With such a codec: on a valid log with a carriage return inside its record the writer starts, and no durable event it writes that day leaves the log valid |
| `Divergences.RepairedLogMisleadsRecovery` | orchestrator/audit_integrity.py:446-509 | Such a log is what a repair restores from a torn write |
| `Divergences.LinkedBehindTheBreak` | orchestrator/audit_integrity.py:272-289 | A log with a broken tail in which a quarantined record links, behind a line that is no JSON object |
| `LogWriter.FileManager.EnsureFileForDate` | audit-log-writer/src/file_manager.py:35-38 | Opens the day's file, creating it empty, and keeps every byte |
| `LogWriter.FileManager.AppendLine` | audit-log-writer/src/file_manager.py:40-46 | Adds the line and a newline at the end of the day's file and nothing else |
| `LogWriter.FileManager.RecoverChainState` | audit-log-writer/src/file_manager.py:60-109 | Hash, sequence and seen ids as recovered from yesterday's and today's lines; None when a line that is no JSON object raises |
| `LogWriter.FileManager.Close` | audit-log-writer/src/file_manager.py:53-58 | Closes the file and changes no byte |
| `LogWriter.AuditLogWriter.Initialize` | audit-log-writer/src/log_writer.py:52-63 | A started writer holds exactly the recovered state and an empty buffer, or initialization raises |
| `LogWriter.AuditLogWriter.FlushBestEffort` | audit-log-writer/src/log_writer.py:122-130 | Every buffered line goes to the file of its day, in order, and the buffer is empty |
| `LogWriter.AuditLogWriter.CommitEvent` | audit-log-writer/src/log_writer.py:65-99 | Rolls over, flushing into the old day, and links the event to the current anchor |
| `LogWriter.AuditLogWriter.WriteEvent` | audit-log-writer/src/log_writer.py:101-120 | Flush-and-append for a durable event, buffering for any other; then the new anchor, sequence number and seen set |
| `LogWriter.AuditLogWriter.HandleEvent` | audit-log-writer/src/log_writer.py:137-158 | Rejects malformed and repeated events without a change and commits every other one |
| `LogWriter.AuditLogWriter.Shutdown` | audit-log-writer/src/log_writer.py:237-248 | Flushes and closes: nothing stays buffered |
| `WriterRecovery.StartRecovers` | audit-log-writer/src/file_manager.py:60-109 | On a valid directory with carriage returns only before newlines recovery never raises; its anchor is the tip of the last two days, or genesis when they are empty, and it remembers exactly their ids |
| `RecoveryAnchor.StartMeaning` | audit-log-writer/src/file_manager.py:60-109 | On any directory: a start raises exactly when some text line of the last two days does, and anchors at the last text line there that is a JSON object |
| `RecoveredIds.StartSeen` | audit-log-writer/src/file_manager.py:79-96 | On any directory a started writer remembers exactly the ids that text lines of the last two days show |
| `RecoveredIds.StartCandid` | audit-log-writer/src/file_manager.py:79-96 | Where text lines show an id on the days on which records have it, a restart remembers it exactly when a record of the last two days has it |
| `RecoveredIds.CommitCandid` | audit-log-writer/src/log_writer.py:101-120 | No committed event changes that for any id; nor does a flush or a crash |
| `RecoveryAnchor.AnchorIsTip` | audit-log-writer/src/file_manager.py:60-109 | On any valid directory: the anchor is the tip exactly when the last record of the last two days has no carriage return inside; without a record there it is genesis |
| `RecoveryAnchor.RecoverableIff` | audit-log-writer/src/file_manager.py:60-109 | On any valid directory, exactly when recovery neither raises nor anchors where no event can go |
| `RecoveryAnchor.AppendRecoverable` | audit-log-writer/src/file_manager.py:40-46 | A line that is a JSON object, appended on the newest day, keeps a directory recoverable |
| `WriterRecovery.AppendAtEnd` | audit-log-writer/src/file_manager.py:40-46 | A line appended on the newest day adds exactly one record at the end of the log |
| `WriterRuns.AppendedLinks` | audit-log-writer/src/log_writer.py:65-99 | A record extends a valid dated chain exactly when it carries the tip, or carries genesis as the first record of its file |
| `WriterRuns.FlushKeeps` | audit-log-writer/src/log_writer.py:122-130 | A flush keeps the invariant and moves the buffered records to disk unchanged |
| `WriterRuns.CommitKeeps` | audit-log-writer/src/log_writer.py:65-99 | A committed event adds exactly its own record; a durable one is on disk at once |
| `WriterRuns.CrashDiskValid` | audit-log-writer/src/log_writer.py:122-130 | After a crash at any line boundary of a flush, before or after the new file of that or a later day was created, the disk is a valid log between the old disk and disk plus buffer on which recovery finds its way |
| `WriterRuns.StepKeeps` | audit-log-writer/src/log_writer.py:52-158 | Every event, flush, crash and restart keeps disk plus buffer one segmented chain with the writer's anchor as tip, and the disk recoverable |
| `WriterRuns.RunKeeps` | audit-log-writer/src/log_writer.py:52-158 | Over every run recovery never raises, the invariant holds and no record on disk is lost or reordered |
| `WriterRuns.EveryRunVerifies` | audit-log-writer/src/log_writer.py:52-158 | After every run from an empty directory the files classify as valid or empty, before and after a flush |
| `WriterRuns.EveryRunPassesGate` | orchestrator/startup_validator.py:545-581 | After every run from an empty directory the files pass the startup gate in every window, before and after a flush |
| `WriterRuns.RunKeepsClean` | audit-log-writer/src/log_writer.py:52-158 | No run of the writer brings a carriage return inside a record into a log without one |
| `WriterRuns.RepairThenResume` | orchestrator/audit_integrity.py:446-509 | After a repair that leaves recoverable files, whatever bytes were quarantined, a writer starts and every further run verifies and keeps all sealed records, from the manifest's anchor or a fresh segment |
| `WriterRuns.CleanRepairResumes` | orchestrator/audit_integrity.py:446-509 | A repair leaves recoverable files whenever the sealed files have carriage returns only before newlines, whatever was quarantined |
| `WriterRuns.FirstEventAfterStart` | audit-log-writer/src/log_writer.py:52-99 | On any valid directory: the first durable event after a start keeps the log valid exactly when the directory is recoverable |
| `WriterRuns.CommitValidIff` | audit-log-writer/src/log_writer.py:65-99 | Whether a commit on any anchor keeps the log valid: exactly when the anchor is the tip, or genesis on an unused day |
| `AckMeaning.AcksTellTheTruth` | audit-log-writer/src/log_writer.py:137-158 | Over every run from a clean valid directory, crashes and restarts included: an event is answered with an error or as a duplicate and changes nothing, or adds one record at the end of the log, and the answer holds that record's own link and its place among the records dated from the day before the last start on |
| `AckMeaning.StartCounts` | audit-log-writer/src/file_manager.py:79-96 | A writer started on a clean valid directory has counted the records of the last two days |
| `AckMeaning.EventAnswered` | audit-log-writer/src/log_writer.py:137-158 | One event: malformed, duplicate or acknowledged, what each changes, and that a durable one leaves nothing in the buffer |
| `AckMeaning.TickWrites` | audit-log-writer/src/log_writer.py:122-135 | The periodic flush brings everything accepted to disk and changes nothing else |
| `AuditClient.EmitDurable` | orchestrator/audit_client.py:62-100 | For every list of attempts: the result, the time slept and the writer's state are those of the first attempt that did not end in a retried failure; all attempts are made before a timeout is reported |
| `AuditClient.EmitMeans` | orchestrator/audit_client.py:62-100 | When no restart raises: timed out exactly when every attempt ended in a retried failure; otherwise accepted, rejected or raised as the first other attempt was answered, its event well formed, or not retried; the writer handled the event at exactly the delivered attempts up to it |
| `AuditClient.StepOnce` | audit-log-writer/src/log_writer.py:137-158 | No event of other emitters, flush, crash or restart before the second midnight changes how often an id occurs or makes the writer forget it, where text lines show it as records do |
| `AuditClient.ExactlyOnce` | orchestrator/audit_client.py:62-100 | A durable event whose id is in no record of the log and in no text line of the last two days is there at most once after all attempts, and on disk exactly once when the client is told True |
| `AuditClient.DedupWindow` | audit-log-writer/src/file_manager.py:79-96 | After a restart on any recoverable directory a repeated id is recognised exactly when a text line of the last two days shows it; otherwise it is written a second time |
| `AuditClient.DedupByDate` | audit-log-writer/src/file_manager.py:79-96 | With carriage returns only before newlines that is exactly when its record is of yesterday or today |
| `EncodingFailure.RefusedDurableKeeps` | audit-log-writer/src/log_writer.py:107-120 | A durable event that does not encode leaves the invariant and the records as they are |
| `EncodingFailure.StuckWritesTheSame` | audit-log-writer/src/log_writer.py:107-130 | Behind a best-effort event that does not encode nothing else reaches the disk: every flush writes the lines buffered before it once more |
| `EncodingFailure.StuckVerdict` | audit-log-writer/src/log_writer.py:107-130 | The log then verifies exactly when those lines were written at most once, or there are none, or their hashes form a cycle; otherwise it is corrupt in its interior, or a broken tail when there is only one line |
| `EncodingFailure.DurableThenTick` | audit-log-writer/src/log_writer.py:107-135 | One durable event and the next periodic flush are enough for that |
| `EncodingFailure.StuckUntilTick` | audit-log-writer/src/log_writer.py:122-135 | Such a writer stays up until the next periodic flush and no longer |
| `EncodingFailure.StuckAnswers` | audit-log-writer/src/log_writer.py:101-158 | Until then it acknowledges and links best-effort events of its day, none of which reaches the disk, and refuses durable ones and those of another day |
| `CodecExists.AssumptionsAreConsistent` | audit-log-writer/src/hash_chain.py:9-11 | The assumptions on hash and JSON codec can hold together: a codec exists that is faithful, free of collisions and breaks at carriage returns as JSON does, with genesis as no record |
| `IdempotencyStore.Store.FromDatabase` | orchestrator/idempotency_store.py:124-219 | A restarted store equals the old one minus exactly the submit keys whose job is missing, delivered or failed; reviews and source events survive |
| `IdempotencyStore.KeptAtRestart` | orchestrator/idempotency_store.py:124-154 | A submit key survives a restart exactly when its job is in the jobs table, neither delivered nor failed, and keeps its record |
| `IdempotencyStore.Store.CheckAndStore` | orchestrator/idempotency_store.py:259-277 | First writer wins, and maps and rows still agree |
| `IdempotencyStore.Store.UpdateStatus` | orchestrator/idempotency_store.py:279-288 | Changes the status of one known record, in memory and in its row |
| `IdempotencyStore.Store.PurgeExpired` | orchestrator/idempotency_store.py:295-311 | Removes exactly the submit keys older than the limit and reports how many |
| `IdempotencyStore.KeptAfterPurge` | orchestrator/idempotency_store.py:295-311 | A purge leaves exactly the keys at most as old as the limit, with their records, and counts the others |
| `IdempotencyStore.FirstWriterWins` | orchestrator/idempotency_store.py:458-524 | The first writer's mapping stays for any later one, which learns whether its intent differs; a release undoes exactly a reservation that still names its job, and no other key changes |
| `IdempotencyStore.Store.StoreReviewOutcome` | orchestrator/idempotency_store.py:342-364 | Stores a review outcome in memory and in its row |
| `IdempotencyStore.Store.CheckAndStoreSourceEvent` | orchestrator/idempotency_store.py:458-506 | New, equivalent or conflicting, with the stored mapping; only a new key changes anything |
| `IdempotencyStore.Store.ReleaseSourceEvent` | orchestrator/idempotency_store.py:508-523 | Removes a reservation only while it maps to the same job |
| `IdempotencyStore.PurgeMirrors` | orchestrator/idempotency_store.py:124-155 | Deleting the stale rows keeps rows and maps in agreement |
| `IdempotencyStore.PrefixesDisjoint` | orchestrator/idempotency_store.py:157-219 | The three key namespaces never collide |
| `IdempotencyStore.LoadSources` | orchestrator/idempotency_store.py:157-219 | Reading the rows of one namespace back yields exactly the map they mirror |
| `IdempotencyStore.LoadRecords` | orchestrator/idempotency_store.py:157-219 | The same for the submit records |
| `IdempotencyStore.LoadReviews` | orchestrator/idempotency_store.py:157-219 | The same for the review records |
| `IdempotencyStore.FindExpired` | orchestrator/idempotency_store.py:295-303 | Collects exactly the keys older than the limit |
| `IdempotencyStore.PutIdem` | orchestrator/idempotency_store.py:221-239 | Writing a record and its row keeps the agreement of all three namespaces |
| `IdempotencyStore.PutReview` | orchestrator/idempotency_store.py:319-340 | The same for a review record |
| `IdempotencyStore.PutSource` | orchestrator/idempotency_store.py:395-422 | The same for a source-event record |
| `IdempotencyStore.DropSource` | orchestrator/idempotency_store.py:442-456 | Deleting a source-event record and its row keeps the agreement |
| `JobSubmission.EnterKeeps` | orchestrator/job_manager.py:377-411 | Taking the lock and reserving, up to the first await, keeps the invariant |
| `JobSubmission.EmittedKeeps` | orchestrator/job_manager.py:499-547 | Materializing the job after the acknowledged emit keeps it |
| `JobSubmission.EmitFailedKeeps` | orchestrator/job_manager.py:430-446 | Rolling back after a failed emit keeps it |
| `JobSubmission.CancelKeeps` | orchestrator/job_manager.py:377-446 | A call cut off at any await keeps it |
| `JobSubmission.RestartKeeps` | orchestrator/job_manager.py:369-446 | A restart on the database keeps it |
| `JobSubmission.StepKeeps` | orchestrator/job_manager.py:369-547 | Every stretch of code between two awaits, every cut-off call and every restart keeps the reservation invariant |
| `JobSubmission.AtMostOneJob` | orchestrator/job_manager.py:369-446 | In every interleaving at most one job is ever materialized per source event, and every answer with a job id names that job |
| `JobSubmission.ChangedIntentChangesNothing` | orchestrator/job_manager.py:389-410 | A replay with a changed intent, whatever other calls do in between, changes no job, mapping or history in any of its steps, and is refused with the job its key maps to |
| `JobSubmission.FailedEmitReleases` | orchestrator/job_manager.py:411-446 | When the durable emit fails the job was never stored: its reservation is removed, the lock is free and nothing else changes |
| `JobSubmission.EquivalentReplayReturns` | orchestrator/job_manager.py:411-473 | An equivalent replay of a materialized job returns that job at once and changes nothing |
| `SubmissionOutcomes.EntryMeaning` | orchestrator/job_manager.py:374-447 | Behind its lock a submission reserves a fresh key for its own candidate, returns a job there is, waits for one that cannot be loaded, or reports the other intent; nothing else is written |
| `SubmissionOutcomes.AcknowledgedOutcome` | orchestrator/job_manager.py:499-547 | Over all runs: after the acknowledged event the submission answers with its own job, stored as submitted, or, with a full queue, reports that and stores it as failed; the job keeps that status until the pipeline changes it, restarts included, and the answer and the mapping stand |
| `SubmissionOutcomes.PendingAfterFivePolls` | orchestrator/job_manager.py:381-473 | Over all runs: a replay of a key whose job cannot be loaded looks again exactly five times, reports the divergence and then fails as pending with that job, unless it is cut off |
| `SubmissionOutcomes.EndMeaning` | orchestrator/job_manager.py:389-447 | What each other end of a submission answers, that its lock is free and that no job has changed |
| `SubmissionOutcomes.RestartMeaning` | orchestrator/job_manager.py:233-251 | A restart forgets calls and locks, keeps the database, and reads back exactly the stored jobs that are not delivered, failed or revoked |
| `JobSubmission.AbandonedNeverLoads` | orchestrator/job_manager.py:460-473 | A replay that has to poll waits for a job whose owner was cut off, and never gets it |
| `JobReview.StepKeeps` | orchestrator/job_manager.py:556-928 | Every stretch of override, review, spawn, pipeline and restart keeps the invariant of jobs and calls |
| `JobReview.OverrideReviewExclusion` | orchestrator/job_manager.py:572-600 | In every interleaving at most one human.override is acknowledged per job; none is sent, its reply lost or not, beside a terminal review decision; at most one successor is spawned, and parent links form disjoint chains |
| `JobReview.FirstOverrideWins` | orchestrator/job_manager.py:582-600 | Once set the override type of a job never changes |
| `JobReview.LaterCallsAreNoOps` | orchestrator/job_manager.py:572-600 | Over all runs: once a job is decided or overridden an override changes nothing after any further steps, and once it is overridden a review changes nothing |
| `JobReview.ReviewReplays` | orchestrator/job_manager.py:820-846 | Over all runs: once a review is answered with no other call under way for its key, after any steps that lose no answer the same review gets the same answer and another payload is refused |
| `JobReview.AnswerChangesIff` | orchestrator/job_manager.py:820-846 | A stored answer changes in a step exactly when a restart loses it, or another call under the same key with another payload comes to its end |
| `JobReview.SequentialReviewsExclude` | orchestrator/job_manager.py:850-946 | Over all runs: once the answer to a terminal review is stored, or a decline_to_act is under way, a review under a new key is refused and changes nothing, however many steps lie in between, unless pipeline or restart have touched the job |
| `JobReview.SecondReviewIff` | orchestrator/job_manager.py:848-928 | Over all runs: a decided job is decided again exactly when it is present, still proposal_ready, and result and text fit; while only calls have touched it that is exactly until a decision has closed it |
| `JobReview.OverlappingReviewsBothApply` | orchestrator/job_manager.py:854-1001 | A run in which two overlapping reviews with different keys are both applied |
| `JobReview.BeginOverrideKeeps` | orchestrator/job_manager.py:556-600 | The guards of an override and what it does before its first await keep the invariant |
| `JobReview.ContinueOverrideKeeps` | orchestrator/job_manager.py:600-791 | Each later stretch of an override, spawning included, keeps it |
| `JobReview.BeginReviewKeeps` | orchestrator/job_manager.py:795-928 | The guards of a review and what it does before its emit keep it |
| `JobReview.ContinueReviewKeeps` | orchestrator/job_manager.py:962-1185 | What a review does after its emit keeps it; what that is, is JobOutcomes.ClosingEvent |
| `JobOutcomes.ReviewBegins` | orchestrator/job_manager.py:820-928 | What a review answers at once, or how it goes on: replayed, 404, 409 or 422, or decided, from the job as it finds it |
| `JobOutcomes.ClosingEvent` | orchestrator/job_manager.py:962-1185 | The event that ends a review, from the payload's decision: delivered exactly by approve and edit, failed exactly by reject, otherwise no other status; the edited result exactly after an edit; a defer changes no job; the answer is stored |
| `JobOutcomes.DecisionsTakeEffect` | orchestrator/job_manager.py:962-1185 | Over all runs: a job decided once and touched by nothing but calls is delivered after the closing event of an approve or edit, failed after that of a reject, ready until then, and closed without action from a decline_to_act on |
| `JobOutcomes.OverrideBegins` | orchestrator/job_manager.py:575-720 | What an override answers at once, or how it goes on, from the job as it finds it; no other job changes |
| `JobOutcomes.OverrideTakesEffect` | orchestrator/job_manager.py:610-793 | Over all runs, whatever happens in between: an override that answers that it is done has at one of its own events failed the job (cancel or redirect before delivery), revoked it (after delivery, and every escalation) or delivered it (modify) |
| `JobOutcomes.SuccessorEvent` | orchestrator/job_manager.py:1187-1250 | A successor is created exactly when the target is known and an escalation or a redirect after delivery was announced or a redirected job has failed; it is classified and has this job as its parent |
| `CapabilityState.StateManager.RecordFailure` | orchestrator/capability_state.py:131-139 | Appends the failure; an unknown capability changes nothing |
| `TemporalDecay.CheckStricter` | orchestrator/decay_evaluator.py:78-95 | Accepts an override exactly when it is at least as strict at every level that has a default |
| `TemporalDecay.LoadOverrides` | orchestrator/decay_evaluator.py:76-97 | Loads all overrides exactly when each has positive values and is stricter |
| `TemporalDecay.EvaluateOne` | orchestrator/decay_evaluator.py:155-197 | One capability when nothing runs during the await: down one level with cleared counters and an action, or unchanged |
| `TemporalDecay.DueAction` | orchestrator/decay_evaluator.py:155-181 | Up to the await: the action to announce, exactly when the capability is below its minimum; nothing changes |
| `TemporalDecay.FinishAction` | orchestrator/decay_evaluator.py:183-197 | After the await: the level is set to one below the level read before it, whatever it is by then |
| `CapabilityState.StateManager.RecordOutcome` | orchestrator/capability_state.py:112-121 | Appends to the ring buffer and evicts from the front; an unknown capability changes nothing |
| `CapabilityState.StateManager.RecentFailureCount` | orchestrator/capability_state.py:141-160 | Drops failures of 24 hours or more ago and counts the others |
| `TrustMeaning.RecentKeepsYoung` | orchestrator/capability_state.py:141-160 | Exactly the failures of less than 24 hours ago are kept, in order |
| `CapabilityState.RingHoldsLatest` | orchestrator/capability_state.py:112-121 | After any number of outcomes position k of the buffer holds the k-th of the latest 200, and nothing else has changed |
| `TemporalDecay.ParsePolicies` | orchestrator/decay_evaluator.py:104-124 | Accepts exactly the policies whose windows and minima are all positive |
| `TemporalDecay.LoadConfig` | orchestrator/decay_evaluator.py:59-101 | Accepts exactly the configurations with positive values and stricter overrides; what it accepts is valid |
| `TemporalDecay.CountOutcomesInWindow` | orchestrator/decay_evaluator.py:232-246 | Counts the outcomes with a time at or after the cutoff |
| `TemporalDecay.Evaluate` | orchestrator/decay_evaluator.py:138-199 | One uninterrupted pass demotes exactly the capabilities below their minimum by one level and reports them in dictionary order |
| `TemporalDecay.EvaluateStartup` | orchestrator/decay_evaluator.py:205-218 | Repeated passes at one time terminate in the closed form, with one action per level lost |
| `TemporalDecay.DecayThenSettle` | orchestrator/decay_evaluator.py:205-218 | One pass does not change where the passes end |
| `TemporalDecay.SettledMeaning` | orchestrator/decay_evaluator.py:205-229 | The closed form: unchanged without policy or with enough outcomes, otherwise the nearest lower level without a policy, counters cleared; which policy applies is DecayPolicy.OverrideDecides and DecayPolicy.DefaultDecides |
| `DecayPolicy.OverrideDecides` | orchestrator/decay_evaluator.py:224-246 | With an override at its level a capability keeps it exactly when the override's window holds at least the override's minimum of timed outcomes |
| `DecayPolicy.DefaultDecides` | orchestrator/decay_evaluator.py:224-246 | Without one the same holds with the default, and with neither it stays |
| `DecayPolicy.OneLevelDown` | orchestrator/decay_evaluator.py:185-188 | What a pass leaves of a capability that does not stay: one level below, active, counters cleared, incident kept |
| `DecayPolicy.ActionTells` | orchestrator/decay_evaluator.py:174-197 | The announced action names the levels, the outcomes counted and the window and minimum of the override, or of the default where there is none |
| `DecayPolicy.SettlesWhere` | orchestrator/decay_evaluator.py:205-229 | Repeated passes end at the nearest lower level that neither an override nor a default governs |
| `DecayPolicy.OverridesLowerIff` | orchestrator/decay_evaluator.py:205-229 | Accepted overrides leave a capability strictly lower than the defaults alone exactly when there is one at the level where the defaults would leave it and, if it is there now, too few outcomes for it |
| `DecayPolicy.LoadedPolicy` | orchestrator/decay_evaluator.py:104-124 | A policy is accepted exactly when window and minimum of every level named are there and positive, and is taken over as it stands |
| `DecayPolicy.AcceptedOverride` | orchestrator/decay_evaluator.py:76-95 | An override is accepted exactly when it asks for at least as many outcomes in a window no longer, wherever there is a default |
| `TemporalDecay.OverridesNeverRaise` | orchestrator/decay_evaluator.py:78-97 | Validated overrides never leave a higher level than the defaults alone |
| `TemporalDecay.PassLowersHeight` | orchestrator/decay_evaluator.py:138-199 | An uninterrupted pass lowers the sum of positive levels by exactly its number of actions |
| `TrustLevels.DemotionEngine.ExecuteDemotion` | orchestrator/demotion_engine.py:50-88 | New level and status, cleared counters, incident reference and one wal.demoted event |
| `TrustLevels.DemotionEngine.HandleStripFailure` | orchestrator/demotion_engine.py:94-122 | Suspends context.package unless unregistered or suspended already |
| `TrustLevels.DemotionEngine.HandleJobFailure` | orchestrator/demotion_engine.py:128-169 | Sentinels and unregistered ids are ignored; the third recent failure costs a level, never below 0 |
| `TrustMeaning.FailureMeaning` | orchestrator/demotion_engine.py:128-172 | A failure of a configured capability costs a level above 0 exactly when three lie less than 24 hours back; otherwise it only joins those that do; sentinels and others without configuration are ignored |
| `TrustMeaning.ThirdFailure` | orchestrator/demotion_engine.py:128-172 | Three failures reported as they happen: the first two change no level, the third costs one exactly when the first was less than 24 hours before |
| `TrustMeaning.StripMeaning` | orchestrator/demotion_engine.py:94-122 | A strip failure suspends context.package, with cleared counters, its incident and one event, unless it is suspended or not configured |
| `TrustMeaning.OverrideMeaning` | orchestrator/demotion_engine.py:175-219 | A cancel or redirect costs one level from level 1 on unless the job had failed on a sentinel |
| `TrustMeaning.ModelChangeMeaning` | orchestrator/demotion_engine.py:225-255 | A model change takes exactly the listed capabilities before the first unknown one to level 0 |
| `TrustMeaning.ApprovalMeaning` | orchestrator/demotion_engine.py:261-291 | Level 3 goes to level 2 exactly when accepted outcomes in full and modified ones by half make less than 99 percent |
| `TrustMeaning.ReconcileMeaning` | orchestrator/startup.py:185-222 | One capability at its desired level stays, one below is raised with its counters and active, one above goes down with cleared counters |
| `TrustLevels.DemotionEngine.CountFailure` | orchestrator/demotion_engine.py:156-157 | Records the failure and counts those of the last 24 hours |
| `TrustLevels.DemotionEngine.ReconcileCapability` | orchestrator/startup.py:183-222 | One capability to its desired level: promoted, demoted with cleared counters, or unchanged |
| `HubStartup.HubProcess.AffectedCapabilities` | orchestrator/startup.py:332-332 | The configured ids that do not start with an underscore |
| `TrustLevels.DemotionEngine.HandleOverrideDemotion` | orchestrator/demotion_engine.py:175-219 | Cancel and redirect cost a level from level 1 up, unless a sentinel failed before |
| `TrustLevels.DemotionEngine.HandleModelChange` | orchestrator/demotion_engine.py:225-255 | Every affected capability goes to level 0, one after the other, stopping at an unknown one |
| `TrustLevels.DemotionEngine.HandleApprovalDecay` | orchestrator/demotion_engine.py:261-291 | Level 3 with a score below 0.99 goes to level 2 |
| `TrustLevels.DemotionEngine.ReconcileLevels` | orchestrator/startup.py:167-224 | Every configured capability goes to its desired level with one event each, stopping at one without entry |
| `TrustRuns.ReconcileGood` | orchestrator/startup.py:167-224 | Reconciliation completes exactly when every configured capability has an entry, and up to the first without one puts each at its desired level |
| `TrustRuns.PartialReconcile` | orchestrator/startup.py:167-224 | A reconciliation that stops keeps the previous configuration's bound exactly when it raised nothing above it |
| `HubStartup.HubProcess.Start` | orchestrator/startup.py:297-355 | Startup reconciles only under a changed hash, handles a model change, and writes the meta entry only when nothing raised |
| `HubStartup.HubProcess.InitializeState` | orchestrator/capability_state.py:37-54 | A missing state file is made with every configured capability at level 0 |
| `TrustRuns.StartHubKeeps` | orchestrator/startup.py:297-355 | A startup succeeds exactly when the configuration is accepted and names only known capabilities; a failed one keeps the invariant exactly when the configuration was safe |
| `HubMeaning.StartupLeaves` | orchestrator/startup.py:297-355 | A startup that comes up has stored hash, model and capabilities; under another hash every configured capability stands at its desired level, under the same hash all levels are as before, and after a change of model those without leading underscore stand at 0; one that fails stores none of that |
| `HubMeaning.HandlersTakeEffect` | orchestrator/demotion_engine.py:94-291 | The steps of a running hub do to the capability what its handler is for |
| `HubMeaning.ModelChangeTakesEffect` | orchestrator/demotion_engine.py:225-255 | A model change in a run takes every listed capability to level 0 when all are known |
| `HubMeaning.EvaluateTakesEffect` | orchestrator/decay_evaluator.py:151-199 | An uninterrupted pass does to every capability what one pass does, and adds one wal.demoted event per level lost |
| `HubMeaning.DecayTakesEffect` | orchestrator/decay_evaluator.py:155-183 | A pass announces, before its await, exactly the capabilities that it would demote, with the level read and the one below |
| `HubMeaning.ResumeTakesEffect` | orchestrator/decay_evaluator.py:185-188 | Resumed, it sets the level below the one read, whatever it finds |
| `TrustRuns.HandlersLower` | orchestrator/demotion_engine.py:94-291 | Strip failures, job failures, overrides and approval decay only lower levels, keep status and level in step, and are replayable |
| `TrustRuns.ModelChangeGood` | orchestrator/demotion_engine.py:225-255 | A model change raises nothing but -1 to 0 and succeeds when every id is known |
| `TrustRuns.DecayPassGood` | orchestrator/decay_evaluator.py:138-199 | An uninterrupted decay pass only lowers levels and its events replay to the new table |
| `TrustRuns.AnnounceKeeps` | orchestrator/decay_evaluator.py:155-181 | Announcing a decay changes no level, and the replay agrees with the table in which the announced decays are carried out |
| `TrustRuns.ResumeExactly` | orchestrator/decay_evaluator.py:181-187 | A waiting pass that resumes raises no level exactly when it finds the level at most one below the one it read; with no other pass waiting for the capability the replay stays right in exactly that case |
| `TrustRuns.CutExactly` | orchestrator/decay_evaluator.py:181-187 | A pass cut off at its await leaves the replay right exactly when its decay had no effect left to have |
| `TrustRuns.EndExactly` | orchestrator/decay_evaluator.py:181-187 | The end of the process leaves it right exactly when no announced decay is lost |
| `TrustRuns.InterruptedDecayRaises` | orchestrator/decay_evaluator.py:155-187 | A run in which a decay that resumes behind a failed strip takes a suspended capability from -1 to 2 while the replay says -1 |
| `TrustRuns.WorkLowers` | orchestrator/demotion_engine.py:94-291 | No handler of a running hub raises a level, with decay passes waiting or not; a model change takes -1 to 0 and no more |
| `TrustRuns.RunningKeeps` | orchestrator/demotion_engine.py:94-291 | Every safe step of a running hub, decay passes suspended at their emits included, raises nothing but -1 to 0 by a model change and keeps the replay right |
| `TrustRuns.RunKeeps` | orchestrator/startup.py:297-355 | Every run of startups, stops, handlers and decay passes interleaved at their awaits, under safe configurations and resumptions, keeps the invariant |
| `TrustRuns.NoSelfPromotion` | orchestrator/startup.py:297-355 | While the hub is up in a safe run every configured level is between -1 and desired, desired is at most max_wal, suspended is exactly -1, and the events replay to the level table with the announced decays carried out, to the table itself when no pass waits |
| `TrustRuns.OnlyConfigurationRaises` | orchestrator/startup.py:197-224 | A level of 0 or more goes up only at a startup under another configuration hash and only as far as that configuration asks, or by a decay pass that resumes to a level more than one below the one it read |
| `TrustRuns.RolledBackConfigurationKeepsLevel` | orchestrator/startup.py:304-355 | A run showing why configurations must be safe: raise one, add one, fail, roll back, and the raised level stays |
| `SpanMerging.MergeOverlapping` | orchestrator/context_packager.py:208-230 | The loop over the sorted spans computes the merge |
| `SpanMerging.SortOrders` | orchestrator/context_packager.py:213-214 | Sorting orders by start and precedence and loses and adds nothing |
| `SpanMerging.SortMeaning` | orchestrator/context_packager.py:211-213 | In the sorted order starts ascend, and at one start strip comes before generalize and both before the rest |
| `SpanMerging.SortStable` | orchestrator/context_packager.py:213-214 | Spans with equal keys keep their order |
| `SpanMerging.MergeMeaning` | orchestrator/context_packager.py:208-230 | Merged spans are in order and disjoint, cover exactly the same positions, absorb every span into one at least as restrictive, and take action, class and pattern from a span inside |
| `SpanMerging.MergedIsMostRestrictive` | orchestrator/context_packager.py:221-224 | A merged span is at least as restrictive as every span it shares a position with |
| `RedactionMeaning.MergeGroups` | orchestrator/context_packager.py:207-230 | Each merged span is a group of consecutive sorted spans that overlap: it starts and reads as the first, reaches as far as the furthest, and has action, class and pattern of the first of the most restrictive; groups do not overlap |
| `Redaction.TransformText` | orchestrator/context_packager.py:243-260 | The loop assembles copied stretches and renderings from left to right; what stands where is RedactionMeaning.RewrittenText |
| `RedactionMeaning.RewrittenText` | orchestrator/context_packager.py:232-260 | The result is, left to right, the text outside the merged spans with, at each, the marker of its class for strip and for generalize of an unknown class, the generalizer's value for a known one and the matched text for any other action |
| `Redaction.CopiesTheOutside` | orchestrator/context_packager.py:252-259 | Every position outside all spans is copied exactly once, in order, and no other |
| `Redaction.MergedInRange` | orchestrator/context_packager.py:252-257 | Merged spans stay inside the text and copying never runs backwards |
| `Redaction.TouchedIsStripped` | orchestrator/context_packager.py:221-224 | A merged span that a strip span touches is stripped |
| `Redaction.StrippedTextHasNoInfluence` | orchestrator/context_packager.py:232-260 | Two texts that differ only inside strip spans, with the same spans found, are rewritten to the same text |
| `RedactionMeaning.HiddenTextHasNoInfluence` | orchestrator/context_packager.py:232-260 | Two texts with the same spans found that differ only inside strip and generalize spans are rewritten to the same text when the generalizers agree on what the merged generalize spans of known classes read; unknown classes ask nothing |
| `CircuitBreaker.ConnectivityMonitor.RecordResult` | orchestrator/connectivity_monitor.py:237-271 | Appends the probe to the route's history, follows it, writes the row through and emits an event exactly on a change of state |
| `CircuitBreaker.ConnectivityMonitor.ProbeRoute` | orchestrator/connectivity_monitor.py:205-235 | A probe of a known route extends its history; an unknown route changes nothing |
| `CircuitBreaker.ConnectivityMonitor.Restart` | orchestrator/connectivity_monitor.py:119-145 | A restart on the rows forgets nothing |
| `CircuitBreaker.ConnectivityMonitor.IsRouteAvailable` | orchestrator/connectivity_monitor.py:177-182 | Available exactly when known and the history does not end in two failures |
| `CircuitBreaker.TransitionRefines` | orchestrator/connectivity_monitor.py:255-267 | Counters and previous state determine the state that the whole probe history calls for |
| `CircuitBreaker.LatestRunMeaning` | orchestrator/connectivity_monitor.py:50-58 | The latest run of n equal results ends where the history specification says and none ends later |
| `CircuitBreaker.AtMostOneTripInFive` | orchestrator/connectivity_monitor.py:255-267 | n probes cause at most (n + 3) / 5 transitions from closed to open |
| `CircuitBreaker.FlappingTrips` | orchestrator/connectivity_monitor.py:255-267 | A history that reaches the bound for every n |
| `CircuitBreaker.Updated` | orchestrator/connectivity_monitor.py:241-269 | Counters, times and state after a probe follow the longer history |
| `CircuitBreaker.StateCounters` | orchestrator/connectivity_monitor.py:257-260 | Open exactly at two trailing failures; closed at three trailing successes |
| `RateLimiter.Recent` | egress-gateway/rate_limiter.py:22-22 | Keeps the times later than the cutoff, in order |
| `RateLimiter.SlidingWindowRateLimiter.Prune` | egress-gateway/rate_limiter.py:17-22 | Leaves in the window exactly the admissions of the last 60 seconds and touches no other route |
| `RateLimiter.CountedAreLater` | egress-gateway/rate_limiter.py:15-28 | A window that starts after the cutoff holds no more than what pruning keeps |
| `RateLimiter.SlidingWindowRateLimiter.Check` | egress-gateway/rate_limiter.py:15-28 | Admits exactly when fewer than the limit were admitted on the route in the last 60 seconds, judged on the whole history |
| `RateLimiter.SlidingWindowRateLimiter.CurrentCount` | egress-gateway/rate_limiter.py:30-35 | Counts the admissions of the last 60 seconds |
| `RateLimiter.LaterTwice` | egress-gateway/rate_limiter.py:21-22 | Pruning at one cutoff and then at a later one is pruning at the later one |
| `RateLimiter.WindowNeverExceedsLimit` | egress-gateway/rate_limiter.py:15-28 | No half-open window of 60 seconds of the whole history holds more than the limit |
| `RateLimiter.RefusedOnlyWhenFull` | egress-gateway/rate_limiter.py:24-25 | A request is refused exactly when at least the limit were admitted in the preceding 60 seconds |
| `RateLimiter.ClosedWindowMayExceed` | egress-gateway/rate_limiter.py:22-22 | A closed window of 60 seconds can hold one request more |
| `RateLimiter.RunAll` | egress-gateway/rate_limiter.py:15-28 | A limiter run from new on checks and counts of any routes in any interleaving admits, on each route asked for under one limit, what the history function says |
| `RateLimiter.RunsKeepTheLimit` | egress-gateway/rate_limiter.py:15-28 | So no half-open window of 60 seconds of any route of a running limiter holds more than its limit |
| `Pagination.ListJobs` | orchestrator/job_manager.py:1811-1865 | A page and a cursor of the one descending listing of the jobs of a status after the cursor |
| `Pagination.PageMeaning` | orchestrator/job_manager.py:1845-1858 | A page has as many ids as the limit or what is left, a negative limit leaves out that many, and there is a cursor exactly when ids remain behind a page that is not empty |
| `Pagination.AfterMembers` | orchestrator/job_manager.py:1834-1839 | A cursor leaves exactly the listed ids smaller than it |
| `Pagination.SortDescending` | orchestrator/job_manager.py:1828-1832 | The ids in descending order, each once |
| `Pagination.FilterSince` | orchestrator/job_manager.py:1834-1835 | Keeps the ids before the cursor, in order |
| `Pagination.AfterCursor` | orchestrator/job_manager.py:1834-1839 | What lies after an id of the listing is the rest of the listing |
| `Pagination.ListingUnique` | orchestrator/job_manager.py:1828-1832 | There is only one such listing |
| `Pagination.PageSplits` | orchestrator/job_manager.py:1834-1839 | Page and cursor split what is left: the page, then exactly what follows the cursor |
| `Pagination.FollowIsComplete` | orchestrator/job_manager.py:1834-1839 | Following the cursor terminates and yields all that remains, each job once, exactly when the limit is positive or nothing remains |
| `Pagination.EveryJobOnce` | orchestrator/job_manager.py:1811-1865 | From the first page on, the concatenated pages are the listing |

## Left out

- Sockets, HTTP routes, logging and Docker plumbing, provider adapters, the Ollama classifier and the worker agent: I/O around libraries.
- SHA-256, JSON text, Unicode normalisation, regular expressions and ISO timestamps: digests, codec, given spans, given intent hashes and integer or real times stand for them.
- The decoded text kept in a record next to its bytes: nothing in the classifier reads it.
- Source ids that are JSON lists, for which recovery raises a TypeError.
- fsync, power loss, and torn writes inside the buffer: a crash of the writer falls on a line boundary except in `TornWrite` and `RepairTornWrite`, and one of the repair between its writes, the quarantine file excepted.
- SQLite failures and the LIKE wildcards of the key queries: the table is an atomic map.
- Two processes on one source-event table, where a release between another process's insert and read breaks uniqueness.
- Job objects as mutable objects: submissions, overrides and reviews are a step relation on values, one step per stretch between awaits, so aliasing of a Job is not modelled; locks and queue are part of the state.
- The pipeline's own steps beyond the status changes they make, which may also leave a terminal status.
- Auto-accept: unreachable, because the pipeline sets the level of a job to 0.
- `_demote_for_override`, which emits wal.demoted without a change of state: it is kept out of the replayed events.
- Detected spans as mutable records: merging works on values and does not show that the caller's list is sorted and changed in place.
- Merged pass and generalize spans render the text of the first span only; the rest of the merged range is dropped.
- Floating-point rounding in the limiter's clock and the approval score: times are real, scores doubled integers.
- The concrete generalizers for locations and dates: an arbitrary function of class and text stands for them.
- WriterRuns.RepairThenResume: the files that the repair leaves have to be recoverable; `RecoverableIff` says exactly when they are, and `FirstEventAfterStart` shows that otherwise the first durable event is not valid.
- OtherVerifiers.ScriptAcceptsSingleSegments: requires carriage returns only before newlines; `ScriptPieces.BothAcceptIff` and `ScriptPieces.IntactAcceptedIff` are the statements without it.
- WriterRecovery.StartRecovers: requires the same; `RecoveryAnchor.StartMeaning`, `RecoveryAnchor.AnchorIsTip` and `RecoveredIds.StartSeen` are the statements for any directory.
- StartupGate.ValidPassesGate: requires carriage returns only before newlines in all files; `GateWindow.ValidPassesIff` is the exact statement.
- StartupGate.RejectionIsCorruption: the same; a rejection without it is settled by `GateWindow.ValidPassesIff`.
- StartupGate.CoveringGateIsExact: the same; `GateWindow.CoveringPassIff` is the statement without it.
- AuditClient.ExactlyOnce: at most one midnight passes from the first attempt on, since the recovery window is two days; `DedupWindow` shows that the window is sharp.
- AuditClient.DedupByDate: requires carriage returns only before newlines; `DedupWindow` is the statement without it.
- TrustRuns.NoSelfPromotion: holds for safe configurations and safe resumptions of decay passes only, see above.
- JobReview.SequentialReviewsExclude: says nothing of a job whose status the pipeline or a restart has set after its decision; `SecondReviewIff` covers it.
- Event builders, manifest validator, blueprint engine, egress proxy, permission checker, promotion monitor, hub state and the second limiter in `orchestrator/egress_rate_limiter.py`: one-branch facts or repetitions.
