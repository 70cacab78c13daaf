# Verification of the telemetry ECU's data path

A Dafny model of the parts of the vehicle telemetry firmware through which every record, kilometre and bus
reading passes, with proofs of what they promise.

## What is modelled

- **Store and forward** (`FsFrame`, `FsAbs`, `StoreForward`, `Delivery`, `Fairness`, `Damage`, `TelemSwc`, `Drain`,
  `Backfill`, `Retention`, `Reclaim`, `FsStatus`, `Throughput`, `BackfillCalls`). Records are lines with a CRC field
  in one file a day; a cursor (file, offset) kept in a durable cell moves only after a publish was accepted.
  `FsAbs.RecordLog` is the module with its statics, each call proved against a function on its whole state.
  `StoreForward` runs those functions in any order: appends that succeed, fail or are torn, the drain's read, publish,
  advance and skip calls, housekeeping and resets. A ghost history lists what was stored and what was accepted;
  `Delivery` adds the order of the publishes. `TelemSwc` proves that the drain loop is such a run, and `Drain` that
  its cycles come to an end. `Backfill` runs whole transfers of requested days, chunk by chunk, while records are
  logged; `Retention` shows that a fair run of the log never disturbs one. `Reclaim` says which files any number of
  housekeeping passes take, `FsStatus` which status each call returns and when, `Throughput` and `BackfillCalls` how
  much one cycle sends.
- **Odometer** (`OdoSwc`, `OdoUnits`, `OdoPower`, `OdoWear`). Q32 trapezoidal integration with carried remainder,
  plausibility gates and modular time. 64-bit arithmetic is a newtype, so the absence of wrap-around is proved at
  every operation. `OdoUnits` ties the fixed-point numbers to the wheel's travel and to 2 g. `OdoPower` runs the
  component with its durable blocks through failing commits and power cuts, and `OdoWear` counts its writes in true
  time.
- **Printers, parsers, calendar** (`ComText`, `ComWriter`, `ComDate`, `ComCsv`, `ComColumns`, `ComTransfer`,
  `TimeAbs`, `Calendar`). The bounded writer over a character array, the 199-column record and header, date stamps and
  file names, chunk plans, backfill requests, and both date conversions. `ComColumns` ties each column name to the
  value under it.
- **CRC and RS485** (`Crc`, `CrcTable`, `CrcCheck`, `Word32`, `Rs485If`, `Rs485Wire`). The bit-at-a-time definition
  with its error detection, the table-driven and reflected routines as refinements of it, the registers as machine
  words and with them the published check values; framing, transactions and pack discovery. `Rs485Wire` puts responses
  together byte by byte and follows them into the cache.
- **Link state machine and bus lock** (`NetIf`, `Retry`, `Spi`, `SpiCalls`). Reachable states, retry effort and retry
  deadlines over whole runs; mutual exclusion of the chip selects, and conservation of the bytes asked for, over every
  interleaving of memory accesses.

Platform calls are arguments: whether a mount, write, read, directory walk, cursor store, publish or
non-volatile write succeeds, how many bytes of a torn write reach the card, which bytes a bus peer sends, what time
it is. The card maps date numbers to file contents; `ComDate.NamesSortAsKeys` shows that file names compare under
`strcmp` as those numbers do.

## What the runs assume

`StoreForward.Fair` states three things, and `Fairness` says for each exactly when a step without it does harm:

- a record is not dated before the file the cursor is in: `Fairness.DateIff`;
- a reset finds a cursor when there has been one. The store that establishes the first cursor can fail, with its status
  discarded at src/ecuabs/FsAbs/FsAbs.c:356, and so can reading the cell back: `Fairness.FirstStoreIff` and
  `Fairness.LostCursorIff`, which says when the cursor that the next append starts has passed an earlier record;
- housekeeping does not remove the file the stored cursor names: `Fairness.RemovalStrandsIff`. `FsAbs_MainFunction`
  spares the file of the cursor in memory, so this can only happen after the store of a crossing failed, with its
  status discarded at src/ecuabs/FsAbs/FsAbs.c:390: `Fairness.StrandedIff`. `Fairness.LostCrossingLosesADay` gives a
  run that then loses an unsent record. `Fairness.SteadyRunsAreAllowed` shows that runs with records so dated, whose
  stores and reads of the cursor succeed, meet all three.

Only the order theorem, `Delivery.DeliveryOrder`, asks for more: that each record is not dated before the last one
stored (`Delivery.Dated`).

`Backfill.BackfillSendsTheFile` supposes that a file is not removed and written anew between two chunks of it;
`Backfill.DisturbedIff` shows that nothing less would do. `Retention.FairLoggingNeverDisturbs` shows that a fair run of
the log never does that once there is a cursor, as there is as soon as a record has been stored
(`Retention.StoredIsAnchored`). Before the first one, housekeeping may remove the file of the very day
that is logged next: `Retention.UnanchoredRewrites`.

## Where code and comments differ

The model follows the code.

- src/ecuabs/FsAbs/FsAbs.c:457-459 says the writer makes a record longer than the read buffer impossible. The writer
  admits 2306 characters (line 294), whose line is one byte longer than a read: `Drain.ReadableIff`.
- A valid record of 2304 or 2305 characters makes the drain stop with E_NOT_OK at every cycle, since its buffer is
  smaller than the reader's: `Drain.DeliveredIff`, `Drain.DrainCompletes`. Telemetry records have at most 1481
  characters, so this needs another caller: `TelemSwc.TelemetryIsClean`.
- `strlen` is narrowed to 16 bits at src/ecuabs/FsAbs/FsAbs.c:293: `FsAbs.StoredWholeIff`.
- The bounds on the calibration numerator at src/app/OdoSwc/OdoSwc.c:88-89 and on the integrated product at lines
  283-284 do not hold of every accepted calibration: `OdoSwc.NumeratorIff` and `OdoSwc.ProductIff` say of which they
  do, and `OdoSwc.BoundsAreExceeded` names one beyond both. The real ones are in `OdoSwc.FactorBounds` and
  `OdoSwc.IntermediatesFit`, and still fit 64 bits.
- src/ecuabs/FsAbs/FsAbs.c:365-367 promises that a crossing survives a reset; it does exactly when its store succeeds:
  `Fairness.CrossingSurvivesIff`.
- src/app/OdoSwc/OdoSwc.h:50-51 says a power cut loses at most 100 m. It loses exactly what was covered since the last
  commit, so more than that whenever more was covered: `OdoPower.CutLosesExactly`, with a run that loses 339 m in
  `OdoPower.HundredMetresExceeded` and a bound for any run in `OdoPower.PowerCutsLoseLittle`.
- `Spi_CheckOwner` compares devices, not tasks, so the exclusion holds for callers that bracket their calls.
  `Spi.UnbracketedIff` says exactly when an assert outside a bracket can leave both chip selects low, and
  `Spi.UnbracketedRaiseIff` exactly when a deassert or an unlock outside one can raise a chip select in use.

## Model

| member | source | states |
|---|---|---|
| StoreForward.AtLeastOnce | src/app/TelemSwc/TelemSwc.c:354-409 | In every fair run, with resets, refused publishes and lost cursor stores at any point, each record stored at the start of a line that the cursor has passed, or whose file was reclaimed, was accepted by a publish with the same text |
| Delivery.DeliveryOrder | src/app/TelemSwc/TelemSwc.c:364-408 | When records are also dated in the order they are stored: the accepted publishes that carried stored records, at strictly increasing positions, form consecutive runs of the stored records, the first from the first record, each later one from at or before where the last stopped; no other publish carried a stored record, and restarts are no more than resets |
| Delivery.StepKeepsSequenced | src/app/TelemSwc/TelemSwc.c:364-408 | Each step keeps the tie between what was accepted, which stored record each publish carried, and both cursors |
| Delivery.RunKeepsSequenced | src/app/TelemSwc/TelemSwc.c:364-408 | The tie holds after any such run |
| StoreForward.ReclaimIsSafe | src/ecuabs/FsAbs/FsAbs.c:637-662 | In every fair run a file that housekeeping removes sorts before both cursors and each of its stored records has been accepted |
| StoreForward.CursorNamesAFile | src/ecuabs/FsAbs/FsAbs.c:371-393 | In every fair run the cursor in memory and the stored one name files on the card and lie, span included, within them, so the 32-bit offset cannot wrap while files stay under 4 GiB |
| StoreForward.ReclaimIsBehindIff | src/ecuabs/FsAbs/FsAbs.c:647-656 | Housekeeping removes only what lies before the cursor exactly when some file on the card is not after the cursor |
| StoreForward.StepKeepsInv | src/ecuabs/FsAbs/FsAbs.c:270-557 | Every append, read, publish, advance, skip, removal and reset keeps the invariant that ties both cursors to the stored records |
| StoreForward.RunKeepsInv | src/ecuabs/FsAbs/FsAbs.c:270-557 | The invariant holds after any run |
| StoreForward.AppendKeepsInv | src/ecuabs/FsAbs/FsAbs.c:270-360 | Appends that succeed, fail or are torn, with or without a header, keep the invariant |
| StoreForward.ReadKeepsInv | src/ecuabs/FsAbs/FsAbs.c:395-521 | Reads, header skips and crossings keep it |
| StoreForward.PublishKeepsInv | src/app/TelemSwc/TelemSwc.c:390-396 | An accepted publish carries the stored record at the cursor, when there is one |
| StoreForward.AdvanceKeepsInv | src/ecuabs/FsAbs/FsAbs.c:523-557 | Passing the span keeps the cursor between lines with nothing unsent behind it |
| StoreForward.HousekeepKeepsInv | src/ecuabs/FsAbs/FsAbs.c:637-662 | Removing any file but the one the stored cursor names keeps the invariant |
| StoreForward.ResetKeepsInv | src/ecuabs/FsAbs/FsAbs.c:230-263 | Coming back to the stored cursor keeps it |
| StoreForward.CrossingKeepsPosition | src/ecuabs/FsAbs/FsAbs.c:371-393 | Crossing to the next file at the end of one passes no unsent record |
| StoreForward.AppendReadsBack | src/ecuabs/FsAbs/FsAbs.c:293-347 | A text of at most 2305 characters without line end, appended at the start of a line, reads back identically from its place with its line as span, whatever is appended later |
| StoreForward.ReadFromKeepsInv | src/ecuabs/FsAbs/FsAbs.c:417-521 | The same for the part of a read after the header |
| StoreForward.JudgedSpan | src/ecuabs/FsAbs/FsAbs.c:444-520 | The span a read reports covers a stored line exactly or stops before it, and a stored line at the cursor is returned whole |
| StoreForward.NoHeaderAtItem | src/ecuabs/FsAbs/FsAbs.c:153-194 | A stored record at the start of a file is not taken for a header |
| Fairness.SteadyRunsAreAllowed | src/ecuabs/FsAbs/FsAbs.c:371-393 | When records are not dated before the cursor's file and cursor stores and reads succeed, housekeeping and resets at any moment are fair, so the theorems above apply |
| Fairness.DateIff | src/ecuabs/FsAbs/FsAbs.c:349-357 | An appended record is one the cursor has yet to reach exactly when its day is not before the cursor's |
| Fairness.FirstStoreIff | src/ecuabs/FsAbs/FsAbs.c:349-357 | After the first append a reset finds a cursor exactly when the discarded first store succeeded and the cell reads back |
| Fairness.LostCursorIff | src/ecuabs/FsAbs/FsAbs.c:70-101 | When a reset finds no cursor, the cursor the next append starts passes an earlier record exactly when the append is dated after that record's day |
| Fairness.RemovalStrandsIff | src/ecuabs/FsAbs/FsAbs.c:637-662 | After a removal and a reset the cursor names a missing file exactly when the file removed is the stored cursor's |
| Fairness.CrossingSurvivesIff | src/ecuabs/FsAbs/FsAbs.c:362-393 | A restart right after a crossing comes back to the file crossed to exactly when the crossing's store succeeded |
| Fairness.StrandedIff | src/ecuabs/FsAbs/FsAbs.c:388-392 | After a crossing, a removal and a reset the cursor names a missing file exactly when the crossing store was lost and the file it left was removed |
| Fairness.StrandedReadsNothing | src/ecuabs/FsAbs/FsAbs.c:417-422 | A cursor that names a missing file stays there: every read reports nothing more |
| Fairness.LostCrossingLosesADay | src/ecuabs/FsAbs/FsAbs.c:371-393 | For any two days and records there is a run, fair up to the first removal, in which a lost crossing store ends with an unsent record removed |
| Damage.DamageIsBounded | src/ecuabs/FsAbs/FsAbs.c:329-343 | In every run, fair or not, and however often writes are cut short, the clean records reported stored but not on a line of their own are no more than the torn writes |
| Damage.StepAccounted | src/ecuabs/FsAbs/FsAbs.c:293-347 | Each glued record and each ragged file answers to a torn write, after every step |
| Drain.StrictProgress | src/ecuabs/FsAbs/FsAbs.c:395-557 | Whatever the platform answers, a read that is then advanced or skipped, and every crossing, strictly increases (file, offset) |
| Drain.HealthyRead | src/ecuabs/FsAbs/FsAbs.c:395-521 | On a healthy platform E_NOT_FOUND means the end of the newest file, E_NOT_OK an over-long line, and anything else leaves less to read |
| Drain.CaughtUp | src/ecuabs/FsAbs/FsAbs.c:423-442 | At the end of the newest file every stored record has been accepted |
| Drain.CycleProgress | src/app/TelemSwc/TelemSwc.c:354-409 | A cycle of the drain loop on a healthy platform leaves less to do, or stops at the end of the newest file or at an over-long line |
| Drain.DrainCompletes | src/app/TelemSwc/TelemSwc.c:354-409 | On a healthy platform with a broker that accepts, the cycles of the drain loop end after at most one more than the bytes and files left, with everything stored accepted unless it stands at a valid line of 2304 or more characters |
| Drain.ReadableIff | src/ecuabs/FsAbs/FsAbs.c:293-298 | Of the texts the writer accepts, the reader recovers exactly those of at most 2305 characters |
| Drain.DeliveredIff | src/ecuabs/FsAbs/FsAbs.c:507-520 | A stored record at the cursor is delivered exactly when it is shorter than 2304 characters; otherwise the read reports E_NOT_OK and the cursor stays |
| FsFrame.LineRoundTrip | src/ecuabs/FsAbs/FsAbs.c:322-327 | A stored line reads back as its text with its own length as span, whatever follows, separators in the text included |
| FsFrame.JudgeLine | src/ecuabs/FsAbs/FsAbs.c:466-505 | A terminated line with an eight-character field is good exactly when the field is the CRC of its text |
| FsFrame.JudgeSpan | src/ecuabs/FsAbs/FsAbs.c:444-517 | The span of a judged chunk is positive and ends at the first line end or the end of the chunk |
| FsFrame.DamageDetected | src/ecuabs/FsAbs/FsAbs.c:498-505 | Texts of any length that differ within at most four adjacent characters have different CRC fields |
| FsFrame.DamagedLineRejected | src/ecuabs/FsAbs/FsAbs.c:498-505 | A line whose text was so damaged is reported damaged, never delivered |
| FsFrame.CrcFieldRoundTrip | src/ecuabs/FsAbs/FsAbs.c:126-224 | The eight-digit field parses back to the CRC it was written from |
| FsFrame.WriteCrcField | src/ecuabs/FsAbs/FsAbs.c:132-141 | The nibble loop writes the eight hexadecimal digits |
| FsFrame.ParseCrcField | src/ecuabs/FsAbs/FsAbs.c:197-224 | The digit loop gives the value, or nothing on a character that is not a digit |
| FsFrame.JudgeChunk | src/ecuabs/FsAbs/FsAbs.c:444-517 | The scan loops find the first line end and the last separator before it |
| FsFrame.Checksum | src/ecuabs/FsAbs/FsAbs.c:323-323 | The CRC of a text is that of a first call of the CRC-32 routine, which writer and reader both make |
| FsFrame.LineCheckValue | src/ecuabs/FsAbs/FsAbs.c:115-151 | The text 123456789 is stored with the field CBF43926, in upper case |
| FsAbs.HeaderIsSkipped | src/ecuabs/FsAbs/FsAbs.c:153-194 | A committed CSV header is passed over and never reported as damage |
| FsAbs.StoredWholeIff | src/ecuabs/FsAbs/FsAbs.c:293-327 | A stored line is that of the whole record exactly when the record is shorter than 65536 characters |
| Damage.FailuresUnmount | src/ecuabs/FsAbs/FsAbs.c:329-343 | Over every run, fair or not, the card found at the last reset stays in use until exactly the fifth failed line in a row, whatever happens between the failures |
| FsAbs.NextLog | src/ecuabs/FsAbs/FsAbs_Platform.h:69-92 | The next log is the smallest name strictly after a given one |
| FsAbs.RecordLog.LoadCursor | src/ecuabs/FsAbs/FsAbs.c:70-101 | The cursor comes from the stored cell when it reads back, and is otherwise invalid |
| FsAbs.RecordLog.StoreCursor | src/ecuabs/FsAbs/FsAbs.c:103-113 | The stored cell takes the cursor when the write succeeds |
| FsAbs.RecordLog.Init | src/ecuabs/FsAbs/FsAbs.c:230-263 | State after a restart, with and without a card, with the cell read back or not |
| FsAbs.RecordLog.AppendRecord | src/ecuabs/FsAbs/FsAbs.c:270-360 | The whole new state and status of an append: refusals, header, line, failure count, first cursor; the line carries what the CRC-32 routine returns |
| FsAbs.RecordLog.AppendLine | src/ecuabs/FsAbs/FsAbs.c:317-359 | The part of it after the header, with the CRC field from a call of the CRC-32 routine over the text |
| FsAbs.RecordLog.WriteHeader | src/ecuabs/FsAbs/FsAbs.c:300-320 | A new file starts with the CSV header line |
| FsAbs.RecordLog.FindNextLog | src/ecuabs/FsAbs/FsAbs_Platform.h:69-92 | The directory walk finds the next log |
| FsAbs.RecordLog.SkipCsvHeader | src/ecuabs/FsAbs/FsAbs.c:153-194 | The cursor moves past a first line without separator, and otherwise stays |
| FsAbs.RecordLog.AdvanceToNextFile | src/ecuabs/FsAbs/FsAbs.c:371-393 | State and status of a crossing |
| FsAbs.RecordLog.ReadRecordAtCursor | src/ecuabs/FsAbs/FsAbs.c:395-521 | State, status and text of a read, every error path included |
| FsAbs.RecordLog.AdvanceCursor | src/ecuabs/FsAbs/FsAbs.c:523-541 | State and status of an advance |
| FsAbs.RecordLog.SkipCorruptRecord | src/ecuabs/FsAbs/FsAbs.c:543-557 | State and status of a skip |
| FsStatus.AppendIff | src/ecuabs/FsAbs/FsAbs.c:270-360 | An append succeeds exactly for a valid date, a text of at most 2306 characters and a card in use, when its line, and the header of a new file before it, are committed; refused otherwise, without touching anything when its arguments or the card are at fault |
| FsStatus.ReadIff | src/ecuabs/FsAbs/FsAbs.c:395-521 | When a read finds nothing, when it crosses to the next file, and when it says something of bytes it has read |
| FsStatus.AdvanceOnce | src/ecuabs/FsAbs/FsAbs.c:523-557 | A span is passed once: a second advance or skip is refused and moves nothing; E_OK exactly when there was a span and the cursor reached the stored cell |
| FsStatus.HeaderPassedIff | src/ecuabs/FsAbs/FsAbs.c:153-194 | At the start of a file exactly a first line without separator that ends within 3071 characters is passed over |
| FsAbs.RecordLog.GetFileSize | src/ecuabs/FsAbs/FsAbs.c:575-586 | Size of a file on a mounted card |
| FsAbs.RecordLog.ReadFileChunk | src/ecuabs/FsAbs/FsAbs.c:559-573 | Bytes of a file from an offset; E_OK exactly for a present file on a mounted card whose read succeeds |
| FsAbs.RecordLog.MainFunction | src/ecuabs/FsAbs/FsAbs.c:588-663 | The oldest file goes when less than 512 MiB are free and it is not the cursor's; see Reclaim.PassesShed |
| Reclaim.PassesShed | src/ecuabs/FsAbs/FsAbs.c:588-663 | Any number of housekeeping passes, whatever they meet: the files gone are as many as there were passes with less than 512 MiB free and working calls, as long as files before the cursor's are left; they are the oldest, and nothing else changes |
| Reclaim.RoomKeepsEveryFile | src/ecuabs/FsAbs/FsAbs.c:633-636 | Passes that find 512 MiB or more free lose no file |
| Reclaim.PressureClearsThePast | src/ecuabs/FsAbs/FsAbs.c:633-662 | As many pressed passes as there are files before the cursor's leave exactly the cursor's file and the later ones, or none when the cursor names none |
| TelemSwc.TelemSwc.DrainBacklog | src/app/TelemSwc/TelemSwc.c:354-409 | The loop comes to exactly the cycle its answers determine, and that is a run of the protocol of at most four accepted publishes, two skips and one crossing |
| Throughput.CycleIsMaximal | src/app/TelemSwc/TelemSwc.c:354-409 | A cycle makes one pass after the other until one stops, the fourth record has gone out or the second damaged line is passed, and ends there, within five passes |
| Throughput.OutcomeTells | src/app/TelemSwc/TelemSwc.c:364-408 | A pass sends a record exactly when one is read and the publish accepted; it counts as published when the advance was stored, and as a skip exactly when the line is damaged |
| TelemSwc.TelemSwc.DrainOne | src/app/TelemSwc/TelemSwc.c:364-408 | One pass reads, publishes and only then advances, or skips what is damaged |
| TelemSwc.PassRuns | src/app/TelemSwc/TelemSwc.c:364-408 | The calls of a pass are a run that keeps the invariant and ends idle |
| TelemSwc.ReadCrosses | src/ecuabs/FsAbs/FsAbs.c:423-442 | A read leaves the cursor in its file or takes it to the next one |
| TelemSwc.TelemSwc.AcquireAndStore | src/app/TelemSwc/TelemSwc.c:275-328 | A record that fits becomes the live record, and is appended under the day of a valid clock, whatever day that is; the invariant survives when the append is fair |
| TelemSwc.LiveAtMostOnce | src/app/TelemSwc/TelemSwc.c:331-351 | What the broker accepts live is a subsequence of the records acquired: each goes out at most once, in order, whatever is refused or overtaken |
| TelemSwc.NewestGoesOut | src/app/TelemSwc/TelemSwc.c:331-351 | Once a publish is accepted the newest record acquired has gone out, whatever was refused before |
| TelemSwc.TelemSwc.Restart | src/app/TelemSwc/TelemSwc.c:224-273 | Every restart is a reset step and leaves no live record waiting; the invariant survives when it is fair |
| TelemSwc.TelemSwc.Housekeep | src/ecuabs/FsAbs/FsAbs.c:588-663 | Every call of housekeeping is its step of the protocol; the invariant survives when it is fair |
| TelemSwc.TelemetryIsClean | src/services/Com/Com.c:552-652 | Telemetry text has no line end and always fits the drain buffer, so the delivery theorems cover it |
| Backfill.BackfillSendsTheFile | src/app/TelemSwc/TelemSwc.c:412-497 | Over any requests and cycles, refused publishes, failing reads and records logged meanwhile: the payloads accepted for a date served whole are, put together, that date's file exactly as it stood when its first chunk was accepted; for a date given up they are less than its file; nothing was sent for invalid dates, missing or empty files and dates to come; and each date was left for that reason |
| Backfill.StayingFilesArrive | src/app/TelemSwc/TelemSwc.c:412-497 | A date whose file is there at every moment, not empty and readable, is served whole |
| Backfill.TransferCompletes | src/app/TelemSwc/TelemSwc.c:412-497 | From any accepted request, whatever the card does meanwhile and however many cycles find no network or a refused publish, the transfer has dealt with every date once the broker has accepted in more cycles than dates times the chunks of the largest file |
| BackfillCalls.OneChunkACycle | src/app/TelemSwc/TelemSwc.c:412-497 | In any run a cycle sends at most one payload of at most 2048 characters, and none without network, without a request or when the broker refuses |
| BackfillCalls.RefusedChangesNothing | src/app/TelemSwc/TelemSwc.c:116-144 | A request that comes while one is served, or that names no valid date, leaves the whole run as it is without it |
| BackfillCalls.TakenStartsAfresh | src/app/TelemSwc/TelemSwc.c:116-144 | Any other starts afresh with its first sixteen dates |
| Backfill.KeptFilesNeverDisturb | src/app/TelemSwc/TelemSwc.c:445-468 | While files are only appended to or removed for good, whatever is being served reads as it was planned |
| Backfill.GrowingFilesNeverDisturb | src/app/TelemSwc/TelemSwc.c:445-468 | The same for files that only grow from each moment to the next |
| Backfill.DisturbedIff | src/app/TelemSwc/TelemSwc.c:470-484 | A chunk sent continues the planned file exactly when the file still reads there as it was planned |
| Retention.FilesGrowOrGo | src/ecuabs/FsAbs/FsAbs.c:588-663 | In every fair run of a unit with a cursor, appends, crossings, removals and restarts in any order, a file is appended to or removed and never written anew |
| Retention.StepRetains | src/ecuabs/FsAbs/FsAbs.c:270-663 | Each call keeps what has gone from the card behind both cursors |
| Retention.UnanchoredRewrites | src/ecuabs/FsAbs/FsAbs.c:637-662 | Before there is a cursor housekeeping may remove the file of a day that is then written anew |
| Retention.FairLoggingNeverDisturbs | src/app/TelemSwc/TelemSwc.c:412-497 | A transfer beside a fair run of the log is never disturbed, so its payloads are its files |
| Backfill.Transfer.ServeBackfill | src/app/TelemSwc/TelemSwc.c:412-497 | The serving loop comes to exactly the state of the transfer function, which sends at most one chunk a cycle |
| Backfill.Transfer.ServeOne | src/app/TelemSwc/TelemSwc.c:421-496 | One pass names, sizes and plans the date's file, sends a chunk, passes the date or stops, as that function does |
| Backfill.Transfer.ServeChunk | src/app/TelemSwc/TelemSwc.c:470-496 | The part of a pass after planning: the next extent is read and published, a failed read abandons the date, and past the last chunk the date is whole |
| Backfill.Transfer.OnBackfillRequest | src/app/TelemSwc/TelemSwc.c:116-144 | A request is refused while one is served, and otherwise starts with its first sixteen dates |
| ComTransfer.ComputeChunkPlan | src/services/Com/Com.c:258-291 | The plan cuts the size into full chunks and a shorter last one; no chunk exactly for size zero |
| ComTransfer.GetChunkExtent | src/services/Com/Com.c:293-319 | The extent of chunk k, or nothing past the last |
| ComTransfer.ExtentsTile | src/services/Com/Com.c:258-319 | The chunks of a plan tile the bytes: each starts where the ones before it end, and the last ends the file |
| ComTransfer.ParseBackfillRequest | src/services/Com/Com.c:325-409 | The first dates of the bounded payload in order, the surplus counted up to 255 |
| ComTransfer.WantedIff | src/services/Com/Com.c:325-409 | A request without commas and NULs names itself if it is a valid date and nothing otherwise; cut at a comma or NUL it names what its parts name, in order |
| ComTransfer.RequestRoundTrip | src/services/Com/Com.c:325-409 | Dates written between commas are read back as those dates |
| ComCsv.RecordRoundTrip | src/services/Com/Com.c:552-652 | A record has 199 fields and at most 1481 characters, and splitting its text gives its fields back |
| ComCsv.ColumnRoundTrip | src/services/Com/Com.c:552-652 | Each numeric column decodes to the source value of its field when valid, and is blank exactly when invalid; which field a column name means is in ComColumns |
| ComCsv.FieldRoundTrip | src/services/Com/Com.c:94-159 | A printed field decodes to its value over the whole of its type, 2^64 - 1 and -2^31 included |
| ComCsv.RecordAlwaysFits | src/services/Com/Com.c:552-652 | A record never overflows 2304 bytes |
| ComCsv.RecordCharacters | src/services/Com/Com.c:497-652 | Apart from the device identifier a record holds digits, minus signs and commas only |
| ComCsv.SerialiseCsvRecord | src/services/Com/Com.c:552-652 | The writer produces the text whose columns ComColumns gives, or reports E_NO_SPACE with the part that fits, always terminated |
| ComCsv.HeaderMatchesRecords | src/services/Com/Com.c:416-490 | The header splits into 199 names, fits its buffer and holds no line end, separator or NUL |
| ComCsv.FormatCsvHeader | src/services/Com/Com.c:454-490 | The header is written whole, or E_NO_SPACE and an empty buffer |
| ComColumns.NamesDiffer | src/services/Com/Com.c:416-490 | No two of the 199 column names are equal |
| ComColumns.ClockColumns | src/services/Com/Com.c:568-574 | SEQ, UNIX_TIME and UPTIME_MS carry the counter and the clocks; UNIX_TIME is blank exactly without a trusted time |
| ComColumns.DistanceColumns | src/services/Com/Com.c:592-597 | ODO_MM and TRIP_MM carry the totals and are never blank |
| ComColumns.StatusColumns | src/services/Com/Com.c:621-626 | DTC_COUNT, HEAP_FREE and BEARER carry those numbers |
| ComColumns.SupplyColumns | src/services/Com/Com.c:579-586 | AUX_MV, DC_DV and DC_DA carry those voltages and that current, or are blank when not valid |
| ComColumns.MotorColumns | src/services/Com/Com.c:582-590 | RPM, SPEED_MMPS and MCU_FAULT carry the motor speed, the road speed and the fault code, or are blank without valid drive data |
| ComColumns.PositionColumns | src/services/Com/Com.c:599-619 | Each of the eight position columns carries its value of a valid fix |
| ComColumns.NoPositionColumns | src/services/Com/Com.c:557-619 | Without a position they are blank |
| ComColumns.DeviceColumn | src/services/Com/Com.c:576-576 | The identifier column carries the device identifier as it is |
| ComColumns.PackColumns | src/services/Com/Com.c:503-516 | The voltage, current and temperature columns of pack i carry that pack's values, or are blank when its reading is not valid |
| ComColumns.PackChargeColumns | src/services/Com/Com.c:517-530 | Likewise its charge, energy, time and status columns |
| ComColumns.CellVoltageColumns | src/services/Com/Com.c:532-537 | Likewise the voltage column of each of its 23 cells |
| ComColumns.CellColumns | src/services/Com/Com.c:539-549 | Likewise the current, the four temperatures and the flags that come with the cells |
| ComColumns.NoPackColumns | src/services/Com/Com.c:497-500 | Without an array of packs every pack column is blank |
| ComWriter.Writer.WriteChar | src/services/Com/Com.c:57-72 | A character is added or the writer overflows for good; the buffer stays terminated |
| ComWriter.Writer.WriteString | src/services/Com/Com.c:74-91 | Likewise for a string |
| ComWriter.Writer.WriteU64 | src/services/Com/Com.c:94-119 | The digits of any uint64, most significant first, in the twenty-digit scratch |
| ComWriter.Writer.WriteS32 | src/services/Com/Com.c:122-135 | A sign and digits, -2^31 included |
| ComText.SignedRoundTrip | src/services/Com/Com.c:94-135 | A printed number reads back |
| ComText.SignedIsCanonical | src/services/Com/Com.c:94-135 | A minus sign exactly for a negative number, no zero in front, and zero is 0 |
| ComText.DigitsSortAsNumbers | src/services/Com/Com.c:237-252 | Digit strings of one length compare under strcmp as their numbers |
| ComText.SplitJoin | src/services/Com/Com.c:138-141 | Splitting what was joined with separators gives the fields back |
| ComDate.IsValidDate | src/services/Com/Com.c:190-235 | Exactly the real calendar dates of 2024 to 2099 pass |
| ComDate.FormatLogFileName | src/services/Com/Com.c:237-252 | For a valid date and a buffer of more than 13 characters, and only then, it writes a slash, the eight digits, .csv and a terminator |
| ComDate.NamesSortAsKeys | src/ecuabs/FsAbs/FsAbs_Platform.h:62-92 | Log names compare under strcmp as their dates' numbers |
| ComDate.KeysFollowDays | src/ecuabs/TimeAbs/TimeAbs.c:295-337 | Stamps of two clock readings compare as their day numbers |
| ComDate.FilesSortChronologically | src/services/Com/Com.c:237-252 | The files of two readings compare as the days they were taken on |
| ComDate.StampIsValid | src/ecuabs/TimeAbs/TimeAbs.c:295-337 | The stamp of a reading is a valid date exactly from 1704067200 to 4102444799 |
| ComDate.ValidStampIff | src/services/Com/Com.c:190-235 | The dates accepted are exactly the stamps of clock readings in that window |
| ComDate.NameSpellsTheDay | src/services/Com/Com.c:237-252 | The file of a clock reading is named after the year, month and day of its calendar form |
| ComDate.FormatDateStamp | src/ecuabs/TimeAbs/TimeAbs.c:295-337 | The stamp of the clock, or nothing without a valid clock |
| TimeAbs.ToCivilSound | src/ecuabs/TimeAbs/TimeAbs.c:75-123 | The calendar form of any uint32 is a real date and converts back to it |
| TimeAbs.ToCivilComplete | src/ecuabs/TimeAbs/TimeAbs.c:125-155 | Every real date from 1970 on is the calendar form of its seconds, so the conversions are inverse bijections |
| TimeAbs.OrderPreserved | src/ecuabs/TimeAbs/TimeAbs.c:125-155 | Both conversions keep chronological order |
| TimeAbs.SecondsArePosix | src/ecuabs/TimeAbs/TimeAbs.c:125-155 | The month loop equals the seconds-since-the-epoch formula of POSIX.1-2017 Base Definitions section 4.16 |
| TimeAbs.ToDateTime | src/ecuabs/TimeAbs/TimeAbs.c:75-123 | The year and month loops compute the calendar form and the weekday |
| TimeAbs.FromDateTime | src/ecuabs/TimeAbs/TimeAbs.c:125-155 | The loops compute the seconds modulo 2^32 |
| TimeAbs.GnssToUnixTime | src/ecuabs/GnssIf/GnssIf.c:421-462 | The prefix-table conversion of ddmmyy and hhmmss |
| TimeAbs.ConversionsAgree | src/ecuabs/GnssIf/GnssIf.c:421-462 | For every real date of 2000 to 2099 the prefix-table and month-loop conversions agree |
| Calendar.WeekdayIsZeller | src/ecuabs/TimeAbs/TimeAbs.c:75-123 | The weekday is the one that Zeller's congruence gives for the calendar form |
| Calendar.GnssCountsFromMonthStart | src/ecuabs/GnssIf/GnssIf.c:421-462 | The GNSS conversion is zero exactly when a field is out of range, and otherwise counts on from the first of the month, a leap second and a day past the month's end included |
| OdoSwc.ComputeConversionFactorQ32 | src/app/OdoSwc/OdoSwc.c:59-95 | The factor, or zero outside the accepted ranges, with no wrap in between |
| OdoSwc.FactorBounds | src/app/OdoSwc/OdoSwc.c:59-95 | Every accepted calibration gives a factor in 456964..685446321 from a numerator of at most 205633896437760000 |
| OdoUnits.FactorIsTravel | src/app/OdoSwc/OdoSwc.c:67-94 | The factor is the travel in mm per rpm and ms, from pi, the tyre in inches and the gear ratio, in units of 2^-32 mm: within a part in 10^8, and less than a unit short |
| OdoSwc.NumeratorIff | src/app/OdoSwc/OdoSwc.c:88-91 | The numerator exceeds 1.03e17 exactly for tyres above 30053 |
| OdoSwc.ProductIff | src/app/OdoSwc/OdoSwc.c:283-286 | For speeds that add up to 24000 rpm the product stays below 7e15 exactly for factors up to 29166666 |
| OdoSwc.BoundsAreExceeded | src/app/OdoSwc/OdoSwc.c:283-286 | An accepted calibration is beyond both bounds |
| OdoSwc.IntermediatesFit | src/app/OdoSwc/OdoSwc.c:285-309 | No product of the integration or of the speed wraps |
| OdoSwc.Conservation | src/app/OdoSwc/OdoSwc.c:279-299 | Over any run with raw sum S, n accepted samples and r recalibrations, S - n - 2 (2^32 - 1) r <= 2 (2^32 distance + change of the fraction) <= S; the total gains the distance modulo 2^64 |
| OdoSwc.TripFollowsTotal | src/app/OdoSwc/OdoSwc.c:374-384 | Total minus trip changes only at a trip reset |
| OdoSwc.IntervalsAreDisjoint | src/app/OdoSwc/OdoSwc.c:240-299 | Integrated intervals are at most 10000 ms long and pairwise disjoint, across the 32-bit wrap and any trip resets and recalibrations |
| OdoSwc.NoFabricatedDistance | src/app/OdoSwc/OdoSwc.c:212-301 | Over any samples, trip resets and recalibrations the reading grows by at most what the maximum rpm covers under the calibrations in force in the true time elapsed, across the 32-bit wrap |
| OdoSwc.LinearIsClose | src/app/OdoSwc/OdoSwc.c:279-288 | For speeds within e / q rpm of a line of any rational slope the raw sum is within twice that error over the span of the exact integral, whatever the schedule |
| OdoSwc.LinearIsExact | src/app/OdoSwc/OdoSwc.c:279-288 | For speeds linear in time, of any rational slope, the raw sum is the exact integral |
| OdoSwc.SchedulesAgree | src/app/OdoSwc/OdoSwc.c:279-299 | Two fully accepted schedules of one linear speed of any rational slope over the same span have the same raw sum, and readings that agree to half a unit per sample; speeds rounded to within e / q rpm add only that error |
| OdoSwc.GlitchesAreInvisible | src/app/OdoSwc/OdoSwc.c:265-276 | Deleting the samples rejected for acceleration from any run changes nothing |
| OdoSwc.GlitchesAreRecent | src/app/OdoSwc/OdoSwc.c:253-276 | Such a sample lies within 10000 ms of the reference, and the first plausible one later than that replaces the reference |
| OdoUnits.GateIsTwoG | src/app/OdoSwc/OdoSwc.c:102-122 | A change of speed within 19620 mm/s per second since the last sample is always accepted, and an accepted one is less than 1 mm/s over that |
| OdoUnits.ReferenceIff | src/app/OdoSwc/OdoSwc.c:212-276 | From power-up on there is a reference exactly when a sample was measured since the last one that was too fast and the last recalibration; it is the last sample measured, and the speed shown is its |
| OdoUnits.SpeedIsRoundedDown | src/app/OdoSwc/OdoSwc.c:303-310 | The speed shown is the exact one rounded down to a whole mm/s |
| OdoUnits.CalibrationHolds | src/app/OdoSwc/OdoSwc.c:386-416 | A calibration in range and stored is in force at once and after any power-up, keeps both readings and carries no fraction or reference over; any other changes nothing |
| OdoUnits.FirstSampleIff | src/app/OdoSwc/OdoSwc.c:193-207 | After power-up the first sample becomes the reference unless it exceeds the stored maximum, 12000 when none is stored |
| OdoSwc.SampleKeepsValid | src/app/OdoSwc/OdoSwc.c:212-317 | A sample keeps the state valid |
| OdoSwc.Odometer.ProcessSpeedSample | src/app/OdoSwc/OdoSwc.c:212-317 | The whole new state and the outcome of a sample: every gate, the integration and the speed |
| OdoSwc.Odometer.ProcessInterval | src/app/OdoSwc/OdoSwc.c:240-301 | The order, gap and acceleration gates |
| OdoSwc.Odometer.Increment | src/app/OdoSwc/OdoSwc.c:285-286 | The half product, in 64 bits |
| OdoSwc.Odometer.Integrate | src/app/OdoSwc/OdoSwc.c:285-294 | Totals gain the whole millimetres and the fraction keeps the rest |
| OdoSwc.Odometer.IsAccelerationImplausible | src/app/OdoSwc/OdoSwc.c:115-122 | The acceleration gate |
| OdoSwc.Odometer.SpeedOf | src/app/OdoSwc/OdoSwc.c:303-310 | The reported speed, in 64 bits and narrowed |
| OdoSwc.Odometer.Init | src/app/OdoSwc/OdoSwc.c:161-210 | State after a restart from the stored blocks, or left uninitialised when they cannot be read or used |
| OdoSwc.Odometer.Commit | src/app/OdoSwc/OdoSwc.c:129-155 | A successful commit stores total and trip, a failed one leaves the block as it was |
| OdoSwc.Odometer.MainFunction | src/app/OdoSwc/OdoSwc.c:319-345 | After it, with working storage, less than the commit distance is unsaved, nothing is when the interval has passed, and unmoved totals are not written |
| OdoSwc.Odometer.ResetTrip | src/app/OdoSwc/OdoSwc.c:374-384 | The trip is zero at once and nothing else changes; E_OK exactly when the commit succeeded, and then both totals are stored, else the stored block is as it was |
| OdoSwc.Odometer.SetCalibration | src/app/OdoSwc/OdoSwc.c:386-416 | Succeeds exactly for a valid calibration that can be stored, and is then the recalibration event; otherwise nothing changes |
| OdoSwc.Odometer.Persist | src/app/OdoSwc/OdoSwc.c:347-353 | The shutdown commit: E_OK exactly when both totals are stored |
| OdoPower.PowerCutsLoseLittle | src/app/OdoSwc/OdoSwc.h:44-56 | Over any samples, commits that may fail, trip resets, calibrations and power cuts: reading plus losses equals what was covered modulo 2^64; all cuts together lost at most 99999 mm each plus what was covered since the periodic function last ran with a working NvM; a running unit uses the stored calibration |
| OdoPower.CutLosesExactly | src/app/OdoSwc/OdoSwc.h:48-52 | After any run a power cut loses exactly what was covered since the last commit that reached NvM or the last power-up, modulo 2^64; so more than 100 m exactly when more than that was covered since |
| OdoPower.HundredMetresExceeded | src/app/OdoSwc/OdoSwc.h:50-51 | A run of ten seconds at 12000 rpm with the periodic function on time, after which a power cut loses 339 m |
| OdoPower.StepKeepsExact | src/app/OdoSwc/OdoSwc.c:128-155 | Each call keeps what is at stake equal to what was covered since the last commit |
| OdoPower.TripResetIsDurable | src/app/OdoSwc/OdoSwc.c:374-384 | After a trip reset reported as stored, whatever fails and however often power is cut, the trip never exceeds what was covered since |
| OdoPower.ShutdownLosesNothing | src/app/OdoSwc/OdoSwc.c:347-353 | A power cut after a shutdown commit that succeeded loses nothing |
| OdoPower.StepKeepsBound | src/app/OdoSwc/OdoSwc.c:319-345 | Each call keeps what is at stake below the commit distance plus what was covered untended |
| OdoWear.DueIff | src/app/OdoSwc/OdoSwc.c:319-345 | In true time: the periodic function commits exactly when 100 m are unsaved, or anything is and 60 s have passed since the last commit or power-up |
| OdoWear.WritesAreSpaced | src/app/OdoSwc/OdoSwc.c:319-345 | Over any run from a power-up its writes are at most one for each 100 m covered and one for each 60 s passed, across wraps of the clock |
| OdoWear.CommitsAreCounted | src/app/OdoSwc/OdoSwc.c:129-155 | The stored update count grows by exactly the commits that succeeded, modulo 2^32 |
| Crc.Compute | tools/crc_reference.py:63-100 | The nested loops compute the CRC |
| Crc.Reflect | tools/crc_reference.py:54-60 | The loop reverses the bits |
| Crc.ReverseInvolutive | tools/crc_reference.py:54-60 | Reflection is its own inverse |
| Crc.TableIsValid | tools/crc_reference.py:44-51 | All six profiles have a whole-byte width, parameters that fit it and an odd polynomial |
| CrcCheck.CheckValues | tools/crc_reference.py:44-51 | The CRC of 123456789 is the published check value for all six profiles |
| Crc.StepInjective | tools/crc_reference.py:80-92 | A clock of the register loses nothing |
| Crc.RegisterIsSerial | tools/crc_reference.py:63-100 | Feeding bytes equals clocking the message bit by bit, whatever the reflection |
| Crc.BurstDetected | tools/crc_reference.py:63-100 | Two messages that differ within one burst of at most width bits, at any bit position of messages of any length, have different CRCs |
| Crc.AdjacentBytesDetected | tools/crc_reference.py:63-100 | Two messages that differ within width / 8 adjacent bytes have different CRCs (AUTOSAR SWS_CRCLibrary section 7.2 profiles) |
| Crc.ResidueIsZero | tools/crc_reference.py:63-100 | Without output reflection and final exclusive-or, a message and a tail leave the zero register exactly when the tail is the CRC of the message |
| Crc.FrameResidue | tools/rs485_reference.py:67-71 | A message and two bytes leave the zero register exactly when the bytes are its CRC-16, high byte first |
| CrcTable.LookupIsFeed | src/services/Crc/Crc.c:230-240 | One table look-up does the work of eight clocks of the mirrored register |
| CrcTable.RegisterMirrors | src/services/Crc/Crc.c:188-240 | The reflected register is the mirror image of the definition's |
| CrcTable.PolyMirrors | src/services/Crc/Crc.c:17-24 | The reflected constants are the reflections of the profiles' polynomials |
| CrcTable.BuildTable32 | src/services/Crc/Crc.c:50-72 | Entry i is eight clocks of i |
| CrcTable.Kernel32 | src/services/Crc/Crc.c:230-240 | The table loop computes the mirrored register |
| CrcTable.Crc32Routine.Calculate | src/services/Crc/Crc.c:242-284 | For either polynomial the table-driven CRC-32 equals the bit-at-a-time definition, and a continuation from an earlier CRC equals the CRC of both parts |
| CrcTable.CalculateCRC16ARC | src/services/Crc/Crc.c:188-221 | The reflected bit-at-a-time CRC-16/ARC equals the definition, and a continuation equals the CRC of both parts |
| CrcTable.CalculateCRC16 | src/services/Crc/Crc.c:151-180 | The bit-at-a-time CRC-16 equals the definition, and a continuation equals the CRC of both parts |
| CrcCheck.StepIsClockLow | src/services/Crc/Crc.c:50-72 | A clock of the reflected register is the shift and exclusive-or of a 32-bit word |
| CrcCheck.StepIsClockHigh | src/services/Crc/Crc.c:85-107 | A clock of the other registers is the masked shift and exclusive-or of a word |
| Rs485If.CheckIsZeroRegister | src/ecuabs/Rs485If/Rs485If.c:198-247 | The CRC check of a frame passes exactly when its whole-frame register is zero |
| Rs485If.CorruptionRejected | src/ecuabs/Rs485If/Rs485If.c:198-247 | A valid response changed only within two adjacent bytes, payload or CRC or both, is never accepted |
| Rs485If.RequestCarriesItsFields | src/ecuabs/Rs485If/Rs485If.c:144-196 | A request frame has the serial, command and length it was built from, passes its own check, and is refused as a response |
| Rs485If.FrameCheckValue | src/ecuabs/Rs485If/Rs485If.c:135-135 | The frame check of 123456789 is 29B1 |
| Rs485If.ValidateResponse | src/ecuabs/Rs485If/Rs485If.c:198-247 | The verdict on a response, the check last, from a call of the CRC-16 routine |
| Rs485Wire.RequestBytes | src/ecuabs/Rs485If/Rs485If.c:144-167 | The fifteen bytes of a request, one by one |
| Rs485Wire.RequestExtBytes | src/ecuabs/Rs485If/Rs485If.c:169-196 | The seventeen bytes of a broadcast, one by one |
| Rs485Wire.ResponsesAreAccepted | tools/rs485_reference.py:108-125 | A response put together by the reference is accepted and keeps its serial number |
| Rs485Wire.OnlyResponsesAreAccepted | src/ecuabs/Rs485If/Rs485If.c:198-247 | A frame that is accepted is such a response |
| Rs485Wire.VerdictIff | src/ecuabs/Rs485If/Rs485If.c:212-244 | Which verdict a frame of the expected size gets, by its bytes: a foreign header is never a failed check |
| Rs485Wire.VerdictTellsFailure | src/ecuabs/Rs485If/Rs485If.c:401-449 | Which verdict a reply to an addressed request gets: a fault, silence, a foreign header, a wrong length, a failed check and a stranger, in this order |
| Rs485Wire.BatteryRoundTrip | src/ecuabs/Rs485If/Rs485If.c:258-283 | For every reading, a frame that carries its fields big-endian in protocol order parses to it, negative currents and temperatures included |
| Rs485Wire.CellRoundTrip | src/ecuabs/Rs485If/Rs485If.c:285-308 | The same of every set of cell measurements |
| Rs485Wire.ReadingArrives | src/ecuabs/Rs485If/Rs485If.c:677-707 | When the slot's battery answers a read, at once or at the second attempt, the cache holds exactly its reading, marked valid |
| Rs485Wire.CellsArrive | src/ecuabs/Rs485If/Rs485If.c:709-736 | The same of its cells |
| Rs485Wire.FailedReadInvalidates | src/ecuabs/Rs485If/Rs485If.c:401-449 | When both replies fail the reading is marked invalid and nothing else changes; the status is the second failure's |
| Rs485Wire.FailedCellReadInvalidates | src/ecuabs/Rs485If/Rs485If.c:709-736 | The same of the cells |
| Rs485Wire.DiscoveryFinds | src/ecuabs/Rs485If/Rs485If.c:586-675 | For any batteries with plausible, distinct serial numbers in any of the four slots discovery finds exactly those, each in its slot |
| Rs485If.BuildRequest | src/ecuabs/Rs485If/Rs485If.c:144-167 | The first fifteen bytes are the specified frame and the rest of the buffer is kept; a shorter buffer is refused untouched |
| Rs485If.BuildRequestExt | src/ecuabs/Rs485If/Rs485If.c:169-196 | Likewise for the seventeen bytes of a broadcast with a payload |
| Rs485If.AppendCrc | src/ecuabs/Rs485If/Rs485If.c:133-138 | The last two bytes become the CRC of the rest |
| Rs485If.DiscoveryIsDistinct | src/ecuabs/Rs485If/Rs485If.c:586-675 | For any replies, present serials are distinct and never 0 or 0xFFFFFFFF |
| Rs485If.MaskBits | src/ecuabs/Rs485If/Rs485If.c:650-675 | The final switch mask has exactly the bits of the present slots |
| Rs485If.Bus.Transact | src/ecuabs/Rs485If/Rs485If.c:401-449 | The reply accepted, or the last verdict after two attempts, and the request sent once per attempt |
| Rs485If.Bus.Exchange | src/ecuabs/Rs485If/Rs485If.c:321-390 | One exchange uses the next reply |
| Rs485If.Bus.Attempt | src/ecuabs/Rs485If/Rs485If.c:401-449 | One attempt with its validation |
| Rs485If.Bus.SwitchPacks | src/ecuabs/Rs485If/Rs485If.c:559-584 | The switch command is sent once and the status is the verdict on its acknowledgement |
| Rs485If.Bus.DiscoverPacks | src/ecuabs/Rs485If/Rs485If.c:586-675 | The slots become those of the discovery function and the invariants hold; all slots are switched off, then each is enabled alone, asked and disabled in turn, and last exactly the present ones are enabled |
| Rs485If.Bus.ProbeSlot | src/ecuabs/Rs485If/Rs485If.c:602-648 | One slot is enabled alone, asked for its serial number once or twice and disabled; it is taken only when the serial is new and plausible |
| Rs485If.Bus.ReadPackData | src/ecuabs/Rs485If/Rs485If.c:677-707 | Command 1 is sent to the slot's serial number once or twice; what is stored comes from a CRC-valid frame that echoes it, and validity tracks this read |
| Rs485If.Bus.ReadCellData | src/ecuabs/Rs485If/Rs485If.c:709-736 | Likewise with command 5 for cell data |
| Rs485If.ReadKeepsConsistent | src/ecuabs/Rs485If/Rs485If.c:677-736 | A read keeps every slot's data attributed to the serial it was read from |
| NetIf.ReachableStates | src/ecuabs/NetIf/NetIf.c:263-539 | In every reachable state: link and session are on the requested bearer, a session clears the backoff, down means nothing requested, at most the requested radio is on |
| NetIf.StepKeepsInv | src/ecuabs/NetIf/NetIf.c:263-539 | Each request, release and cycle keeps this |
| NetIf.BoundedReconnection | src/ecuabs/NetIf/NetIf.c:172-189 | From any reachable state with the backoff cleared, while no session opens and no other bearer is requested, however often the same one is, after k backoffs the interval is min(2000 2^(k-1), 300000) ms, and bearer starts within T ms are at most 8 + T / 300000 |
| NetIf.LostSessionIsBounded | src/ecuabs/NetIf/NetIf.c:490-539 | The same bound after a session is lost with the request unchanged, from the shortest interval again |
| NetIf.RequestIsBounded | src/ecuabs/NetIf/NetIf.c:263-310 | A new request clears the backoff and makes the first of at most 9 + T / 300000 starts |
| NetIf.BoundedInEveryWindow | src/ecuabs/NetIf/NetIf.c:172-189 | In any T ms of any run in which no other bearer is requested and no session opens, the bearer is started at most 9 + T / 300000 times |
| NetIf.Recovery | src/ecuabs/NetIf/NetIf.c:423-539 | From every reachable state with a bearer requested, three cycles with a working link and broker after any backoff give a session, which stays |
| NetIf.OutageCosts | src/ecuabs/NetIf/NetIf.c:514-530 | Starts and backoffs alternate and each start has been waited for |
| NetIf.DoublingBackoff | src/ecuabs/NetIf/NetIf.c:172-189 | The interval doubles up to its ceiling |
| NetIf.ElapsedIsTrue | src/mcal/Gpt/Gpt.c:18-44 | Modular elapsed time never runs ahead of true time |
| Retry.ElapsedIff | src/mcal/Gpt/Gpt.c:18-44 | Until the counter has wrapped modular time is true time; an interval above half its range counts as over |
| Retry.CycleIff | src/ecuabs/NetIf/NetIf.c:423-539 | The state after a cycle in true time: which waits end, when, and what ends a link or a session |
| Retry.StaysAreBounded | src/ecuabs/NetIf/NetIf.c:455-530 | In any run whose main function runs at least every G ms, connecting lasts less than 30000 + G ms, a link without session less than 15000 + G and a backoff less than its interval + G |
| Retry.RetryingNeverStops | src/ecuabs/NetIf/NetIf.c:423-539 | While a bearer is requested and no session opens, T ms of such a run hold so many starts of the bearer that one more would fill them at 345000 + 3 G ms each |
| NetIf.NetIf.MainFunction | src/ecuabs/NetIf/NetIf.c:423-539 | The whole new state of a cycle, timeouts of connecting and of a link without session included; in a session every held topic has been applied |
| NetIf.NetIf.RequestBearer | src/ecuabs/NetIf/NetIf.c:263-310 | The whole new state of a request; E_NOT_OK exactly when a new bearer is requested and the platform refuses to start it |
| NetIf.NetIf.ReleaseBearer | src/ecuabs/NetIf/NetIf.c:312-331 | The whole new state of a release |
| NetIf.NetIf.BackOff | src/ecuabs/NetIf/NetIf.c:172-189 | Doubling with a ceiling |
| NetIf.NetIf.ReapplySubscriptions | src/ecuabs/NetIf/NetIf.c:192-203 | Exactly the held topics are applied |
| NetIf.NetIf.Subscribe | src/ecuabs/NetIf/NetIf.c:391-421 | A topic is held unless it is too long or every slot holds another, no held topic is lost, and in a session the status is the broker's answer |
| NetIf.NetIf.Publish | src/ecuabs/NetIf/NetIf.c:356-389 | What the broker accepts, it accepts in a session on the requested bearer with every held topic applied, and no telemetry record or backfill chunk is refused for its size |
| Spi.ChipSelectsExclude | src/mcal/Spi/Spi_Esp32.cpp:170-325 | In every interleaving of any number of bracketing tasks a low chip select is the owner's and its bracket holds the mutex, two are never low together, and no call is refused |
| Spi.BracketsDoNotMix | src/mcal/Spi/Spi_Esp32.cpp:260-350 | Each byte selects at most its own device, exactly it in Spi_Transfer, and the bytes of a bracket stand together on the wire |
| Spi.UnlockRaises | src/mcal/Spi/Spi_Esp32.cpp:204-222 | Releasing leaves the released chip select high |
| SpiCalls.BytesAreConserved | src/mcal/Spi/Spi_Esp32.cpp:260-350 | In every interleaving the bytes clocked by Spi_Transfer and by Spi_TransferContinuous, with those the present call still has to clock, are as many as were asked for |
| SpiCalls.SelectFollowsCalls | src/mcal/Spi/Spi_Esp32.cpp:226-350 | In every interleaving, between the calls of a bracket the chip select is low exactly when the last call that decides it was an assert; a transfer leaves it high |
| SpiCalls.RefusedIff | src/mcal/Spi/Spi_Esp32.cpp:74-97 | A call goes on exactly when its device owns the bus; a refused one is over and has changed neither selects, wire, owner nor mutex |
| Spi.StepKeepsLock | src/mcal/Spi/Spi_Esp32.cpp:74-325 | Each memory access keeps the lock invariant |
| Spi.StepKeepsWire | src/mcal/Spi/Spi_Esp32.cpp:260-350 | Each memory access keeps the wire invariant |
| Spi.UnbracketedIff | src/mcal/Spi/Spi_Esp32.cpp:74-97 | For any bus of bracketing tasks at any point, a chip select asserted outside a bracket can end with both selects low exactly when its device owns the bus at the check and some other task uses the other device |
| Spi.UnbracketedRaiseIff | src/mcal/Spi/Spi_Esp32.cpp:204-265 | A deassert or an unlock outside a bracket can raise a chip select in the middle of one exactly when its device owns the bus at the check |
| Spi.UnbracketedCollidesFromStart | src/mcal/Spi/Spi_Esp32.cpp:74-97 | Such a collision is reached from power-on, with any number of tasks |

## Left out

- Platform leaves (SD, WiFi, GSM, MQTT, UART, flash): only the contracts of FsAbs_Platform.h and NetIf_Platform.h.
- Fee and NvM: each block is one durable cell that a write replaces whole or not at all.
- Interleavings inside one FsAbs call: the append and the read share a line buffer without a lock, and each call is one step here.
- The line, peek and chunk buffers of FsAbs and TelemSwc are sequence values, so their reuse in place is not modelled.
- Offsets and sizes are unbounded numbers: files are taken to stay below 4 GiB, as FAT32 has them, so `offset` does not wrap.
- Statistics counters, Dem and Det reports, unsentBytes and the version-info functions.
- The uninitialised and null-pointer guards, except the odometer's uninitialised state.
- TelemSwc_GatherRecord, TelemSwc_PublishHealth and topic construction: the gathered record is an argument.
- Com_WriteU64OrBlank and its relatives are one field writer looped over a list of fields, in place of some two hundred straight-line calls.
- Wall-clock continuity past 49.7 days (src/ecuabs/TimeAbs/TimeAbs.c:215), and the clock state of TimeAbs.
- Equal link timeouts for every bearer: NetIf_EnterState does not restamp when the bearer changes while connecting, and the model keeps that.
- MQTT traffic other than the set of topics applied to a session, and signal strength and uptime reporting.
- The numeric field parsers and sentence handling of GnssIf, apart from the date conversion.
- Bit-at-a-time CRC-8 routines of Crc.c, which are the definition in `Crc.Compute` with the width fixed, and their continuation calls.
- Timeouts and delays of Rs485If and Spi, the octets on the SPI wire, and the SPI statistics.
- Validity flags of battery packs after rediscovery: they are not cleared, so valid does not imply present.
- HmiSwc, IoHwAb, BattSwc, DiagSwc, Adc, Can, CanIf, Uart, Mcu, Port, Dio, ComM, SchM, EcuM, Dem, Det: they would only add easy members.
