/**
 * The store-and-forward log of src/ecuabs/FsAbs.
 *
 * The card maps each log file's date key (see ComDate, whose lemmas make key order the strcmp order of the
 * names) to its bytes; Fee is one durable cell for the cursor. Every platform call whose outcome the source
 * cannot choose is an argument: writes may fail before, during or after the bytes reach the card, reads,
 * directory walks and cursor stores may fail.
 */
module FsAbs {
  import opened Base
  import opened FsFrame
  import ComCsv
  import ComDate
  import ComText

  const WRITE_FAILURE_LIMIT := 5
  const LOW_SPACE_LIMIT_MIB := 512
  const FILENAME_SIZE := 16
  /** Bytes one header check reads. */
  const PEEK_SIZE := 3071

  datatype Cursor = Cursor(file: nat, offset: nat)

  type Card = map<nat, string>

  /** Module statics, the card and the Fee cell; the cursor is present when it is valid. */
  datatype Fs = Fs(
    card: Card, fee: Option<Cursor>, mounted: bool, cursor: Option<Cursor>, pending: nat, failures: uint16)

  // ---------------------------------------------------------------------------------------------
  // Platform contracts
  // ---------------------------------------------------------------------------------------------

  /** How an append ends: refused, cut short after some bytes and reported failed, or committed. */
  datatype Write = NotOpened | Torn(count: nat) | Done

  function Content(card: Card, file: nat): string {
    if file in card then card[file] else ""
  }

  /** The bytes that reach the card. */
  function Landed(data: string, w: Write): string {
    match w
    case NotOpened => ""
    case Torn(n) => data[..Min(n, |data|)]
    case Done => data
  }

  function Append(card: Card, file: nat, data: string, w: Write): Card {
    if w.NotOpened? then card else card[file := Content(card, file) + Landed(data, w)]
  }

  /** Up to `size` bytes from `offset`; nothing at or past the end. */
  function Chunk(content: string, offset: nat, size: nat): string {
    if offset >= |content| then "" else content[offset..Min(offset + size, |content|)]
  }

  ghost predicate IsNext(card: Card, after: int, f: nat) {
    f in card && f > after && forall g :: g in card && g > after ==> f <= g
  }

  lemma NextExists(keys: set<nat>, after: int, f: nat)
    requires f in keys && f > after
    ensures exists n :: n in keys && n > after && forall g :: g in keys && g > after ==> n <= g
    decreases f
  {
    if g :| g in keys && after < g < f {
      NextExists(keys, after, g);
    }
  }

  /** The smallest log key above `after`: FsAbs_PlatformFindNextLog, and FindOldestLog from -1. */
  ghost function NextLog(card: Card, after: int): (next: Option<nat>)
    ensures next.Some? ==> IsNext(card, after, next.value)
    ensures next.None? ==> forall g :: g in card ==> g <= after
  {
    if f :| f in card && f > after then
      NextExists(card.Keys, after, f);
      var n :| n in card.Keys && n > after && forall g :: g in card.Keys && g > after ==> n <= g;
      Some(n)
    else None
  }

  /** Bytes of `file` from `offset`, or nothing when the read fails. */
  function ReadFile(card: Card, file: nat, offset: nat, size: nat, ok: bool): Option<string> {
    if ok && file in card then Some(Chunk(card[file], offset, size)) else None
  }

  // ---------------------------------------------------------------------------------------------
  // What each call does to the state
  // ---------------------------------------------------------------------------------------------

  predicate WellFormed(fs: Fs) {
    fs.pending > 0 ==> fs.cursor.Some?
  }

  /** FsAbs_StoreCursor: the durable cell takes the cursor, or keeps what it had. */
  function Stored(fs: Fs, ok: bool): Fs {
    if ok then fs.(fee := fs.cursor) else fs
  }

  /** FsAbs_Init; `readOk` is whether the stored cursor can be read back. */
  function Booted(fs: Fs, mountOk: bool, readOk: bool): (Fs, Status) {
    if mountOk then
      (fs.(mounted := true, cursor := if readOk then fs.fee else None, pending := 0, failures := 0), E_OK)
    else (fs.(mounted := false, cursor := None, pending := 0, failures := 0), E_NOT_OK)
  }

  datatype AppendIo = AppendIo(header: Write, line: Write, stored: bool)

  function HeaderLine(): string {
    ComCsv.Header() + [NEWLINE]
  }

  /** The text that is stored: strlen narrowed to sixteen bits. */
  function TextOf(record: string): string {
    record[..|record| % U16]
  }

  predicate Writable(date: string, record: string) {
    ComDate.ValidStamp(date) && |TextOf(record)| <= MAX_WRITABLE
  }

  lemma NameFits(date: string)
    requires ComDate.ValidStamp(date)
    ensures |ComDate.FileName(date)| < FILENAME_SIZE
  {}

  /** The card once the header of a new file has been dealt with. */
  function WithHeader(card: Card, file: nat, header: Write): Card {
    if file in card then card else Append(card, file, HeaderLine(), header)
  }

  function Appended(fs: Fs, date: string, record: string, io: AppendIo): (Fs, Status) {
    if !fs.mounted || !Writable(date, record) then (fs, E_NOT_OK)
    else
      var file := ComDate.Key(date);
      var fs1 := fs.(card := WithHeader(fs.card, file, io.header));
      if file !in fs.card && !io.header.Done? then (fs1, E_NOT_OK)
      else LineAppended(fs1, file, TextOf(record), io)
  }

  function LineAppended(fs: Fs, file: nat, text: string, io: AppendIo): (Fs, Status) {
    var fs1 := fs.(card := Append(fs.card, file, LineOf(text), io.line));
    if !io.line.Done? then
      var failures := Min(fs.failures + 1, 0xFFFF);
      (fs1.(failures := failures, mounted := fs.mounted && failures < WRITE_FAILURE_LIMIT), E_NOT_OK)
    else if fs.cursor.None? then
      (Stored(fs1.(failures := 0, cursor := Some(Cursor(file, 0))), io.stored), E_OK)
    else (fs1.(failures := 0), E_OK)
  }

  /** A stored record's text is the record itself exactly when its length fits the sixteen bits strlen is kept in. */
  lemma StoredWholeIff(fs: Fs, date: string, record: string, io: AppendIo)
    requires Appended(fs, date, record, io).1 == E_OK
    ensures Content(Appended(fs, date, record, io).0.card, ComDate.Key(date))
         == Content(WithHeader(fs.card, ComDate.Key(date), io.header), ComDate.Key(date)) + LineOf(TextOf(record))
    ensures TextOf(record) == record <==> |record| < U16
  {
    hide LineOf, HeaderLine, ComDate.Key, ComDate.ValidStamp;
  }

  datatype ReadIo = ReadIo(peekOk: bool, readOk: bool, findOk: bool, stored: bool)

  /** Every platform call of a read succeeds. */
  const HEALTHY := ReadIo(true, true, true, true)

  /** Offset just after the first line when it ends within the peek and carries no separator, else zero. */
  function HeaderEnd(peek: string): (n: nat)
    ensures n <= |peek|
  {
    var n := FirstNewline(peek);
    if n < |peek| && CRC_SEPARATOR !in peek[..n] then n + 1 else 0
  }

  function HeaderSkipped(card: Card, c: Cursor, peekOk: bool): Cursor {
    if c.offset != 0 then c
    else match ReadFile(card, c.file, 0, PEEK_SIZE, peekOk)
      case None => c
      case Some(peek) => c.(offset := HeaderEnd(peek))
  }

  lemma HeaderEndOf(header: string, rest: string)
    requires NEWLINE !in header && CRC_SEPARATOR !in header
    ensures HeaderEnd(header + [NEWLINE] + rest) == |header| + 1
  {
    FirstNewlineAt(header, rest);
    assert (header + [NEWLINE] + rest)[..|header|] == header;
  }

  lemma HeaderLineIsPlain()
    ensures 0 < |HeaderLine()| <= 2128 && HeaderLine()[|HeaderLine()| - 1] == NEWLINE
    ensures NEWLINE !in HeaderLine()[..|HeaderLine()| - 1] && CRC_SEPARATOR !in HeaderLine()[..|HeaderLine()| - 1]
  {
    hide ComCsv.Header, ComCsv.HeaderNames, ComText.Split;
    ComCsv.HeaderMatchesRecords();
    assert HeaderLine()[..|HeaderLine()| - 1] == ComCsv.Header();
  }

  /** A committed header is passed over and never reported as damage, whatever follows it. */
  lemma HeaderIsSkipped(card: Card, file: nat)
    requires file in card && HeaderLine() <= card[file]
    ensures HeaderSkipped(card, Cursor(file, 0), true) == Cursor(file, |HeaderLine()|)
  {
    hide HeaderLine, HeaderEnd;
    HeaderLineIsPlain();
    var n := |HeaderLine()| - 1;
    var peek := Chunk(card[file], 0, PEEK_SIZE);
    assert peek == HeaderLine()[..n] + [NEWLINE] + peek[n + 1..];
    HeaderEndOf(HeaderLine()[..n], peek[n + 1..]);
  }

  datatype Reading = Reading(fs: Fs, status: Status, text: string)

  ghost function Read(fs: Fs, size: nat, io: ReadIo): Reading {
    var fs0 := fs.(pending := 0);
    if !fs.mounted || fs.cursor.None? then Reading(fs0, E_NOT_FOUND, "")
    else
      var c := HeaderSkipped(fs.card, fs.cursor.value, io.peekOk);
      ReadFrom(fs0.(cursor := Some(c)), c, size, io)
  }

  ghost function ReadFrom(fs: Fs, c: Cursor, size: nat, io: ReadIo): Reading {
    match ReadFile(fs.card, c.file, c.offset, READ_SIZE, io.readOk)
    case None => Reading(fs, E_NOT_FOUND, "")
    case Some(chunk) => if chunk == "" then Crossed(fs, c, io) else Taken(fs, Judge(chunk), size)
  }

  /** End of file: on to the next log, whose cursor store may be lost. */
  ghost function Crossed(fs: Fs, c: Cursor, io: ReadIo): Reading {
    match NextLog(fs.card, c.file)
    case Some(next) =>
      if io.findOk then Reading(Stored(fs.(cursor := Some(Cursor(next, 0))), io.stored), E_PENDING, "")
      else Reading(fs, E_NOT_FOUND, "")
    case None => Reading(fs, E_NOT_FOUND, "")
  }

  function Taken(fs: Fs, verdict: Verdict, size: nat): Reading {
    match verdict
    case Damaged(span) => Reading(fs.(pending := span), E_CRC_FAIL, "")
    case Good(text, span) =>
      if |text| >= size then Reading(fs, E_NOT_OK, "") else Reading(fs.(pending := span), E_OK, text)
  }

  /** FsAbs_AdvanceCursor and FsAbs_SkipCorruptRecord. */
  function Advanced(fs: Fs, stored: bool): (Fs, Status)
    requires WellFormed(fs)
  {
    if fs.pending == 0 then (fs, E_NOT_OK)
    else
      var c := fs.cursor.value;
      (Stored(fs.(cursor := Some(c.(offset := c.offset + fs.pending)), pending := 0), stored),
       if stored then E_OK else E_NOT_OK)
  }

  datatype SpaceIo = SpaceIo(spaceOk: bool, capacity: nat, used: nat, findOk: bool, removeOk: bool)

  /** The file one housekeeping pass removes, if any. */
  ghost function Reclaimed(fs: Fs, io: SpaceIo): Option<nat> {
    if !fs.mounted || !io.spaceOk || io.capacity - io.used >= LOW_SPACE_LIMIT_MIB || !io.findOk then None
    else match NextLog(fs.card, -1)
      case None => None
      case Some(oldest) =>
        if (fs.cursor.Some? && fs.cursor.value.file == oldest) || !io.removeOk then None else Some(oldest)
  }

  ghost function Housekept(fs: Fs, io: SpaceIo): Fs {
    match Reclaimed(fs, io)
    case None => fs
    case Some(file) => fs.(card := fs.card - {file})
  }

  // ---------------------------------------------------------------------------------------------
  // The module
  // ---------------------------------------------------------------------------------------------

  class RecordLog {
    // The card and the Fee block, which outlive a reset.
    var card: Card
    var fee: Option<Cursor>
    // Module statics.
    var mounted: bool
    var valid: bool
    var fileName: nat
    var offset: nat
    var pendingRecordSpan: nat
    var consecutiveWriteFailures: uint16

    ghost function State(): Fs
      reads this
    {
      Fs(card, fee, mounted, if valid then Some(Cursor(fileName, offset)) else None, pendingRecordSpan,
         consecutiveWriteFailures)
    }

    constructor (card: Card, fee: Option<Cursor>)
      ensures State() == Fs(card, fee, false, None, 0, 0)
    {
      this.card, this.fee := card, fee;
      mounted, valid, fileName, offset, pendingRecordSpan, consecutiveWriteFailures := false, false, 0, 0, 0, 0;
    }

    method LoadCursor(readOk: bool) returns (status: Status)
      modifies this
      ensures State() == old(State()).(cursor := if readOk then old(fee) else None)
      ensures status == if readOk && old(fee).Some? then E_OK else E_NOT_FOUND
    {
      if !readOk || fee.None? {
        valid := false;
        return E_NOT_FOUND;
      }
      fileName, offset, valid := fee.value.file, fee.value.offset, true;
      status := E_OK;
    }

    method StoreCursor(ok: bool) returns (status: Status)
      requires valid
      modifies this
      ensures State() == Stored(old(State()), ok) && status == if ok then E_OK else E_NOT_OK
    {
      if !ok {
        return E_NOT_OK;
      }
      fee := Some(Cursor(fileName, offset));
      status := E_OK;
    }

    method Init(mountOk: bool, readOk: bool) returns (status: Status)
      modifies this
      ensures (State(), status) == Booted(old(State()), mountOk, readOk)
    {
      mounted, valid, fileName, offset := false, false, 0, 0;
      consecutiveWriteFailures, pendingRecordSpan := 0, 0;
      if !mountOk {
        return E_NOT_OK;
      }
      mounted := true;
      var _ := LoadCursor(readOk);
      status := E_OK;
    }

    method PlatformAppend(file: nat, data: string, w: Write) returns (status: Status)
      modifies this`card
      ensures card == Append(old(card), file, data, w) && status == if w.Done? then E_OK else E_NOT_OK
    {
      match w {
        case NotOpened =>
          status := E_NOT_OK;
        case Torn(count) =>
          var before := if file in card then card[file] else "";
          card := card[file := before + data[..Min(count, |data|)]];
          status := E_NOT_OK;
        case Done =>
          var before := if file in card then card[file] else "";
          card := card[file := before + data];
          status := E_OK;
      }
    }

    /** Writes the CSV header of a file that does not exist yet. */
    method WriteHeader(file: nat, w: Write) returns (status: Status)
      requires file !in card
      modifies this`card
      ensures card == WithHeader(old(card), file, w) && status == if w.Done? then E_OK else E_NOT_OK
    {
      hide ComCsv.Header;
      var header := new char[ComCsv.HEADER_BUFFER_SIZE];
      var formatted, headerLength := ComCsv.FormatCsvHeader(header);
      ComCsv.HeaderMatchesRecords();
      header[headerLength] := NEWLINE;
      assert header[..headerLength + 1] == HeaderLine();
      status := PlatformAppend(file, header[..headerLength + 1], w);
    }

    method AppendRecord(date: string, record: string, io: AppendIo) returns (status: Status)
      modifies this
      ensures (State(), status) == Appended(old(State()), date, record, io)
    {
      hide HeaderLine, LineOf;
      if !mounted {
        return E_NOT_OK;
      }
      var path := new char[FILENAME_SIZE];
      var named := ComDate.FormatLogFileName(path, date);
      if named != E_OK {
        if ComDate.ValidStamp(date) { NameFits(date); }
        return E_NOT_OK;
      }
      var textLength := |record| % U16;
      if textLength + CRC_FIELD_CHARS + 2 > LINE_BUFFER_SIZE {
        return E_NOT_OK;
      }
      var file := ComDate.Key(date);
      if file !in card {
        var header := WriteHeader(file, io.header);
        if header != E_OK {
          return E_NOT_OK;
        }
      }
      status := AppendLine(file, record[..textLength], io);
    }

    method AppendLine(file: nat, text: string, io: AppendIo) returns (status: Status)
      requires mounted
      modifies this
      ensures (State(), status) == LineAppended(old(State()), file, text, io)
    {
      hide Append, Crc32, Hex;
      var crc := Checksum(text);
      var field := WriteCrcField(crc);
      var written := PlatformAppend(file, text + [CRC_SEPARATOR] + field + [NEWLINE], io.line);
      if written != E_OK {
        if consecutiveWriteFailures < 0xFFFF {
          consecutiveWriteFailures := consecutiveWriteFailures + 1;
        }
        if consecutiveWriteFailures >= WRITE_FAILURE_LIMIT {
          mounted := false;
        }
        return E_NOT_OK;
      }
      consecutiveWriteFailures := 0;
      if !valid {
        fileName, offset, valid := file, 0, true;
        var _ := StoreCursor(io.stored);
      }
      status := E_OK;
    }

    /** The directory walk behind FindNextLog and FindOldestLog. */
    method FindNextLog(after: int) returns (next: Option<nat>)
      ensures next == NextLog(card, after)
    {
      next := None;
      var rest := card.Keys;
      while rest != {}
        invariant rest <= card.Keys
        invariant next.Some? ==> next.value in card && next.value > after
        invariant forall g :: g in card && g !in rest && g > after ==> next.Some? && next.value <= g
        decreases |rest|
      {
        var f :| f in rest;
        rest := rest - {f};
        if f > after && (next.None? || f < next.value) {
          next := Some(f);
        }
      }
    }

    /** FsAbs_PlatformRead, which FsAbs_ReadFileChunk exposes for any file. */
    method PlatformRead(file: nat, from: nat, size: nat, ok: bool) returns (data: Option<string>)
      ensures data == ReadFile(card, file, from, size, ok)
    {
      data := ReadFile(card, file, from, size, ok);
    }

    method SkipCsvHeader(peekOk: bool)
      requires valid
      modifies this`offset
      ensures Cursor(fileName, offset) == HeaderSkipped(card, old(Cursor(fileName, offset)), peekOk)
    {
      if offset != 0 {
        return;
      }
      var peek := PlatformRead(fileName, 0, PEEK_SIZE, peekOk);
      if peek == None {
        return;
      }
      var line := peek.value;
      var i, hasSeparator := 0, false;
      while i < |line| && line[i] != NEWLINE
        invariant 0 <= i <= |line| && NEWLINE !in line[..i] && hasSeparator == (CRC_SEPARATOR in line[..i])
        modifies {}
      {
        if line[i] == CRC_SEPARATOR {
          hasSeparator := true;
        }
        i := i + 1;
      }
      FirstNewlineIs(line, i);
      if i < |line| && !hasSeparator {
        offset := i + 1;
      }
    }

    /** FsAbs_AdvanceToNextFile. */
    method AdvanceToNextFile(io: ReadIo) returns (status: Status)
      requires valid && pendingRecordSpan == 0
      modifies this
      ensures Reading(State(), if status == E_OK then E_PENDING else E_NOT_FOUND, "")
           == Crossed(old(State()), old(Cursor(fileName, offset)), io)
    {
      var next := FindNextLog(fileName);
      if next == None || !io.findOk {
        return E_NOT_FOUND;
      }
      fileName, offset, pendingRecordSpan := next.value, 0, 0;
      var _ := StoreCursor(io.stored);
      status := E_OK;
    }

    method ReadRecordAtCursor(size: nat, io: ReadIo) returns (status: Status, text: string)
      modifies this
      ensures Reading(State(), status, text) == Read(old(State()), size, io)
    {
      hide Judge, NextLog, HeaderEnd, Chunk;
      text := "";
      pendingRecordSpan := 0;
      if !mounted || !valid {
        return E_NOT_FOUND, "";
      }
      SkipCsvHeader(io.peekOk);
      var read := PlatformRead(fileName, offset, READ_SIZE, io.readOk);
      if read == None {
        return E_NOT_FOUND, "";
      }
      var chunk := read.value;
      if |chunk| == 0 {
        var advanced := AdvanceToNextFile(io);
        return if advanced == E_OK then E_PENDING else E_NOT_FOUND, "";
      }
      var verdict := JudgeChunk(chunk);
      match verdict {
        case Damaged(span) =>
          pendingRecordSpan := span;
          status := E_CRC_FAIL;
        case Good(record, span) =>
          if |record| >= size {
            return E_NOT_OK, "";
          }
          pendingRecordSpan := span;
          status, text := E_OK, record;
      }
    }

    method AdvanceCursor(stored: bool) returns (status: Status)
      requires WellFormed(State())
      modifies this
      ensures (State(), status) == Advanced(old(State()), stored)
    {
      if pendingRecordSpan == 0 {
        return E_NOT_OK;
      }
      offset := offset + pendingRecordSpan;
      pendingRecordSpan := 0;
      status := StoreCursor(stored);
    }

    method SkipCorruptRecord(stored: bool) returns (status: Status)
      requires WellFormed(State())
      modifies this
      ensures (State(), status) == Advanced(old(State()), stored)
    {
      if pendingRecordSpan == 0 {
        return E_NOT_OK;
      }
      offset := offset + pendingRecordSpan;
      pendingRecordSpan := 0;
      status := StoreCursor(stored);
    }

    method GetFileSize(file: nat) returns (status: Status, size: nat)
      ensures status == (if !mounted then E_NOT_OK else if file in card then E_OK else E_NOT_FOUND)
      ensures size == if status == E_OK then |card[file]| else 0
    {
      if !mounted {
        return E_NOT_OK, 0;
      }
      if file !in card {
        return E_NOT_FOUND, 0;
      }
      status, size := E_OK, |card[file]|;
    }

    method ReadFileChunk(file: nat, from: nat, size: nat, ok: bool) returns (status: Status, data: string)
      ensures status == E_OK ==> mounted && file in card && data == Chunk(card[file], from, size)
      ensures status == E_OK || status == E_NOT_OK
      ensures status == E_OK <==> mounted && ok && file in card
    {
      data := "";
      if !mounted {
        return E_NOT_OK, "";
      }
      var read := PlatformRead(file, from, size, ok);
      match read {
        case None => status := E_NOT_OK;
        case Some(bytes) => status, data := E_OK, bytes;
      }
    }

    /** Housekeeping: the oldest log goes when space is low, never the one being transferred. */
    method MainFunction(io: SpaceIo)
      modifies this
      ensures State() == Housekept(old(State()), io)
    {
      hide NextLog;
      if !mounted || !io.spaceOk {
        return;
      }
      var free := if io.capacity > io.used then io.capacity - io.used else 0;
      if free >= LOW_SPACE_LIMIT_MIB {
        return;
      }
      var oldest := FindNextLog(-1);
      if oldest == None || !io.findOk {
        return;
      }
      if valid && oldest.value == fileName {
        return;
      }
      if io.removeOk {
        card := card - {oldest.value};
      }
    }
  }
}
