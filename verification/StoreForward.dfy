/**
 * Whole runs of the store-and-forward log: appends, the drain protocol, housekeeping and resets in any order,
 * with a ghost history of what was stored and what a publish accepted.
 */
module StoreForward {
  import opened Base
  import opened FsFrame
  import opened FsAbs
  import ComDate

  /** Capacity the drain hands to FsAbs_ReadRecordAtCursor. */
  const DRAIN_BUFFER_SIZE := 2304

  // ---------------------------------------------------------------------------------------------
  // Worlds and steps
  // ---------------------------------------------------------------------------------------------

  /** A record and the place of its line. */
  datatype Item = Item(file: nat, offset: nat, text: string) {
    function End(): nat {
      offset + |text| + CRC_FIELD_CHARS + 2
    }

    predicate Precedes(that: Item) {
      file < that.file || (file == that.file && End() <= that.offset)
    }

    /** The line starts before the cursor. */
    predicate Before(c: Cursor) {
      file < c.file || (file == c.file && offset < c.offset)
    }
  }

  /** Where the drain loop is between two calls. */
  datatype Phase = Idle | Holding(text: string) | Accepted | Broken

  /**
   * `stored` lists the clean records appended with E_OK at the start of a line; `accepted` every accepted publish,
   * with the place it was read from; `at` the places in `accepted` that carried a stored record, and `sent` the
   * index in `stored` each of them carried. The counters are of appends that
   * returned E_OK on clean text, of those that were not at the start of a line, of writes cut short and of resets;
   * `resumed` holds from a reset to the next send.
   */
  datatype History = History(
    stored: seq<Item>,
    accepted: seq<Item>,
    at: seq<nat>,
    sent: seq<nat>,
    okay: nat,
    glued: nat,
    torn: nat,
    resets: nat,
    resumed: bool)

  datatype World = World(fs: Fs, phase: Phase, h: History)

  datatype Event =
    | AppendEvent(date: string, record: string, write: AppendIo)
    | ReadEvent(io: ReadIo)
    | PublishEvent(accepted: bool)
    | AdvanceEvent(ok: bool)
    | SkipEvent(skipOk: bool)
    | HousekeepEvent(space: SpaceIo)
    | ResetEvent(mountOk: bool, readOk: bool)

  predicate Clean(text: string) {
    NEWLINE !in text && |text| <= MAX_READABLE
  }

  predicate LineAligned(content: string) {
    content == "" || content[|content| - 1] == NEWLINE
  }

  ghost predicate IsAt(stored: seq<Item>, k: nat, c: Cursor) {
    k < |stored| && stored[k].file == c.file && stored[k].offset == c.offset
  }

  /** What the history gains from an append that got past its checks; `card` is the card before the line. */
  function LineLogged(h: History, card: Card, file: nat, text: string, line: Write): History {
    match line
    case NotOpened => h
    case Torn(_) => h.(torn := h.torn + 1)
    case Done =>
      if !Clean(text) then h
      else if LineAligned(Content(card, file)) then
        h.(okay := h.okay + 1, stored := h.stored + [Item(file, |Content(card, file)|, text)])
      else h.(okay := h.okay + 1, glued := h.glued + 1)
  }

  function AppendLogged(h: History, card: Card, file: nat, text: string, io: AppendIo): History {
    if file in card || io.header.Done? then LineLogged(h, WithHeader(card, file, io.header), file, text, io.line)
    else if io.header.Torn? then h.(torn := h.torn + 1)
    else h
  }

  function AppendStep(w: World, date: string, record: string, io: AppendIo): World {
    if !w.fs.mounted || !Writable(date, record) then w
    else
      w.(fs := Appended(w.fs, date, record, io).0,
         h := AppendLogged(w.h, w.fs.card, ComDate.Key(date), TextOf(record), io))
  }

  /** The drain loop's reaction to what a read returned. */
  function Reacted(w: World, r: Reading): World {
    w.(fs := r.fs,
       phase := match r.status case E_OK => Holding(r.text) case E_CRC_FAIL => Broken case _ => Idle)
  }

  ghost function ReadStep(w: World, io: ReadIo): World {
    Reacted(w, Read(w.fs, DRAIN_BUFFER_SIZE, io))
  }

  ghost function Sent(h: History, c: Cursor, text: string): History {
    var h1 := h.(accepted := h.accepted + [Item(c.file, c.offset, text)]);
    if k: nat :| IsAt(h.stored, k, c) then
      h1.(at := h.at + [|h.accepted|], sent := h.sent + [k], resumed := false)
    else h1
  }

  function ResetStep(w: World, mountOk: bool, readOk: bool): World {
    w.(fs := Booted(w.fs, mountOk, readOk).0, phase := Idle, h := w.h.(resets := w.h.resets + 1, resumed := true))
  }

  /** The order in which the drain loop makes its calls; the other events may come at any time. */
  ghost predicate Legal(w: World, e: Event) {
    match e
    case ReadEvent(_) => w.phase.Idle?
    case PublishEvent(_) => w.phase.Holding? && w.fs.cursor.Some?
    case AdvanceEvent(_) => w.phase.Accepted? && WellFormed(w.fs)
    case SkipEvent(_) => w.phase.Broken? && WellFormed(w.fs)
    case _ => true
  }

  ghost function Step(w: World, e: Event): World
    requires Legal(w, e)
  {
    match e
    case AppendEvent(date, record, io) => AppendStep(w, date, record, io)
    case ReadEvent(io) => ReadStep(w, io)
    case PublishEvent(accepted) =>
      if accepted then w.(phase := Accepted, h := Sent(w.h, w.fs.cursor.value, w.phase.text)) else w.(phase := Idle)
    case AdvanceEvent(ok) => w.(fs := Advanced(w.fs, ok).0, phase := Idle)
    case SkipEvent(ok) => w.(fs := Advanced(w.fs, ok).0, phase := Idle)
    case HousekeepEvent(io) => w.(fs := Housekept(w.fs, io))
    case ResetEvent(mountOk, readOk) => ResetStep(w, mountOk, readOk)
  }

  /**
   * What the environment owes: a record is not dated before the file being transferred, housekeeping does not remove
   * the file the stored cursor names, and a reset finds a cursor when there has been one.
   */
  ghost predicate Fair(w: World, e: Event) {
    match e
    case AppendEvent(date, record, io) =>
      w.fs.mounted && Writable(date, record) && w.fs.cursor.Some? ==> ComDate.Key(date) >= w.fs.cursor.value.file
    case HousekeepEvent(io) =>
      Reclaimed(w.fs, io).Some? && w.fs.cursor.Some? && w.fs.fee.Some? ==>
        Reclaimed(w.fs, io).value != w.fs.fee.value.file
    case ResetEvent(mountOk, readOk) =>
      w.fs.cursor.Some? || w.fs.fee.Some? ==> w.fs.fee.Some? && (mountOk ==> readOk)
    case _ => true
  }

  // ---------------------------------------------------------------------------------------------
  // The invariant
  // ---------------------------------------------------------------------------------------------

  /** The record's line is on the card, at the start of a line. */
  predicate OnCard(card: Card, i: Item)
    requires i.file in card
  {
    var s := card[i.file];
    i.End() <= |s| && s[i.offset..i.End()] == LineOf(i.text) && (i.offset > 0 ==> s[i.offset - 1] == NEWLINE)
  }

  /** No two stored lines overlap. */
  ghost predicate Apart(stored: seq<Item>) {
    forall j, k :: 0 <= j < k < |stored| ==> stored[j].Precedes(stored[k]) || stored[k].Precedes(stored[j])
  }

  ghost predicate ItemsOk(w: World) {
    Apart(w.h.stored) && forall k :: 0 <= k < |w.h.stored| ==> ItemOk(w.fs, w.h.stored[k])
  }

  predicate ItemOk(fs: Fs, i: Item) {
    Clean(i.text) && (i.file in fs.card ==> OnCard(fs.card, i)) && (i.file !in fs.card ==> Left(fs, i.file))
  }

  /** The file lies before every cursor, of which there is one. */
  predicate Left(fs: Fs, file: nat) {
    && (fs.cursor.Some? || fs.fee.Some?)
    && (fs.cursor.Some? ==> file < fs.cursor.value.file) && (fs.fee.Some? ==> file < fs.fee.value.file)
  }

  /** A cursor is inside its file, not inside a stored line, and not past a record that has not been accepted. */
  ghost predicate Positioned(w: World, c: Cursor) {
    && c.file in w.fs.card && c.offset <= |w.fs.card[c.file]|
    && (forall k :: 0 <= k < |w.h.stored| ==> Clear(w.h.stored[k], c))
    && (forall k :: 0 <= k < |w.h.stored| && w.h.stored[k].Before(c) ==> w.h.stored[k] in w.h.accepted)
  }

  predicate Clear(i: Item, c: Cursor) {
    i.file == c.file ==> i.offset >= c.offset || i.End() <= c.offset
  }

  predicate NotAhead(a: Cursor, b: Cursor) {
    a.file < b.file || (a.file == b.file && a.offset <= b.offset)
  }

  ghost predicate CursorsOk(w: World) {
    && (w.fs.cursor.Some? ==> Positioned(w, w.fs.cursor.value))
    && (w.fs.fee.Some? ==> Positioned(w, w.fs.fee.value))
    && (w.fs.fee.Some? && w.fs.cursor.Some? ==> NotAhead(w.fs.fee.value, w.fs.cursor.value))
    && (w.fs.fee.Some? && w.fs.mounted ==> w.fs.cursor.Some?)
    && (w.h.stored != [] ==> w.fs.cursor.Some? || w.fs.fee.Some?)
  }

  /** The span to be passed next ends where a line does: at a stored record exactly, or before the next one. */
  ghost predicate SpanOk(w: World) {
    w.fs.pending > 0 ==>
      && w.fs.cursor.Some?
      && var c := w.fs.cursor.value;
      && c.file in w.fs.card && c.offset + w.fs.pending <= |w.fs.card[c.file]|
      && forall k :: 0 <= k < |w.h.stored| ==> Spanned(w.h.stored[k], c, w.fs.pending)
  }

  predicate Spanned(i: Item, c: Cursor, span: nat) {
    i.file == c.file ==>
      i.End() <= c.offset || i.offset >= c.offset + span || (i.offset == c.offset && i.End() == c.offset + span)
  }

  ghost predicate PhaseOk(w: World) {
    && (!w.phase.Idle? ==> w.fs.pending > 0)
    && (w.fs.cursor.Some? ==> forall k: nat :: IsAt(w.h.stored, k, w.fs.cursor.value) ==>
          && !w.phase.Broken?
          && (w.phase.Holding? ==> w.h.stored[k].text == w.phase.text)
          && (w.phase.Accepted? ==> w.h.stored[k] in w.h.accepted))
  }

  ghost predicate Inv(w: World) {
    ItemsOk(w) && CursorsOk(w) && SpanOk(w) && PhaseOk(w)
  }

  // ---------------------------------------------------------------------------------------------
  // Lines and cursors
  // ---------------------------------------------------------------------------------------------

  lemma NewlineInTake(s: string, n: nat)
    requires n < |s| && s[n] == NEWLINE
    ensures FirstNewline(s) <= n
  {
    forall i | 0 <= i < FirstNewline(s)
      ensures s[i] != NEWLINE
    {
      assert s[..FirstNewline(s)][i] == s[i];
    }
  }

  /** A read that starts before the start of a line does not look past that start. */
  lemma StopsAtLine(content: string, from: nat, start: nat, size: nat)
    requires from < start <= |content| && content[start - 1] == NEWLINE && 0 < size
    ensures from + Min(FirstNewline(Chunk(content, from, size)) + 1, |Chunk(content, from, size)|) <= start
  {
    var chunk := Chunk(content, from, size);
    if start - from <= |chunk| {
      assert chunk[start - 1 - from] == NEWLINE;
      NewlineInTake(chunk, start - 1 - from);
    }
  }

  /** The chunk at a stored line starts with that line. */
  lemma ChunkAtItem(card: Card, i: Item, size: nat)
    requires i.file in card && OnCard(card, i) && |i.text| + CRC_FIELD_CHARS + 2 <= size
    ensures var chunk := Chunk(card[i.file], i.offset, size);
            |LineOf(i.text)| <= |chunk| && chunk == LineOf(i.text) + chunk[|LineOf(i.text)|..]
  {
    hide LineOf;
    var s, n := card[i.file], |LineOf(i.text)|;
    var chunk := Chunk(s, i.offset, size);
    assert chunk[..n] == s[i.offset..i.End()];
    assert chunk == chunk[..n] + chunk[n..];
  }

  lemma JudgeAtItem(card: Card, i: Item)
    requires i.file in card && OnCard(card, i) && Clean(i.text)
    ensures Judge(Chunk(card[i.file], i.offset, READ_SIZE)) == Good(i.text, |i.text| + CRC_FIELD_CHARS + 2)
  {
    hide LineOf, Judge, Chunk;
    ChunkAtItem(card, i, READ_SIZE);
    LineRoundTrip(i.text, Chunk(card[i.file], i.offset, READ_SIZE)[|LineOf(i.text)|..]);
  }

  /** A stored line at the start of a file is not mistaken for a header. */
  lemma NoHeaderAtItem(card: Card, i: Item)
    requires i.file in card && OnCard(card, i) && Clean(i.text) && i.offset == 0
    ensures HeaderEnd(Chunk(card[i.file], 0, PEEK_SIZE)) == 0
  {
    hide Chunk, Crc32, Hex;
    ChunkAtItem(card, i, PEEK_SIZE);
    var peek := Chunk(card[i.file], 0, PEEK_SIZE);
    var rest := peek[|LineOf(i.text)|..];
    var body := i.text + [CRC_SEPARATOR] + Hex(Crc32(i.text), CRC_FIELD_CHARS);
    HexCharacters(Crc32(i.text), CRC_FIELD_CHARS);
    assert peek == body + [NEWLINE] + rest;
    FirstNewlineAt(body, rest);
    assert peek[..|body|][|i.text|] == CRC_SEPARATOR;
  }

  /** Skipping a header keeps the cursor in its file and does not jump over a stored line. */
  lemma HeaderSkipIsClear(w: World, c: Cursor, k: nat, peekOk: bool)
    requires ItemsOk(w) && c.file in w.fs.card && c.offset <= |w.fs.card[c.file]| && k < |w.h.stored|
    requires w.h.stored[k].file == c.file
    ensures var d := HeaderSkipped(w.fs.card, c, peekOk);
            d == c || w.h.stored[k].offset >= d.offset
  {
    hide Chunk, LineOf, FirstNewline;
    var i := w.h.stored[k];
    var s := w.fs.card[c.file];
    assert OnCard(w.fs.card, i) && Clean(i.text);
    if c.offset == 0 {
      if i.offset == 0 {
        NoHeaderAtItem(w.fs.card, i);
      } else {
        StopsAtLine(s, 0, i.offset, PEEK_SIZE);
      }
    }
  }

  lemma HeaderSkipInFile(card: Card, c: Cursor, peekOk: bool)
    requires c.file in card && c.offset <= |card[c.file]|
    ensures var d := HeaderSkipped(card, c, peekOk);
            d.file == c.file && c.offset <= d.offset <= |card[c.file]|
  {
    hide FirstNewline, HeaderEnd;
  }

  /** What the judged span at a cursor covers, seen from a stored line. */
  lemma JudgedSpan(w: World, c: Cursor, k: nat)
    requires ItemsOk(w) && c.file in w.fs.card && k < |w.h.stored| && w.h.stored[k].file == c.file
    requires Clear(w.h.stored[k], c)
    requires Chunk(w.fs.card[c.file], c.offset, READ_SIZE) != ""
    ensures var v := Judge(Chunk(w.fs.card[c.file], c.offset, READ_SIZE)); var i := w.h.stored[k];
            Spanned(i, c, v.span) && (i.offset == c.offset ==> v == Good(i.text, i.End() - i.offset))
  {
    hide Chunk, LineOf, Judge, FirstNewline;
    var i := w.h.stored[k];
    var s := w.fs.card[c.file];
    assert OnCard(w.fs.card, i) && Clean(i.text);
    JudgeSpan(Chunk(s, c.offset, READ_SIZE));
    if i.offset == c.offset {
      JudgeAtItem(w.fs.card, i);
    } else if i.offset > c.offset {
      StopsAtLine(s, c.offset, i.offset, READ_SIZE);
    }
  }

  // ---------------------------------------------------------------------------------------------
  // Every step keeps the invariant
  // ---------------------------------------------------------------------------------------------

  lemma LeftStays(fs: Fs, gs: Fs, file: nat)
    requires Left(fs, file) && (gs.cursor.Some? || gs.fee.Some?)
    requires gs.cursor.Some? ==> (fs.cursor.Some? && NotAhead(fs.cursor.value, gs.cursor.value)) ||
                                 (fs.fee.Some? && NotAhead(fs.fee.value, gs.cursor.value))
    requires gs.fee.Some? ==> (fs.cursor.Some? && NotAhead(fs.cursor.value, gs.fee.value)) ||
                              (fs.fee.Some? && NotAhead(fs.fee.value, gs.fee.value))
    ensures Left(gs, file)
  {}

  /** Moving the cursor in memory forward, and perhaps storing it. */
  lemma CursorMoved(w: World, c: Cursor, stored: bool, pending: nat, phase: Phase)
    requires Inv(w) && w.fs.cursor.Some? && Positioned(w, c) && NotAhead(w.fs.cursor.value, c)
    ensures var v := w.(fs := Stored(w.fs.(cursor := Some(c), pending := pending), stored), phase := phase);
            ItemsOk(v) && CursorsOk(v)
  {
    hide OnCard, Clean, Clear, SpanOk, PhaseOk, Left;
    var v := w.(fs := Stored(w.fs.(cursor := Some(c), pending := pending), stored), phase := phase);
    forall k | 0 <= k < |v.h.stored|
      ensures ItemOk(v.fs, v.h.stored[k])
    {
      assert ItemOk(w.fs, w.h.stored[k]);
      if w.h.stored[k].file !in w.fs.card { LeftStays(w.fs, v.fs, w.h.stored[k].file); }
    }
  }

  /** Passing the span of an accepted or damaged line goes past nothing else. */
  lemma AdvancePasses(w: World, k: nat)
    requires Inv(w) && (w.phase.Accepted? || w.phase.Broken?) && k < |w.h.stored|
    ensures var c := w.fs.cursor.value; var d := c.(offset := c.offset + w.fs.pending); var i := w.h.stored[k];
            Clear(i, d) && (i.Before(d) ==> i.Before(c) || (w.phase.Accepted? && IsAt(w.h.stored, k, c)))
  {
    hide OnCard, Clean, ItemsOk, Positioned;
    assert Spanned(w.h.stored[k], w.fs.cursor.value, w.fs.pending);
  }

  /** Passing the span leaves the cursor between lines, with nothing unsent behind it. */
  lemma AdvanceLands(w: World)
    requires Inv(w) && (w.phase.Accepted? || w.phase.Broken?)
    ensures var c := w.fs.cursor.value; Positioned(w, c.(offset := c.offset + w.fs.pending))
  {
    hide OnCard, Clean, ItemsOk, Spanned;
    var c := w.fs.cursor.value;
    var d := c.(offset := c.offset + w.fs.pending);
    forall k | 0 <= k < |w.h.stored|
      ensures Clear(w.h.stored[k], d) && (w.h.stored[k].Before(d) ==> w.h.stored[k] in w.h.accepted)
    {
      AdvancePasses(w, k);
    }
  }

  lemma AdvanceKeepsInv(w: World, ok: bool)
    requires Inv(w) && (w.phase.Accepted? || w.phase.Broken?)
    ensures Inv(w.(fs := Advanced(w.fs, ok).0, phase := Idle))
  {
    hide Positioned, ItemsOk;
    var c := w.fs.cursor.value;
    AdvanceLands(w);
    CursorMoved(w, c.(offset := c.offset + w.fs.pending), ok, 0, Idle);
  }

  /** An accepted publish carries the stored record at the cursor, when there is one. */
  lemma PublishKeepsInv(w: World)
    requires Inv(w) && w.phase.Holding?
    ensures Inv(w.(phase := Accepted, h := Sent(w.h, w.fs.cursor.value, w.phase.text)))
  {
    hide OnCard, Clean, Clear, Spanned, Apart;
    var c := w.fs.cursor.value;
    var v := w.(phase := Accepted, h := Sent(w.h, c, w.phase.text));
    forall k: nat | IsAt(w.h.stored, k, c)
      ensures w.h.stored[k] in v.h.accepted
    {
      assert w.h.stored[k] == Item(c.file, c.offset, w.phase.text);
    }
    assert forall i :: i in w.h.accepted ==> i in v.h.accepted;
  }

  lemma ResetKeepsInv(w: World, mountOk: bool, readOk: bool)
    requires Inv(w) && Fair(w, ResetEvent(mountOk, readOk))
    ensures Inv(ResetStep(w, mountOk, readOk))
  {
    hide OnCard, Clean, Clear, Spanned, Left;
    var v := ResetStep(w, mountOk, readOk);
    forall k | 0 <= k < |w.h.stored|
      ensures ItemOk(v.fs, w.h.stored[k])
    {
      assert ItemOk(w.fs, w.h.stored[k]);
      if w.h.stored[k].file !in w.fs.card { LeftStays(w.fs, v.fs, w.h.stored[k].file); }
    }
  }

  /** A file that housekeeping removes lies behind both cursors. */
  lemma ReclaimedIsBehind(w: World, io: SpaceIo)
    requires Inv(w) && Fair(w, HousekeepEvent(io)) && Reclaimed(w.fs, io).Some?
    ensures w.h.stored == [] || Left(w.fs, Reclaimed(w.fs, io).value)
    ensures w.fs.cursor.Some? ==> Left(w.fs, Reclaimed(w.fs, io).value)
  {
    hide OnCard, Clean, Clear, Spanned, ItemsOk;
    var f := Reclaimed(w.fs, io).value;
    assert IsNext(w.fs.card, -1, f);
  }

  lemma HousekeepKeepsInv(w: World, io: SpaceIo)
    requires Inv(w) && Fair(w, HousekeepEvent(io))
    ensures Inv(w.(fs := Housekept(w.fs, io)))
  {
    hide OnCard, Clean, Clear, Spanned, Reclaimed, NextLog, ItemsOk;
    if Reclaimed(w.fs, io).Some? {
      ReclaimedIsBehind(w, io);
      ReclaimIsMounted(w.fs, io);
      RemovalKeepsItems(w, Reclaimed(w.fs, io).value);
    }
  }

  lemma ReclaimIsMounted(fs: Fs, io: SpaceIo)
    requires Reclaimed(fs, io).Some?
    ensures fs.mounted
  {}

  lemma RemovalKeepsItems(w: World, f: nat)
    requires ItemsOk(w) && (w.h.stored == [] || Left(w.fs, f))
    ensures ItemsOk(w.(fs := w.fs.(card := w.fs.card - {f})))
  {
    hide LineOf, Clean;
    var v := w.(fs := w.fs.(card := w.fs.card - {f}));
    forall k | 0 <= k < |w.h.stored|
      ensures ItemOk(v.fs, w.h.stored[k])
    {
      assert ItemOk(w.fs, w.h.stored[k]);
    }
  }

  // Reading.

  lemma HeaderSkipKeepsPosition(w: World, c: Cursor, peekOk: bool)
    requires ItemsOk(w) && Positioned(w, c)
    ensures var d := HeaderSkipped(w.fs.card, c, peekOk); Positioned(w, d) && NotAhead(c, d)
  {
    hide HeaderSkipped, OnCard, Clean, ItemsOk;
    var d := HeaderSkipped(w.fs.card, c, peekOk);
    HeaderSkipInFile(w.fs.card, c, peekOk);
    forall k | 0 <= k < |w.h.stored| && w.h.stored[k].file == c.file
      ensures Clear(w.h.stored[k], d) && (w.h.stored[k].Before(d) ==> w.h.stored[k].Before(c))
    {
      HeaderSkipIsClear(w, c, k, peekOk);
      assert Clear(w.h.stored[k], c);
    }
  }

  /** At the end of its file every record of that file lies behind the cursor, so crossing passes none. */
  lemma CrossingPasses(w: World, c: Cursor, next: nat, k: nat)
    requires ItemsOk(w) && w.fs.cursor == Some(c) && c.file in w.fs.card
    requires c.offset == |w.fs.card[c.file]| && IsNext(w.fs.card, c.file, next) && k < |w.h.stored|
    ensures w.h.stored[k].Before(Cursor(next, 0)) ==> w.h.stored[k].Before(c)
  {
    hide LineOf, Clean, Apart;
    assert ItemOk(w.fs, w.h.stored[k]);
  }

  lemma CrossingKeepsPosition(w: World, c: Cursor, next: nat)
    requires ItemsOk(w) && Positioned(w, c) && w.fs.cursor == Some(c)
    requires c.offset == |w.fs.card[c.file]| && IsNext(w.fs.card, c.file, next)
    ensures Positioned(w, Cursor(next, 0))
  {
    hide ItemsOk;
    forall k | 0 <= k < |w.h.stored| && w.h.stored[k].Before(Cursor(next, 0))
      ensures w.h.stored[k] in w.h.accepted
    {
      CrossingPasses(w, c, next, k);
    }
  }

  lemma CrossedKeepsInv(w: World, c: Cursor, io: ReadIo)
    requires Inv(w) && w.fs.cursor == Some(c) && w.fs.pending == 0 && w.phase.Idle?
    requires c.offset == |w.fs.card[c.file]|
    ensures Inv(Reacted(w, Crossed(w.fs, c, io)))
  {
    hide OnCard, Clean, Clear, ItemsOk, Positioned, NextLog;
    var next := NextLog(w.fs.card, c.file);
    if next.Some? && io.findOk {
      CrossingKeepsPosition(w, c, next.value);
      CursorMoved(w, Cursor(next.value, 0), io.stored, 0, Idle);
    }
  }

  lemma TakenKeepsInv(w: World, c: Cursor)
    requires Inv(w) && w.fs.cursor == Some(c) && w.fs.pending == 0 && w.phase.Idle?
    requires Chunk(w.fs.card[c.file], c.offset, READ_SIZE) != ""
    ensures var r := Taken(w.fs, Judge(Chunk(w.fs.card[c.file], c.offset, READ_SIZE)), DRAIN_BUFFER_SIZE);
            Inv(Reacted(w, r))
  {
    hide OnCard, Clean, ItemsOk, Judge, Clear;
    var chunk := Chunk(w.fs.card[c.file], c.offset, READ_SIZE);
    JudgeSpan(chunk);
    var r := Taken(w.fs, Judge(chunk), DRAIN_BUFFER_SIZE);
    var v := Reacted(w, r);
    forall k | 0 <= k < |w.h.stored| && w.h.stored[k].file == c.file
      ensures var i := w.h.stored[k];
              Spanned(i, c, Judge(chunk).span) &&
              (i.offset == c.offset ==> Judge(chunk) == Good(i.text, i.End() - i.offset))
    {
      JudgedSpan(w, c, k);
    }
    assert ItemsOk(v) by { SameItems(w, v); }
  }

  lemma SameItems(w: World, v: World)
    requires ItemsOk(w) && v.h == w.h && v.fs.card == w.fs.card && v.fs.fee == w.fs.fee && v.fs.cursor == w.fs.cursor
    ensures ItemsOk(v)
  {
    hide OnCard, Clean;
    assert forall k :: 0 <= k < |w.h.stored| ==> ItemOk(w.fs, w.h.stored[k]) ==> ItemOk(v.fs, w.h.stored[k]);
  }

  /** The part of a read after the header has been dealt with. */
  lemma ReadFromKeepsInv(w: World, c: Cursor, io: ReadIo)
    requires Inv(w) && w.fs.cursor == Some(c) && w.fs.pending == 0 && w.phase.Idle?
    ensures Inv(Reacted(w, ReadFrom(w.fs, c, DRAIN_BUFFER_SIZE, io)))
  {
    hide ItemsOk, Judge, NextLog, Crossed, Taken, Clear, Spanned;
    var data := ReadFile(w.fs.card, c.file, c.offset, READ_SIZE, io.readOk);
    if data.Some? {
      if data.value == "" { CrossedKeepsInv(w, c, io); } else { TakenKeepsInv(w, c); }
    }
  }

  lemma ReadKeepsInv(w: World, io: ReadIo)
    requires Inv(w) && w.phase.Idle?
    ensures Inv(ReadStep(w, io))
  {
    hide OnCard, Clean, Judge, Clear, NextLog, HeaderSkipped, ReadFrom;
    var w0 := w.(fs := w.fs.(pending := 0));
    assert ItemsOk(w0) by { SameItems(w, w0); }
    if w.fs.mounted && w.fs.cursor.Some? {
      var c := HeaderSkipped(w.fs.card, w.fs.cursor.value, io.peekOk);
      var w1 := w0.(fs := w0.fs.(cursor := Some(c)));
      HeaderSkipKeepsPosition(w, w.fs.cursor.value, io.peekOk);
      CursorMoved(w, c, false, 0, Idle);
      ReadFromKeepsInv(w1, c, io);
    }
  }

  // Appending.

  /** The card after more bytes have reached one file. */
  function Grown(card: Card, file: nat, data: string): Card {
    card[file := Content(card, file) + data]
  }

  lemma GrowthKeepsItem(card: Card, file: nat, data: string, i: Item)
    requires i.file in card && OnCard(card, i)
    ensures OnCard(Grown(card, file, data), i)
  {
    hide LineOf;
    if i.file == file {
      assert (card[file] + data)[i.offset..i.End()] == card[file][i.offset..i.End()];
    }
  }

  /** A file that a record may be appended to: none of those left behind. */
  predicate Reached(w: World, file: nat) {
    (w.fs.cursor.Some? || w.h.stored == []) && (w.fs.cursor.Some? ==> file >= w.fs.cursor.value.file)
  }

  lemma GrowthKeepsItems(w: World, file: nat, data: string)
    requires Inv(w) && Reached(w, file)
    ensures forall k :: 0 <= k < |w.h.stored| ==> ItemOk(w.fs.(card := Grown(w.fs.card, file, data)), w.h.stored[k])
  {
    hide OnCard, Clean, Clear, Spanned, Apart;
    forall k | 0 <= k < |w.h.stored|
      ensures ItemOk(w.fs.(card := Grown(w.fs.card, file, data)), w.h.stored[k])
    {
      assert ItemOk(w.fs, w.h.stored[k]);
      if w.h.stored[k].file in w.fs.card { GrowthKeepsItem(w.fs.card, file, data, w.h.stored[k]); }
    }
  }

  /** Bytes that are not a new record. */
  lemma GrowthKeepsInv(w: World, file: nat, data: string)
    requires Inv(w) && Reached(w, file)
    ensures Inv(w.(fs := w.fs.(card := Grown(w.fs.card, file, data))))
  {
    hide OnCard, Clean, Clear, Spanned, Apart, Reached;
    GrowthKeepsItems(w, file, data);
  }

  /** A new record at the end of a line-aligned file. */
  lemma NewItemIsOnCard(card: Card, file: nat, text: string)
    requires LineAligned(Content(card, file))
    ensures OnCard(Grown(card, file, LineOf(text)), Item(file, |Content(card, file)|, text))
  {
    hide Crc32, Hex;
    var before := Content(card, file);
    assert (before + LineOf(text))[|before|..] == LineOf(text);
  }

  /**
   * A clean text appended at the start of a line reads back identically from its place, with a span that covers its
   * line exactly, whatever is appended after it.
   */
  lemma AppendReadsBack(fs: Fs, date: string, text: string, io: AppendIo, later: string)
    requires fs.mounted && ComDate.ValidStamp(date) && Clean(text) && io.line.Done?
    requires var file := ComDate.Key(date);
             if file in fs.card then LineAligned(fs.card[file]) else io.header.Done?
    ensures var file := ComDate.Key(date); var base := WithHeader(fs.card, file, io.header);
            var after := Appended(fs, date, text, io);
            && after.1 == E_OK && file in base && file in after.0.card
            && Judge(Chunk(after.0.card[file] + later, |base[file]|, READ_SIZE)) == Good(text, |LineOf(text)|)
  {
    hide LineOf, Judge, HeaderLine, ComDate.Key;
    var file := ComDate.Key(date);
    var base := WithHeader(fs.card, file, io.header);
    HeaderLineIsPlain();
    assert "" + HeaderLine() == HeaderLine();
    var i := Item(file, |base[file]|, text);
    assert TextOf(text) == text;
    var card := Grown(base, file, LineOf(text));
    NewItemIsOnCard(base, file, text);
    GrowthKeepsItem(card, file, later, i);
    JudgeAtItem(Grown(card, file, later), i);
  }

  function Recorded(w: World, file: nat, text: string): World {
    w.(fs := w.fs.(card := Grown(w.fs.card, file, LineOf(text))),
       h := w.h.(stored := w.h.stored + [Item(file, |Content(w.fs.card, file)|, text)]))
  }

  /** A new record lies after every stored line of its file. */
  lemma RecordIsApart(w: World, file: nat, text: string, k: nat)
    requires Inv(w) && Reached(w, file) && k < |w.h.stored|
    ensures var i := Item(file, |Content(w.fs.card, file)|, text); var s := w.h.stored[k];
            if s.file == file then s.Precedes(i) else s.Precedes(i) || i.Precedes(s)
  {
    hide Clean, LineOf, Clear, Spanned, Apart;
    assert ItemOk(w.fs, w.h.stored[k]);
  }

  lemma RecordedItems(w: World, file: nat, text: string)
    requires Inv(w) && Reached(w, file) && Clean(text) && LineAligned(Content(w.fs.card, file))
    ensures ItemsOk(Recorded(w, file, text))
  {
    hide Clean, LineOf, Clear, Spanned, LineAligned, OnCard, Left;
    var v := Recorded(w, file, text);
    GrowthKeepsItems(w, file, LineOf(text));
    NewItemIsOnCard(w.fs.card, file, text);
    forall k | 0 <= k < |w.h.stored|
      ensures w.h.stored[k].Precedes(v.h.stored[|w.h.stored|]) || v.h.stored[|w.h.stored|].Precedes(w.h.stored[k])
    {
      RecordIsApart(w, file, text, k);
    }
  }

  lemma RecordedKeepsInv(w: World, file: nat, text: string)
    requires Inv(w) && Reached(w, file) && w.fs.cursor.Some?
    requires Clean(text) && LineAligned(Content(w.fs.card, file))
    ensures Inv(Recorded(w, file, text))
  {
    hide Clean, LineOf, ItemsOk, LineAligned;
    RecordedItems(w, file, text);
  }

  /** The first record's append sets the cursor to the start of its file, and perhaps stores it. */
  function Established(w: World, file: nat, stored: bool): World {
    w.(fs := Stored(w.fs.(cursor := Some(Cursor(file, 0))), stored))
  }

  lemma EstablishKeepsInv(w: World, file: nat, stored: bool)
    requires Inv(w) && w.fs.mounted && w.fs.cursor.None? && file in w.fs.card
    ensures Inv(Established(w, file, stored)) && Reached(Established(w, file, stored), file)
  {
    hide OnCard, Clean, Spanned;
  }

  /** Inv does not depend on the failure count, the counters, or a card that is later reported unusable. */
  lemma InvIgnoresCounters(w: World, v: World)
    requires Inv(w) && v.phase == w.phase
    requires v.fs == w.fs.(mounted := v.fs.mounted, failures := v.fs.failures) && (v.fs.mounted ==> w.fs.mounted)
    requires v.h == w.h.(okay := v.h.okay, glued := v.h.glued, torn := v.h.torn)
    ensures Inv(v)
  {
    hide OnCard, Clean, Clear, Spanned;
    assert forall k :: 0 <= k < |w.h.stored| ==> ItemOk(w.fs, w.h.stored[k]) ==> ItemOk(v.fs, w.h.stored[k]);
  }

  lemma HeaderKeepsInv(w: World, file: nat, header: Write)
    requires Inv(w) && Reached(w, file)
    ensures Inv(w.(fs := w.fs.(card := WithHeader(w.fs.card, file, header))))
  {
    hide Inv, HeaderLine, Reached;
    if file !in w.fs.card && !header.NotOpened? {
      GrowthKeepsInv(w, file, Landed(HeaderLine(), header));
    }
  }

  /** The world after the line of an append, its header being dealt with. */
  function LineStep(w: World, file: nat, text: string, io: AppendIo): World {
    w.(fs := LineAppended(w.fs, file, text, io).0, h := LineLogged(w.h, w.fs.card, file, text, io.line))
  }

  lemma FailedLineKeepsInv(w: World, file: nat, text: string, io: AppendIo)
    requires Inv(w) && Reached(w, file) && !io.line.Done?
    ensures Inv(LineStep(w, file, text, io))
  {
    hide Inv, LineOf, Reached;
    if io.line.Torn? {
      var data := Landed(LineOf(text), io.line);
      GrowthKeepsInv(w, file, data);
      InvIgnoresCounters(w.(fs := w.fs.(card := Grown(w.fs.card, file, data))), LineStep(w, file, text, io));
    } else {
      InvIgnoresCounters(w, LineStep(w, file, text, io));
    }
  }

  /** A committed line as growth of the file, a new record when it is one. */
  function Committed(w: World, file: nat, text: string): World {
    if Clean(text) && LineAligned(Content(w.fs.card, file)) then Recorded(w, file, text)
    else w.(fs := w.fs.(card := Grown(w.fs.card, file, LineOf(text))))
  }

  lemma CommittedKeepsInv(w: World, file: nat, text: string)
    requires Inv(w) && Reached(w, file) && w.fs.cursor.Some?
    ensures Inv(Committed(w, file, text))
  {
    hide Clean, LineOf, LineAligned, Recorded;
    if Clean(text) && LineAligned(Content(w.fs.card, file)) {
      RecordedKeepsInv(w, file, text);
    } else {
      GrowthKeepsInv(w, file, LineOf(text));
    }
  }

  lemma DoneLineKeepsInv(w: World, file: nat, text: string, io: AppendIo)
    requires Inv(w) && Reached(w, file) && file in w.fs.card && io.line.Done? && w.fs.mounted
    ensures Inv(LineStep(w, file, text, io))
  {
    hide Inv, LineOf, Clean, LineAligned, Reached;
    var w1 := if w.fs.cursor.None? then Established(w, file, io.stored) else w;
    if w.fs.cursor.None? { EstablishKeepsInv(w, file, io.stored); }
    CommittedKeepsInv(w1, file, text);
    InvIgnoresCounters(Committed(w1, file, text), LineStep(w, file, text, io));
  }

  /** A fair append goes to a file the cursor has not left. */
  lemma AppendReaches(w: World, date: string, record: string, io: AppendIo)
    requires Inv(w) && Fair(w, AppendEvent(date, record, io)) && w.fs.mounted && Writable(date, record)
    ensures Reached(w, ComDate.Key(date))
  {
    hide ItemsOk, SpanOk, PhaseOk, Positioned;
  }

  lemma AppendKeepsInv(w: World, date: string, record: string, io: AppendIo)
    requires Inv(w) && Fair(w, AppendEvent(date, record, io))
    ensures Inv(AppendStep(w, date, record, io))
  {
    hide Inv, LineStep, LineAppended, LineLogged, HeaderLine, ComDate.Key, TextOf;
    if w.fs.mounted && Writable(date, record) {
      var file := ComDate.Key(date);
      AppendReaches(w, date, record, io);
      HeaderKeepsInv(w, file, io.header);
      var w1 := w.(fs := w.fs.(card := WithHeader(w.fs.card, file, io.header)));
      if file in w.fs.card || io.header.Done? {
        LineKeepsInv(w1, file, TextOf(record), io);
        LineStepIs(w1, file, TextOf(record), io);
        assert AppendStep(w, date, record, io) == LineStep(w1, file, TextOf(record), io);
      } else {
        InvIgnoresCounters(w1, AppendStep(w, date, record, io));
      }
    }
  }

  lemma LineStepIs(w: World, file: nat, text: string, io: AppendIo)
    ensures LineStep(w, file, text, io)
         == w.(fs := LineAppended(w.fs, file, text, io).0, h := LineLogged(w.h, w.fs.card, file, text, io.line))
  {}

  lemma LineKeepsInv(w: World, file: nat, text: string, io: AppendIo)
    requires Inv(w) && Reached(w, file) && file in w.fs.card && w.fs.mounted
    ensures Inv(LineStep(w, file, text, io))
  {
    hide Inv, LineStep, Reached;
    if io.line.Done? { DoneLineKeepsInv(w, file, text, io); } else { FailedLineKeepsInv(w, file, text, io); }
  }

  /** Every fair step of the protocol keeps the invariant. */
  lemma StepKeepsInv(w: World, e: Event)
    requires Inv(w) && Legal(w, e) && Fair(w, e)
    ensures Inv(Step(w, e))
  {
    hide Inv, AppendStep, ReadStep, Sent, ResetStep, Housekept, Advanced;
    match e
    case AppendEvent(date, record, io) => AppendKeepsInv(w, date, record, io);
    case ReadEvent(io) => ReadKeepsInv(w, io);
    case PublishEvent(accepted) =>
      if accepted { PublishKeepsInv(w); } else { RefusalKeepsInv(w); }
    case AdvanceEvent(ok) => AdvanceKeepsInv(w, ok);
    case SkipEvent(ok) => AdvanceKeepsInv(w, ok);
    case HousekeepEvent(io) => HousekeepKeepsInv(w, io);
    case ResetEvent(mountOk, readOk) => ResetKeepsInv(w, mountOk, readOk);
  }

  lemma RefusalKeepsInv(w: World)
    requires Inv(w)
    ensures Inv(w.(phase := Idle))
  {
    hide OnCard, Clean, Clear, Spanned;
    var v := w.(phase := Idle);
    assert forall k :: 0 <= k < |w.h.stored| ==> ItemOk(w.fs, w.h.stored[k]) ==> ItemOk(v.fs, w.h.stored[k]);
  }

  // ---------------------------------------------------------------------------------------------
  // Runs
  // ---------------------------------------------------------------------------------------------

  /** A unit that has never stored a cursor, with any card in it; its ragged files count as torn appends. */
  ghost function Fresh(card: Card): World {
    World(Fs(card, None, false, None, 0, 0), Idle, History([], [], [], [], 0, 0, |Ragged(card)|, 0, false))
  }

  /** The files a record cannot be appended to at the start of a line. */
  ghost function Ragged(card: Card): set<nat> {
    set f | f in card && !LineAligned(card[f])
  }

  /** The calls come in the order in which the drain can make them. */
  ghost predicate Possible(w: World, es: seq<Event>)
    decreases |es|
  {
    es == [] || (Legal(w, es[0]) && Possible(Step(w, es[0]), es[1..]))
  }

  /** Such a run in which the environment keeps what it owes. */
  ghost predicate Allowed(w: World, es: seq<Event>): (allowed: bool)
    ensures allowed ==> Possible(w, es)
    decreases |es|
  {
    es == [] || (Legal(w, es[0]) && Fair(w, es[0]) && Allowed(Step(w, es[0]), es[1..]))
  }

  ghost function Run(w: World, es: seq<Event>): World
    requires Possible(w, es)
    decreases |es|
  {
    if es == [] then w else Run(Step(w, es[0]), es[1..])
  }

  lemma {:induction false} RunKeepsInv(w: World, es: seq<Event>)
    requires Inv(w) && Allowed(w, es)
    ensures Inv(Run(w, es))
    decreases |es|
  {
    hide Inv, Step, Legal, Fair;
    if es != [] {
      StepKeepsInv(w, es[0]);
      RunKeepsInv(Step(w, es[0]), es[1..]);
    }
  }

  lemma FreshInv(card: Card)
    ensures Inv(Fresh(card))
  {}

  // ---------------------------------------------------------------------------------------------
  // Delivery
  // ---------------------------------------------------------------------------------------------

  /** A cursor has gone past the record, or its file has been reclaimed. */
  ghost predicate Passed(w: World, k: nat)
    requires k < |w.h.stored|
  {
    var i := w.h.stored[k];
    || i.file !in w.fs.card
    || (w.fs.cursor.Some? && i.Before(w.fs.cursor.value))
    || (w.fs.fee.Some? && i.Before(w.fs.fee.value))
  }

  /**
   * No gap, at least once: whatever the publishes, stores and resets did, every record that was stored at the
   * start of a line and that a cursor has passed, or whose file is gone, was accepted by a publish, unaltered.
   */
  lemma AtLeastOnce(card: Card, es: seq<Event>, k: nat)
    requires Allowed(Fresh(card), es)
    requires var w := Run(Fresh(card), es); k < |w.h.stored| && Passed(w, k)
    ensures var w := Run(Fresh(card), es); w.h.stored[k] in w.h.accepted
  {
    hide Inv, Run, Allowed, Passed, Fresh;
    FreshInv(card);
    RunKeepsInv(Fresh(card), es);
    PassedWasAccepted(Run(Fresh(card), es), k);
  }

  lemma PassedWasAccepted(w: World, k: nat)
    requires Inv(w) && k < |w.h.stored| && Passed(w, k)
    ensures w.h.stored[k] in w.h.accepted
  {
    hide OnCard, Clean, Clear, Apart, SpanOk, PhaseOk;
    assert ItemOk(w.fs, w.h.stored[k]);
  }

  // ---------------------------------------------------------------------------------------------
  // Reclaiming files
  // ---------------------------------------------------------------------------------------------

  /** In every fair run what housekeeping removes lies before both cursors and has been sent in full. */
  lemma ReclaimIsSafe(card: Card, es: seq<Event>, io: SpaceIo)
    requires Allowed(Fresh(card), es)
    requires var w := Run(Fresh(card), es); Fair(w, HousekeepEvent(io)) && Reclaimed(w.fs, io).Some?
    ensures var w := Run(Fresh(card), es); var f := Reclaimed(w.fs, io).value;
            && (w.fs.cursor.Some? ==> f < w.fs.cursor.value.file)
            && (w.fs.cursor.Some? && w.fs.fee.Some? ==> f < w.fs.fee.value.file)
            && (forall k :: 0 <= k < |w.h.stored| && w.h.stored[k].file == f ==> w.h.stored[k] in w.h.accepted)
  {
    hide Inv, Run, Allowed, Fair, Reclaimed, Fresh;
    var w := Run(Fresh(card), es);
    FreshInv(card);
    RunKeepsInv(Fresh(card), es);
    ReclaimedIsBehind(w, io);
    forall k | 0 <= k < |w.h.stored| && w.h.stored[k].file == Reclaimed(w.fs, io).value
      ensures w.h.stored[k] in w.h.accepted
    {
      PassedWasAccepted(w, k);
    }
  }

  /** In every fair run a valid cursor names a file on the card and lies within it. */
  lemma CursorNamesAFile(card: Card, es: seq<Event>)
    requires Allowed(Fresh(card), es)
    ensures var fs := Run(Fresh(card), es).fs;
            && (fs.cursor.Some? ==> var c := fs.cursor.value;
                  c.file in fs.card && c.offset + fs.pending <= |fs.card[c.file]|)
            && (fs.fee.Some? ==> fs.fee.value.file in fs.card && fs.fee.value.offset <= |fs.card[fs.fee.value.file]|)
  {
    hide ItemsOk, PhaseOk, Run, Allowed, Fresh, Spanned;
    FreshInv(card);
    RunKeepsInv(Fresh(card), es);
  }

  /** Housekeeping spares what lies after the cursor exactly when the card holds a file the cursor has reached. */
  lemma ReclaimIsBehindIff(fs: Fs, io: SpaceIo)
    requires Reclaimed(fs, io).Some? && fs.cursor.Some?
    ensures Reclaimed(fs, io).value < fs.cursor.value.file <==> exists g :: g in fs.card && g <= fs.cursor.value.file
  {
    var f := Reclaimed(fs, io).value;
    assert IsNext(fs.card, -1, f);
  }
}
