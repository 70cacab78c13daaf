/** Progress of the drain loop, and what it means that it has caught up. */
module Drain {
  import opened Base
  import opened FsFrame
  import opened FsAbs
  import opened StoreForward
  import opened TelemSwc

  predicate StrictlyAhead(c: Cursor, d: Cursor) {
    NotAhead(c, d) && c != d
  }

  /** Whatever the platform answers, a read that is then passed, and a crossing, move the cursor forward. */
  lemma StrictProgress(w: World, io: ReadIo, ok: bool)
    requires Inv(w) && w.phase.Idle? && w.fs.cursor.Some?
    ensures var r := Read(w.fs, 2304, io); var c := w.fs.cursor.value;
            && (r.status == E_OK || r.status == E_CRC_FAIL ==>
                  WellFormed(r.fs) && Advanced(r.fs, ok).0.cursor.Some? &&
                  StrictlyAhead(c, Advanced(r.fs, ok).0.cursor.value))
            && (r.status == E_PENDING ==> r.fs.cursor.Some? && StrictlyAhead(c, r.fs.cursor.value))
  {
    hide ItemsOk, PhaseOk, SpanOk, HeaderSkipped, FirstNewline, AfterLastSeparator, Judge, NextLog;
    var c := w.fs.cursor.value;
    HeaderSkipInFile(w.fs.card, c, io.peekOk);
    var d := HeaderSkipped(w.fs.card, c, io.peekOk);
    var chunk := Chunk(w.fs.card[c.file], d.offset, READ_SIZE);
    if chunk != "" { JudgeSpan(chunk); }
  }

  // ---------------------------------------------------------------------------------------------
  // The healthy platform
  // ---------------------------------------------------------------------------------------------

  ghost function FilesAfter(card: Card, file: nat): set<nat> {
    set f | f in card && f > file
  }

  ghost function FilesAhead(fs: Fs): set<nat>
    requires fs.cursor.Some?
  {
    FilesAfter(fs.card, fs.cursor.value.file)
  }

  ghost function BytesLeft(fs: Fs): int
    requires fs.cursor.Some? && fs.cursor.value.file in fs.card
  {
    |fs.card[fs.cursor.value.file]| - fs.cursor.value.offset
  }

  ghost predicate Ready(w: World) {
    Inv(w) && w.phase.Idle? && w.fs.mounted && w.fs.cursor.Some?
  }

  /** At the end of the newest file. */
  ghost predicate AtEnd(fs: Fs) {
    fs.cursor.Some? && fs.cursor.value.file in fs.card && BytesLeft(fs) == 0 && FilesAhead(fs) == {}
  }

  /** At a valid line that is too long for the drain's buffer. */
  ghost predicate AtOversized(fs: Fs) {
    fs.cursor.Some? && fs.cursor.value.file in fs.card &&
    var verdict := Judge(Chunk(fs.card[fs.cursor.value.file], fs.cursor.value.offset, READ_SIZE));
    verdict.Good? && |verdict.text| >= DRAIN_BUFFER_SIZE
  }

  /** What a read on a healthy platform can return, and why. */
  lemma HealthyRead(w: World)
    requires Ready(w)
    ensures var r := Read(w.fs, 2304, HEALTHY);
            && r.fs.card == w.fs.card && r.fs.mounted
            && r.fs.cursor.Some? && r.fs.cursor.value.file in w.fs.card
            && r.status in {E_OK, E_CRC_FAIL, E_PENDING, E_NOT_FOUND, E_NOT_OK}
            && (r.status == E_PENDING ==>
                  NextLog(w.fs.card, w.fs.cursor.value.file) == Some(r.fs.cursor.value.file) &&
                  r.fs.cursor.value.offset == 0)
            && (r.status != E_PENDING ==> FilesAhead(r.fs) == FilesAhead(w.fs) && BytesLeft(r.fs) <= BytesLeft(w.fs))
            && (r.status == E_OK || r.status == E_CRC_FAIL ==> 0 < r.fs.pending <= BytesLeft(r.fs))
            && (r.status == E_NOT_FOUND ==> AtEnd(r.fs))
            && (r.status == E_NOT_OK ==> AtOversized(r.fs))
  {
    hide ItemsOk, PhaseOk, SpanOk, HeaderSkipped, Judge, NextLog, FirstNewline;
    var c := w.fs.cursor.value;
    HeaderSkipInFile(w.fs.card, c, true);
    var d := HeaderSkipped(w.fs.card, c, true);
    var chunk := Chunk(w.fs.card[c.file], d.offset, READ_SIZE);
    if chunk != "" {
      JudgeSpan(chunk);
    } else {
      NothingAfter(w.fs.card, c.file);
    }
  }

  lemma NothingAfter(card: Card, file: nat)
    ensures NextLog(card, file).None? ==> FilesAfter(card, file) == {}
  {}

  /** When a read finds nothing more, everything stored has been sent. */
  lemma CaughtUp(w: World)
    requires Inv(w) && AtEnd(w.fs)
    ensures forall k :: 0 <= k < |w.h.stored| ==> w.h.stored[k] in w.h.accepted
  {
    hide Inv;
    forall k | 0 <= k < |w.h.stored|
      ensures w.h.stored[k] in w.h.accepted
    {
      EndPasses(w, k);
      PassedWasAccepted(w, k);
    }
  }

  lemma EndPasses(w: World, k: nat)
    requires Inv(w) && AtEnd(w.fs) && k < |w.h.stored|
    ensures Passed(w, k)
  {
    hide Clean, SpanOk, PhaseOk, CursorsOk, LineOf;
    var i := w.h.stored[k];
    assert ItemOk(w.fs, i);
    if i.file in w.fs.card {
      assert i.file !in FilesAhead(w.fs);
    }
  }

  // ---------------------------------------------------------------------------------------------
  // How much is left
  // ---------------------------------------------------------------------------------------------

  /** The bytes of some files, and one for each. */
  ghost function Sizes(card: Card, files: set<nat>): nat
    requires files <= card.Keys
  {
    if files == {} then 0 else var f :| f in files; |card[f]| + 1 + Sizes(card, files - {f})
  }

  lemma {:induction false} SizesWithout(card: Card, files: set<nat>, f: nat)
    requires files <= card.Keys && f in files
    ensures Sizes(card, files) == |card[f]| + 1 + Sizes(card, files - {f})
    decreases |files|
  {
    var g :| g in files && Sizes(card, files) == |card[g]| + 1 + Sizes(card, files - {g});
    if g != f {
      SizesWithout(card, files - {g}, f);
      SizesWithout(card, files - {f}, g);
      assert files - {g} - {f} == files - {f} - {g};
    }
  }

  /** What the drain has still to read: the rest of its file, and the later files with one for each crossing. */
  ghost function Work(fs: Fs): nat
    requires fs.cursor.Some? && fs.cursor.value.file in fs.card && BytesLeft(fs) >= 0
  {
    BytesLeft(fs) + Sizes(fs.card, FilesAhead(fs))
  }

  lemma CrossingWork(card: Card, file: nat, next: nat)
    requires NextLog(card, file) == Some(next)
    ensures next in card
    ensures Sizes(card, FilesAfter(card, file)) == |card[next]| + 1 + Sizes(card, FilesAfter(card, next))
  {
    assert IsNext(card, file, next);
    assert next in FilesAfter(card, file);
    assert FilesAfter(card, file) - {next} == FilesAfter(card, next);
    SizesWithout(card, FilesAfter(card, file), next);
  }

  // ---------------------------------------------------------------------------------------------
  // Cycles that all go well
  // ---------------------------------------------------------------------------------------------

  /** Reads, publishes and stores all succeed. */
  const WELL := Answer(HEALTHY, true, true)
  const ALL_WELL := [WELL, WELL, WELL, WELL, WELL]

  ghost predicate Stops(fs: Fs) {
    AtEnd(fs) || AtOversized(fs)
  }

  lemma InvBoundsCursor(w: World)
    requires Inv(w)
    ensures w.fs.cursor.Some? ==> w.fs.cursor.value.file in w.fs.card && BytesLeft(w.fs) >= 0
  {}

  /** One pass of the drain loop leaves it at a stop, or with less to do. */
  lemma PassProgress(w: World)
    requires Ready(w)
    ensures var phase := Step(w, ReadEvent(HEALTHY)).phase; var es := PassEvents(phase, WELL);
            && Allowed(w, es)
            && var v := Run(w, es);
            && Ready(v) && v.fs.card == w.fs.card && v.h.stored == w.h.stored
            && BytesLeft(w.fs) >= 0 && BytesLeft(v.fs) >= 0
            && ((PassOutcome(phase, WELL).Stopped? && Stops(v.fs)) || Work(v.fs) < Work(w.fs))
  {
    hide Inv, Read, Run, Allowed, AtEnd, AtOversized;
    HealthyRead(w);
    PassRuns(w, WELL);
    InvBoundsCursor(w);
    var r := Read(w.fs, DRAIN_BUFFER_SIZE, HEALTHY);
    InvBoundsCursor(Run(w, PassEvents(Step(w, ReadEvent(HEALTHY)).phase, WELL)));
    if r.status == E_PENDING {
      CrossingWork(w.fs.card, w.fs.cursor.value.file, r.fs.cursor.value.file);
    }
  }

  /** A cycle of DrainBacklog leaves it at a stop, or with less to do. */
  lemma {:induction false} CycleProgress(w: World, published: nat, skipped: nat)
    requires Ready(w)
    ensures var v := Cycle(w, ALL_WELL, published, skipped);
            && Ready(v) && v.fs.card == w.fs.card && v.h.stored == w.h.stored
            && BytesLeft(w.fs) >= 0 && BytesLeft(v.fs) >= 0
            && (Stops(v.fs) || Work(v.fs) <= Work(w.fs))
            && (published < BACKLOG_RECORDS_PER_CYCLE && skipped < MAX_SKIPS_PER_CYCLE ==>
                  Stops(v.fs) || Work(v.fs) < Work(w.fs))
    decreases BACKLOG_RECORDS_PER_CYCLE + MAX_SKIPS_PER_CYCLE - published - skipped
  {
    hide Inv, Step, Run, Allowed, PassEvents, PassOutcome, Stops, Work;
    InvBoundsCursor(w);
    if published < BACKLOG_RECORDS_PER_CYCLE && skipped < MAX_SKIPS_PER_CYCLE {
      PassProgress(w);
      var phase := Step(w, ReadEvent(HEALTHY)).phase;
      var v := Run(w, PassEvents(phase, WELL));
      match PassOutcome(phase, WELL)
      case Published => CycleProgress(v, published + 1, skipped);
      case Skipped => CycleProgress(v, published, skipped + 1);
      case Stopped =>
    }
  }

  /** Some number of cycles of DrainBacklog. */
  ghost function Cycles(w: World, n: nat): World
    requires Ready(w)
    decreases n
  {
    if n == 0 then w
    else
      CycleProgress(w, 0, 0);
      Cycles(Cycle(w, ALL_WELL, 0, 0), n - 1)
  }

  /**
   * With a healthy platform and a broker that accepts, the drain loop ends within as many cycles as there are bytes
   * and files left: every stored record has then been accepted, or it stands at a valid line of 2304 or more
   * characters.
   */
  lemma {:induction false} DrainCompletes(w: World) returns (n: nat)
    requires Ready(w)
    ensures var v := Cycles(w, n);
            && Inv(v) && v.fs.card == w.fs.card && v.h.stored == w.h.stored
            && BytesLeft(w.fs) >= 0 && n <= Work(w.fs) + 1
            && (AtOversized(v.fs) ||
                (AtEnd(v.fs) && forall k :: 0 <= k < |v.h.stored| ==> v.h.stored[k] in v.h.accepted))
    decreases (InvBoundsCursor(w); Work(w.fs))
  {
    hide Inv, Cycle, AtEnd, AtOversized, Work;
    InvBoundsCursor(w);
    CycleProgress(w, 0, 0);
    var v := Cycle(w, ALL_WELL, 0, 0);
    if Stops(v.fs) {
      n := 1;
      assert Cycles(v, 0) == v;
      if AtEnd(v.fs) { CaughtUp(v); }
    } else {
      var m := DrainCompletes(v);
      n := m + 1;
    }
  }

  // ---------------------------------------------------------------------------------------------
  // The longest records
  // ---------------------------------------------------------------------------------------------

  /** Of the texts the writer accepts, the reader recovers exactly those whose line one read can hold. */
  lemma ReadableIff(text: string, rest: string)
    requires NEWLINE !in text && |text| <= MAX_WRITABLE
    ensures Judge(Chunk(LineOf(text) + rest, 0, 2315)) == Good(text, |LineOf(text)|) <==> |text| <= 2305
  {
    hide LineOf, Judge, Chunk;
    var card := map[0 := LineOf(text) + rest];
    if |text| <= MAX_READABLE {
      assert card[0][0..|LineOf(text)|] == LineOf(text);
      JudgeAtItem(card, Item(0, 0, text));
    } else {
      ChunkIsShort(LineOf(text) + rest);
    }
  }

  lemma ChunkIsShort(content: string)
    requires |content| > READ_SIZE
    ensures Judge(Chunk(content, 0, 2315)).span <= 2315
  {
    hide Judge;
    JudgeSpan(Chunk(content, 0, READ_SIZE));
  }

  /** At a stored record a read delivers it exactly when it is shorter than the drain's buffer; else the drain stays. */
  lemma DeliveredIff(w: World, k: nat, io: ReadIo)
    requires Inv(w) && w.fs.mounted && w.fs.cursor.Some? && IsAt(w.h.stored, k, w.fs.cursor.value)
    requires w.fs.cursor.value.file in w.fs.card && io.readOk
    ensures var r := Read(w.fs, 2304, io); var text := w.h.stored[k].text;
            && (r.status == E_OK <==> |text| < 2304)
            && (if r.status == E_OK then r.text == text else r.status == E_NOT_OK && r.fs.cursor == w.fs.cursor)
  {
    hide SpanOk, PhaseOk, CursorsOk, LineOf, Judge, Chunk, Clean;
    var i := w.h.stored[k];
    assert ItemOk(w.fs, i);
    JudgeAtItem(w.fs.card, i);
    ChunkAtItem(w.fs.card, i, READ_SIZE) by { ItemFits(i); }
    if i.offset == 0 { NoHeaderAtItem(w.fs.card, i); }
  }

  lemma ItemFits(i: Item)
    requires Clean(i.text)
    ensures |i.text| + CRC_FIELD_CHARS + 2 <= 2315
  {}
}
