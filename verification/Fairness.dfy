/**
 * What the conditions on a fair run are for. Each names a call whose arguments a caller could check, and each is the
 * exact case in which that call leaves a stored record behind the cursor or the cursor without its file.
 */
module Fairness {
  import opened Base
  import opened FsFrame
  import opened FsAbs
  import opened StoreForward
  import ComCsv
  import ComDate

  // ---------------------------------------------------------------------------------------------
  // Durable stores are enough
  // ---------------------------------------------------------------------------------------------

  /** As Fair, with no condition on housekeeping, when the first store and every crossing's succeed and reads back. */
  ghost predicate Durable(w: World, e: Event) {
    match e
    case AppendEvent(_, _, io) => Fair(w, e) && (w.fs.cursor.None? ==> io.stored)
    case ReadEvent(io) => io.stored
    case ResetEvent(mountOk, readOk) => mountOk ==> readOk
    case _ => true
  }

  predicate InStep(fs: Fs) {
    fs.cursor.Some? ==> fs.fee.Some? && fs.fee.value.file == fs.cursor.value.file
  }

  ghost predicate Steady(w: World, es: seq<Event>)
    decreases |es|
  {
    es == [] || (Legal(w, es[0]) && Durable(w, es[0]) && Steady(Step(w, es[0]), es[1..]))
  }

  lemma DurableStepKeepsInStep(w: World, e: Event)
    requires InStep(w.fs) && Legal(w, e) && Durable(w, e)
    ensures InStep(Step(w, e).fs)
  {
    hide Sent, HeaderLine, LineOf, Append, LineLogged, NextLog, Judge, HeaderEnd, ComDate.Key, TextOf;
  }

  /** When those stores succeed, housekeeping and resets at any moment are fair: the safety theorems apply. */
  lemma {:induction false} SteadyRunsAreAllowed(w: World, es: seq<Event>)
    requires InStep(w.fs) && Steady(w, es)
    ensures Allowed(w, es)
    decreases |es|
  {
    hide Step, Legal;
    if es != [] {
      DurableStepKeepsInStep(w, es[0]);
      SteadyRunsAreAllowed(Step(w, es[0]), es[1..]);
    }
  }

  // ---------------------------------------------------------------------------------------------
  // Dates
  // ---------------------------------------------------------------------------------------------

  /** A committed record is one the cursor has yet to reach exactly when its day is not before the cursor's. */
  lemma DateIff(w: World, date: string, record: string, io: AppendIo)
    requires Inv(w) && w.fs.mounted && w.fs.cursor.Some?
    requires Appended(w.fs, date, record, io).1 == E_OK
    requires w.h.stored < AppendStep(w, date, record, io).h.stored
    ensures var v := AppendStep(w, date, record, io); var k := |w.h.stored|;
            && v.fs.cursor == w.fs.cursor && v.h.accepted == w.h.accepted
            && (!v.h.stored[k].Before(w.fs.cursor.value) <==> ComDate.Key(date) >= w.fs.cursor.value.file)
  {
    hide ItemsOk, SpanOk, PhaseOk, LineOf, HeaderLine, ComDate.Key, ComDate.ValidStamp, TextOf, Clean, LineAligned;
    assert w.fs.cursor.value.file in w.fs.card;
  }

  // ---------------------------------------------------------------------------------------------
  // Resets without a cursor
  // ---------------------------------------------------------------------------------------------

  /** After the first append a reset finds a cursor exactly when that cursor's store succeeded and reads back. */
  lemma FirstStoreIff(fs: Fs, date: string, record: string, io: AppendIo, readOk: bool)
    requires fs.mounted && fs.cursor.None? && fs.fee.None? && Appended(fs, date, record, io).1 == E_OK
    ensures Booted(Appended(fs, date, record, io).0, true, readOk).0.cursor.Some? <==> io.stored && readOk
  {
    hide HeaderLine, LineOf, ComDate.Key, ComDate.ValidStamp, TextOf;
  }

  /**
   * When a reset finds no cursor, the next append starts a new one; it passes a record stored earlier exactly when
   * it is dated after that record's day.
   */
  lemma LostCursorIff(w: World, readOk: bool, date: string, record: string, io: AppendIo, k: nat)
    requires w.fs.fee.None? || !readOk
    requires k < |w.h.stored|
    requires var fs := Booted(w.fs, true, readOk).0; Appended(fs, date, record, io).1 == E_OK
    ensures var fs := Appended(Booted(w.fs, true, readOk).0, date, record, io).0;
            fs.cursor.Some? && (w.h.stored[k].Before(fs.cursor.value) <==> ComDate.Key(date) > w.h.stored[k].file)
  {
    hide HeaderLine, LineOf, ComDate.Key, ComDate.ValidStamp, TextOf;
  }

  // ---------------------------------------------------------------------------------------------
  // Removals
  // ---------------------------------------------------------------------------------------------

  /** A removal and a reset leave a cursor at a missing file exactly when the stored cursor's file was removed. */
  lemma RemovalStrandsIff(w: World, space: SpaceIo)
    requires Inv(w) && w.fs.fee.Some? && Reclaimed(w.fs, space).Some?
    ensures var end := Booted(Housekept(w.fs, space), true, true).0;
            end.cursor.Some? &&
            (end.cursor.value.file !in end.card <==> Reclaimed(w.fs, space).value == w.fs.fee.value.file)
  {
    hide ItemsOk, SpanOk, PhaseOk, NextLog, Reclaimed;
  }

  /** A restart right after a crossing comes back to the file crossed to exactly when the crossing's store succeeded. */
  lemma CrossingSurvivesIff(w: World, io: ReadIo)
    requires Inv(w) && w.phase.Idle? && w.fs.cursor.Some?
    requires Read(w.fs, DRAIN_BUFFER_SIZE, io).status == E_PENDING
    ensures var crossed := Read(w.fs, DRAIN_BUFFER_SIZE, io).fs;
            && crossed.cursor.Some? && crossed.cursor.value.file > w.fs.cursor.value.file
            && (Booted(crossed, true, true).0.cursor == crossed.cursor <==> io.stored)
  {
    hide Judge, HeaderEnd, ItemsOk;
    assert IsNext(w.fs.card, w.fs.cursor.value.file, Read(w.fs, DRAIN_BUFFER_SIZE, io).fs.cursor.value.file);
  }

  /**
   * The cursor crosses, housekeeping removes a file, the unit restarts: the cursor names a missing file exactly
   * when the crossing store was lost and the file removed is the one it left.
   */
  lemma StrandedIff(w: World, io: ReadIo, space: SpaceIo)
    requires Inv(w) && w.phase.Idle? && w.fs.cursor.Some? && InStep(w.fs)
    requires Read(w.fs, DRAIN_BUFFER_SIZE, io).status == E_PENDING
    requires Reclaimed(Read(w.fs, DRAIN_BUFFER_SIZE, io).fs, space).Some?
    ensures var crossed := Read(w.fs, DRAIN_BUFFER_SIZE, io).fs;
            var end := Booted(Housekept(crossed, space), true, true).0;
            end.cursor.Some? &&
            (end.cursor.value.file !in end.card <==>
              !io.stored && Reclaimed(crossed, space).value == w.fs.cursor.value.file)
  {
    hide ItemsOk, SpanOk, PhaseOk, Judge, HeaderEnd;
    var crossed := Read(w.fs, DRAIN_BUFFER_SIZE, io).fs;
    assert IsNext(w.fs.card, w.fs.cursor.value.file, crossed.cursor.value.file);
  }

  /** A cursor that names a missing file never moves again by reading. */
  lemma StrandedReadsNothing(fs: Fs, size: nat, io: ReadIo)
    requires fs.cursor.Some? && fs.cursor.value.file !in fs.card
    ensures Read(fs, size, io) == Reading(fs.(pending := 0), E_NOT_FOUND, "")
  {}

  // ---------------------------------------------------------------------------------------------
  // A run that loses a day
  // ---------------------------------------------------------------------------------------------

  const COMMITTED := AppendIo(Done, Done, true)
  /** One hundred MiB left of six hundred. */
  const LOW_SPACE := SpaceIo(true, 600, 500, true, true)

  /** Two days are logged and the first is sent; the crossing store is lost, and space runs low. */
  ghost function LosingEvents(d: string, e: string, s: string, t: string): seq<Event> {
    [ResetEvent(true, true), AppendEvent(d, s, COMMITTED), AppendEvent(e, t, COMMITTED),
     ReadEvent(HEALTHY), PublishEvent(true), AdvanceEvent(true), ReadEvent(HEALTHY.(stored := false)),
     HousekeepEvent(LOW_SPACE), ResetEvent(true, true), HousekeepEvent(LOW_SPACE)]
  }

  /** A new day's file after its first record. */
  function DayFile(text: string): string {
    HeaderLine() + LineOf(text)
  }

  lemma HeaderEndsALine()
    ensures LineAligned(HeaderLine())
  {
    hide ComCsv.Header;
  }

  lemma FirstAppendOfDay(w: World, d: string, text: string)
    requires w.fs.mounted && ComDate.ValidStamp(d) && ComDate.Key(d) !in w.fs.card && Clean(text)
    ensures var file := ComDate.Key(d); var c := Some(Cursor(file, 0));
            AppendStep(w, d, text, COMMITTED) ==
              w.(fs := w.fs.(card := w.fs.card[file := DayFile(text)], failures := 0,
                             cursor := if w.fs.cursor.None? then c else w.fs.cursor,
                             fee := if w.fs.cursor.None? then c else w.fs.fee),
                 h := w.h.(okay := w.h.okay + 1, stored := w.h.stored + [Item(file, |HeaderLine()|, text)]))
  {
    hide ComDate.Key, LineOf, HeaderLine, LineAligned;
    HeaderEndsALine();
    var file := ComDate.Key(d);
    assert TextOf(text) == text;
    assert "" + HeaderLine() == HeaderLine();
    assert w.fs.card[file := HeaderLine()][file := DayFile(text)] == w.fs.card[file := DayFile(text)];
  }

  lemma ReadsFirstRecord(fs: Fs, file: nat, text: string)
    requires fs.mounted && fs.cursor == Some(Cursor(file, 0)) && file in fs.card && fs.card[file] == DayFile(text)
    requires Clean(text) && |text| < DRAIN_BUFFER_SIZE
    ensures Read(fs, DRAIN_BUFFER_SIZE, HEALTHY) ==
            Reading(fs.(cursor := Some(Cursor(file, |HeaderLine()|)), pending := |LineOf(text)|), E_OK, text)
  {
    hide LineOf, HeaderLine, HeaderSkipped, Judge, Chunk;
    HeaderIsSkipped(fs.card, file);
    FirstLineIsOnCard(fs.card, file, text);
    var i := Item(file, |HeaderLine()|, text);
    JudgeAtItem(fs.card, i);
    ChunkAtItem(fs.card, i, READ_SIZE);
  }

  lemma FirstLineIsOnCard(card: Card, file: nat, text: string)
    requires file in card && card[file] == DayFile(text)
    ensures OnCard(card, Item(file, |HeaderLine()|, text))
  {
    hide LineOf, ComCsv.Header;
    assert DayFile(text)[|HeaderLine()|..] == LineOf(text);
  }

  ghost predicate IsTrace(ws: seq<World>, es: seq<Event>) {
    |ws| == |es| + 1 && forall i :: 0 <= i < |es| ==> Legal(ws[i], es[i]) && ws[i + 1] == Step(ws[i], es[i])
  }

  /** The files of two days, their first records, and how long a header is. */
  datatype Days = Days(j: nat, k: nat, jFile: string, kFile: string, jText: string, kText: string, header: nat) {
    /** Both days logged, nothing sent yet. */
    function Logged(): World {
      var c := Some(Cursor(j, 0));
      World(Fs(map[j := jFile, k := kFile], c, true, c, 0, 0), Idle,
            History([Item(j, header, jText), Item(k, header, kText)], [], [], [], 2, 0, 0, 1, true))
    }

    /** The first day sent, its cursor at the end of its file. */
    function Sent(): World {
      var c := Some(Cursor(j, |jFile|));
      World(Logged().fs.(cursor := c, fee := c), Idle,
            Logged().h.(accepted := [Item(j, header, jText)], at := [0], sent := [0], resumed := false))
    }

    /** The cursor has crossed to the second day, and the store of it failed. */
    function Crossed(): World {
      Sent().(fs := Sent().fs.(cursor := Some(Cursor(k, 0))))
    }

    /** The first file has been reclaimed. */
    function Reclaimed(): World {
      Crossed().(fs := Crossed().fs.(card := map[k := kFile]))
    }

    /** A reset has come back to the stored cursor, whose file is gone. */
    function Stranded(): World {
      Reclaimed().(fs := Reclaimed().fs.(cursor := Sent().fs.cursor), h := Sent().h.(resets := 2, resumed := true))
    }

    /** The second file has been reclaimed too. */
    function Lost(): World {
      Sent().(fs := Sent().fs.(card := map[]), h := Sent().h.(resets := 2, resumed := true))
    }
  }

  function DaysOf(d: string, e: string, s: string, t: string): Days
    requires ComDate.ValidStamp(d) && ComDate.ValidStamp(e)
  {
    Days(ComDate.Key(d), ComDate.Key(e), DayFile(s), DayFile(t), s, t, |HeaderLine()|)
  }

  lemma LogTwoDays(d: string, e: string, s: string, t: string) returns (ws: seq<World>)
    requires ComDate.ValidStamp(d) && ComDate.ValidStamp(e) && ComDate.Key(d) < ComDate.Key(e) && Clean(s) && Clean(t)
    ensures IsTrace(ws, LosingEvents(d, e, s, t)[..3]) && ws[0] == Fresh(map[])
    ensures ws[3] == DaysOf(d, e, s, t).Logged()
    ensures forall i :: 0 <= i < 3 ==> Fair(ws[i], LosingEvents(d, e, s, t)[i])
  {
    hide HeaderLine, LineOf, AppendStep, ComDate.Key, ComDate.ValidStamp, Clean;
    var w0 := Fresh(map[]);
    assert Ragged(map[]) == {};
    var w1 := Step(w0, ResetEvent(true, true));
    FirstAppendOfDay(w1, d, s);
    var w2 := Step(w1, AppendEvent(d, s, COMMITTED));
    FirstAppendOfDay(w2, e, t);
    var w3 := Step(w2, AppendEvent(e, t, COMMITTED));
    ws := [w0, w1, w2, w3];
  }

  lemma SendFirstDay(x: Days) returns (ws: seq<World>)
    requires x.j < x.k && Clean(x.jText) && |x.jText| < DRAIN_BUFFER_SIZE
    requires x.header == |HeaderLine()| && x.jFile == DayFile(x.jText)
    ensures IsTrace(ws, [ReadEvent(HEALTHY), PublishEvent(true), AdvanceEvent(true)])
    ensures ws[0] == x.Logged() && ws[3] == x.Sent()
  {
    hide HeaderLine, LineOf, Read, Clean;
    var w0 := x.Logged();
    ReadsFirstRecord(w0.fs, x.j, x.jText);
    var w1 := Step(w0, ReadEvent(HEALTHY));
    var c := Cursor(x.j, x.header);
    assert IsAt(w1.h.stored, 0, c) && !IsAt(w1.h.stored, 1, c);
    var w2 := Step(w1, PublishEvent(true));
    assert w2.h.sent == [0];
    var w3 := Step(w2, AdvanceEvent(true));
    ws := [w0, w1, w2, w3];
  }

  lemma CrossUnstored(x: Days)
    requires x.j < x.k && x.jFile != ""
    ensures Step(x.Sent(), ReadEvent(HEALTHY.(stored := false))) == x.Crossed()
  {
    hide Judge, HeaderEnd;
    var w := x.Sent();
    assert IsNext(w.fs.card, x.j, x.k);
    assert NextLog(w.fs.card, x.j) == Some(x.k);
    assert ReadFile(w.fs.card, x.j, |x.jFile|, READ_SIZE, true) == Some("");
  }

  lemma RemovesOldest(fs: Fs, f: nat)
    requires fs.mounted && f in fs.card && (forall g :: g in fs.card ==> f <= g)
    requires fs.cursor.Some? ==> fs.cursor.value.file != f
    ensures Housekept(fs, LOW_SPACE) == fs.(card := fs.card - {f})
  {
    assert IsNext(fs.card, -1, f);
  }

  lemma RemoveFirstDay(x: Days)
    requires x.j < x.k
    ensures Step(x.Crossed(), HousekeepEvent(LOW_SPACE)) == x.Reclaimed()
  {
    hide Housekept;
    RemovesOldest(x.Crossed().fs, x.j);
    assert x.Crossed().fs.card - {x.j} == map[x.k := x.kFile];
  }

  lemma RemoveSecondDay(x: Days)
    requires x.j < x.k
    ensures Step(x.Stranded(), HousekeepEvent(LOW_SPACE)) == x.Lost()
  {
    hide Housekept;
    RemovesOldest(x.Stranded().fs, x.k);
    assert x.Stranded().fs.card - {x.k} == map[];
  }

  lemma ResetStrands(x: Days)
    ensures Step(x.Reclaimed(), ResetEvent(true, true)) == x.Stranded()
  {}

  lemma LoseSecondDay(x: Days) returns (ws: seq<World>)
    requires x.j < x.k && x.jFile != ""
    ensures IsTrace(ws, [ReadEvent(HEALTHY.(stored := false)), HousekeepEvent(LOW_SPACE), ResetEvent(true, true),
                         HousekeepEvent(LOW_SPACE)])
    ensures ws[0] == x.Sent() && ws[4] == x.Lost()
  {
    hide Step;
    CrossUnstored(x);
    RemoveFirstDay(x);
    ResetStrands(x);
    RemoveSecondDay(x);
    ws := [x.Sent(), x.Crossed(), x.Reclaimed(), x.Stranded(), x.Lost()];
  }

  /**
   * For any two days and records, a lost crossing store ends with the second day's file removed and its record
   * never sent, although every step before the first removal is fair.
   */
  lemma LostCrossingLosesADay(d: string, e: string, s: string, t: string) returns (ws: seq<World>)
    requires ComDate.ValidStamp(d) && ComDate.ValidStamp(e) && ComDate.Key(d) < ComDate.Key(e)
    requires Clean(s) && Clean(t) && |s| < DRAIN_BUFFER_SIZE && s != t
    ensures IsTrace(ws, LosingEvents(d, e, s, t)) && ws[0] == Fresh(map[])
    ensures forall i :: 0 <= i < 7 ==> Fair(ws[i], LosingEvents(d, e, s, t)[i])
    ensures var w := ws[10];
            |w.h.stored| == 2 && w.h.stored[1] !in w.h.accepted && w.h.stored[1].file !in w.fs.card
  {
    hide Step, Legal, Fresh, HeaderLine, LineOf, Clean, ComDate.Key, ComDate.ValidStamp;
    var x := DaysOf(d, e, s, t);
    var a := LogTwoDays(d, e, s, t);
    var b := SendFirstDay(x);
    var c := LoseSecondDay(x);
    ws := a + b[1..] + c[1..];
  }
}
