/** What writes cut short by a power loss or a failing card can cost. */
module Damage {
  import opened Base
  import opened FsFrame
  import opened FsAbs
  import opened StoreForward
  import ComDate

  /** Each record that had to be glued to the remains of another, and each ragged file, answers to a torn write. */
  ghost predicate Accounted(w: World) {
    w.h.okay == |w.h.stored| + w.h.glued && w.h.glued + |Ragged(w.fs.card)| <= w.h.torn
  }

  lemma {:induction false} SubsetSize(a: set<nat>, b: set<nat>)
    requires a <= b
    ensures |a| <= |b|
  {
    if a != {} {
      var x :| x in a;
      SubsetSize(a - {x}, b - {x});
    }
  }

  lemma TornRags(card: Card, file: nat, data: string, w: Write)
    requires w.Torn?
    ensures |Ragged(Append(card, file, data, w))| <= |Ragged(card)| + 1
  {
    hide LineAligned;
    SubsetSize(Ragged(Append(card, file, data, w)), Ragged(card) + {file});
  }

  lemma LineMends(card: Card, file: nat, data: string)
    requires data != "" && data[|data| - 1] == NEWLINE
    ensures Ragged(Append(card, file, data, Done)) == Ragged(card) - {file}
    ensures |Ragged(card)| == |Ragged(card) - {file}| + if file in card && !LineAligned(card[file]) then 1 else 0
  {
    var s := Content(card, file) + data;
    assert LineAligned(s);
    if file in card && !LineAligned(card[file]) {
      assert Ragged(card) == (Ragged(card) - {file}) + {file};
    } else {
      assert Ragged(card) - {file} == Ragged(card);
    }
  }

  lemma LineStepAccounted(w: World, file: nat, text: string, io: AppendIo)
    requires Accounted(w)
    ensures Accounted(LineStep(w, file, text, io))
  {
    hide Clean, Crc32, Hex, LineAligned, Ragged, Append;
    match io.line
    case NotOpened => FailedLineCard(w, file, text, io);
    case Torn(n) =>
      FailedLineCard(w, file, text, io);
      TornRags(w.fs.card, file, LineOf(text), io.line);
    case Done =>
      LineMends(w.fs.card, file, LineOf(text));
      EmptyIsAligned(w.fs.card, file);
  }

  lemma FailedLineCard(w: World, file: nat, text: string, io: AppendIo)
    requires !io.line.Done?
    ensures LineStep(w, file, text, io).fs.card == Append(w.fs.card, file, LineOf(text), io.line)
    ensures io.line.NotOpened? ==> LineStep(w, file, text, io).fs.card == w.fs.card
  {
    hide LineOf;
  }

  lemma EmptyIsAligned(card: Card, file: nat)
    ensures file !in card ==> LineAligned(Content(card, file))
    ensures file in card ==> Content(card, file) == card[file]
  {}

  lemma AppendAccounted(w: World, date: string, record: string, io: AppendIo)
    requires Accounted(w)
    ensures Accounted(AppendStep(w, date, record, io))
  {
    hide LineStep, LineAppended, LineLogged, HeaderLine, ComDate.Key, TextOf, Ragged, Append;
    if w.fs.mounted && Writable(date, record) {
      var file := ComDate.Key(date);
      var w1 := w.(fs := w.fs.(card := WithHeader(w.fs.card, file, io.header)));
      if file in w.fs.card || io.header.Done? {
        if file !in w.fs.card {
          HeaderLineIsPlain();
          LineMends(w.fs.card, file, HeaderLine());
        }
        LineStepAccounted(w1, file, TextOf(record), io);
        LineStepIs(w1, file, TextOf(record), io);
      } else if io.header.Torn? {
        TornRags(w.fs.card, file, HeaderLine(), io.header);
      } else {
        assert WithHeader(w.fs.card, file, io.header) == w.fs.card by { NotOpenedKeepsCard(w.fs.card, file); }
      }
    }
  }

  lemma NotOpenedKeepsCard(card: Card, file: nat)
    ensures Append(card, file, HeaderLine(), NotOpened) == card
  {
    hide HeaderLine;
  }

  lemma StepAccounted(w: World, e: Event)
    requires Accounted(w) && Legal(w, e)
    ensures Accounted(Step(w, e))
  {
    hide AppendStep, Ragged, Judge, NextLog, HeaderSkipped;
    match e
    case AppendEvent(date, record, io) => AppendAccounted(w, date, record, io);
    case HousekeepEvent(io) =>
      RemovalMends(w.fs, io);
      SubsetSize(Ragged(Housekept(w.fs, io).card), Ragged(w.fs.card));
    case _ =>
  }

  lemma RemovalMends(fs: Fs, io: SpaceIo)
    ensures Ragged(Housekept(fs, io).card) <= Ragged(fs.card)
  {
    hide LineAligned;
  }

  lemma {:induction false} RunAccounted(w: World, es: seq<Event>)
    requires Accounted(w) && Possible(w, es)
    ensures Accounted(Run(w, es))
    decreases |es|
  {
    hide Accounted, Step, Legal;
    if es != [] {
      StepAccounted(w, es[0]);
      RunAccounted(Step(w, es[0]), es[1..]);
    }
  }

  /**
   * In every run, fair or not, and however often writes are cut short, the clean records that were reported stored
   * but are not on a line of their own are no more than the torn writes; all the others are in `stored`, to which
   * AtLeastOnce applies.
   */
  lemma DamageIsBounded(card: Card, es: seq<Event>)
    requires Possible(Fresh(card), es)
    ensures var h := Run(Fresh(card), es).h; |h.stored| <= h.okay <= |h.stored| + h.torn
  {
    hide Run, Possible, Ragged;
    RunAccounted(Fresh(card), es);
  }

  // ---------------------------------------------------------------------------------------------
  // Giving up on the card
  // ---------------------------------------------------------------------------------------------

  /** The append gets as far as its line. */
  predicate ReachesLine(fs: Fs, date: string, record: string, io: AppendIo) {
    fs.mounted && Writable(date, record) && (ComDate.Key(date) in fs.card || io.header.Done?)
  }

  /** Failed lines in a row since the last committed line or reset. */
  ghost function Failures(w: World, es: seq<Event>, row: nat): nat
    requires Possible(w, es)
    decreases |es|
  {
    if es == [] then row
    else
      var now := match es[0]
        case AppendEvent(date, record, io) =>
          if !ReachesLine(w.fs, date, record, io) then row else if io.line.Done? then 0 else row + 1
        case ResetEvent(_, _) => 0
        case _ => row;
      Failures(Step(w, es[0]), es[1..], now)
  }

  /** Whether the last reset, if any, found a card. */
  function LastMount(es: seq<Event>, was: bool): bool
    decreases |es|
  {
    if es == [] then was else LastMount(es[1..], if es[0].ResetEvent? then es[0].mountOk else was)
  }

  predicate CountsFailures(fs: Fs, row: nat, mount: bool) {
    row <= WRITE_FAILURE_LIMIT && fs.failures == row && (fs.mounted <==> mount && row < WRITE_FAILURE_LIMIT)
  }

  lemma AppendCounts(w: World, date: string, record: string, io: AppendIo, row: nat, mount: bool)
    requires CountsFailures(w.fs, row, mount)
    ensures CountsFailures(AppendStep(w, date, record, io).fs,
                           if !ReachesLine(w.fs, date, record, io) then row else if io.line.Done? then 0 else row + 1,
                           mount)
  {
    hide HeaderLine, LineOf, ComDate.Key, ComDate.ValidStamp, TextOf, Append, LineLogged;
  }

  lemma OthersCount(w: World, e: Event, row: nat, mount: bool)
    requires CountsFailures(w.fs, row, mount) && Legal(w, e) && !e.AppendEvent? && !e.ResetEvent?
    ensures CountsFailures(Step(w, e).fs, row, mount)
  {
    hide Judge, NextLog, HeaderSkipped, Sent;
  }

  lemma {:induction false} RunCounts(w: World, es: seq<Event>, row: nat, mount: bool)
    requires Possible(w, es) && CountsFailures(w.fs, row, mount)
    ensures CountsFailures(Run(w, es).fs, Failures(w, es, row), LastMount(es, mount))
    decreases |es|
  {
    hide CountsFailures, AppendStep, ReadStep, Housekept, Advanced, Sent, ReachesLine;
    if es != [] {
      match es[0] {
        case AppendEvent(date, record, io) =>
          AppendCounts(w, date, record, io, row, mount);
          RunCounts(Step(w, es[0]), es[1..],
                    if !ReachesLine(w.fs, date, record, io) then row else if io.line.Done? then 0 else row + 1, mount);
        case ResetEvent(mountOk, readOk) =>
          ResetCounts(w, mountOk, readOk);
          RunCounts(Step(w, es[0]), es[1..], 0, mountOk);
        case _ =>
          OthersCount(w, es[0], row, mount);
          RunCounts(Step(w, es[0]), es[1..], row, mount);
      }
    }
  }

  lemma ResetCounts(w: World, mountOk: bool, readOk: bool)
    ensures CountsFailures(ResetStep(w, mountOk, readOk).fs, 0, mountOk)
  {}

  /** In every run the card found at the last reset is in use until exactly the fifth failed line in a row. */
  lemma FailuresUnmount(card: Card, es: seq<Event>)
    requires Possible(Fresh(card), es)
    ensures Run(Fresh(card), es).fs.mounted <==>
            LastMount(es, false) && Failures(Fresh(card), es, 0) < 5
  {
    hide Run, Possible, Failures, LastMount, Ragged;
    RunCounts(Fresh(card), es, 0, false);
  }
}
