/**
 * The telemetry component of src/app/TelemSwc over the store-and-forward log. The ghost `world` runs alongside:
 * every call that touches the log is a step of the protocol in StoreForward.
 */
module TelemSwc {
  import opened Base
  import opened FsFrame
  import opened FsAbs
  import opened StoreForward
  import ComCsv
  import ComDate

  const BACKLOG_RECORDS_PER_CYCLE := 4
  const MAX_SKIPS_PER_CYCLE := 2
  /** Reads one cycle can make: the loop goes on only while both counters are below their limits. */
  const READS_PER_CYCLE := 5

  /** What platform and network answer to one pass of the drain loop. */
  datatype Answer = Answer(io: ReadIo, accepted: bool, stored: bool)

  lemma {:induction false} RunsCompose(w: World, a: seq<Event>, b: seq<Event>)
    requires Allowed(w, a) && Allowed(Run(w, a), b)
    ensures Allowed(w, a + b) && Run(w, a + b) == Run(Run(w, a), b)
    decreases |a|
  {
    hide Legal, Fair, Step;
    if a == [] {
      assert a + b == b;
    } else {
      assert (a + b)[0] == a[0] && (a + b)[1..] == a[1..] + b;
      RunsCompose(Step(w, a[0]), a[1..], b);
    }
  }

  lemma RunOfOne(w: World, e: Event)
    requires Legal(w, e) && Fair(w, e)
    ensures Allowed(w, [e]) && Run(w, [e]) == Step(w, e)
  {
    hide Legal, Fair, Step;
    assert [e][1..] == [];
  }

  lemma RunOfTwo(w: World, e: Event, f: Event)
    requires Legal(w, e) && Fair(w, e) && Legal(Step(w, e), f) && Fair(Step(w, e), f)
    ensures Allowed(w, [e, f]) && Run(w, [e, f]) == Step(Step(w, e), f)
  {
    hide Legal, Fair, Step;
    RunOfOne(w, e);
    RunOfOne(Step(w, e), f);
    RunsCompose(w, [e], [f]);
    assert [e, f] == [e] + [f];
  }

  lemma RunOfThree(w: World, e: Event, f: Event, g: Event)
    requires Legal(w, e) && Fair(w, e) && Legal(Step(w, e), f) && Fair(Step(w, e), f)
    requires Legal(Step(Step(w, e), f), g) && Fair(Step(Step(w, e), f), g)
    ensures Allowed(w, [e, f, g]) && Run(w, [e, f, g]) == Step(Step(Step(w, e), f), g)
  {
    hide Legal, Fair, Step;
    RunOfTwo(w, e, f);
    RunOfOne(Step(Step(w, e), f), g);
    RunsCompose(w, [e, f], [g]);
    assert [e, f, g] == [e, f] + [g];
  }

  predicate SameFile(before: Fs, after: Fs)
    requires before.cursor.Some?
  {
    after.cursor.Some? && after.cursor.value.file == before.cursor.value.file
  }

  /** The card is as it was, and a cursor has stayed in its file or gone to the next one. */
  ghost predicate CrossedAtMostOnce(before: Fs, after: Fs) {
    && after.card == before.card
    && (before.cursor.Some? ==>
          SameFile(before, after) ||
          (after.cursor.Some? && NextLog(before.card, before.cursor.value.file) == Some(after.cursor.value.file)))
  }

  lemma ReadCrosses(fs: Fs, io: ReadIo)
    ensures var r := Read(fs, 2304, io);
            && CrossedAtMostOnce(fs, r.fs)
            && (fs.cursor.Some? && r.status != E_PENDING ==> SameFile(fs, r.fs))
  {
    hide Judge, NextLog, HeaderEnd;
  }

  lemma AdvanceStaysInFile(fs: Fs, stored: bool)
    requires WellFormed(fs)
    ensures Advanced(fs, stored).0.card == fs.card && (fs.cursor.Some? ==> SameFile(fs, Advanced(fs, stored).0))
  {}

  /** How one pass of the drain loop ends. */
  datatype Outcome = Published | Skipped | Stopped

  /** The calls one pass makes, given what its read returned. */
  function PassEvents(phase: Phase, answer: Answer): seq<Event> {
    match phase
    case Holding(_) =>
      if answer.accepted then [ReadEvent(answer.io), PublishEvent(true), AdvanceEvent(answer.stored)]
      else [ReadEvent(answer.io), PublishEvent(false)]
    case Broken => [ReadEvent(answer.io), SkipEvent(answer.stored)]
    case _ => [ReadEvent(answer.io)]
  }

  /** The loop goes on after a record is passed with its store confirmed, and after a skip. */
  function PassOutcome(phase: Phase, answer: Answer): Outcome {
    match phase
    case Holding(_) => if answer.accepted && answer.stored then Published else Stopped
    case Broken => Skipped
    case _ => Stopped
  }

  /** A pass is a run of the protocol that ends idle and publishes only what it read. */
  lemma PassRuns(w: World, answer: Answer)
    requires Inv(w) && w.phase.Idle?
    ensures var v := Step(w, ReadEvent(answer.io)); var es := PassEvents(v.phase, answer);
            && Allowed(w, es) && Inv(Run(w, es)) && Run(w, es).phase.Idle?
            && Inv(v) && WellFormed(v.fs) && (v.phase.Holding? ==> v.fs.cursor.Some?)
            && Run(w, es).fs == (if (v.phase.Holding? && answer.accepted) || v.phase.Broken?
                                 then Advanced(v.fs, answer.stored).0 else v.fs)
            && Run(w, es).h.stored == w.h.stored
            && (if v.phase.Holding? && answer.accepted then |Run(w, es).h.accepted| == |w.h.accepted| + 1
                else Run(w, es).h.accepted == w.h.accepted)
  {
    hide Inv, Read, Advanced, Allowed, Run;
    var e := ReadEvent(answer.io);
    var v := Step(w, e);
    StepKeepsInv(w, e);
    InvIsLegal(v);
    match v.phase {
      case Holding(text) =>
        var f, g := PublishEvent(answer.accepted), AdvanceEvent(answer.stored);
        if answer.accepted {
          RunOfThree(w, e, f, g);
          SentAccepts(v.h, v.fs.cursor.value, text);
        } else {
          RunOfTwo(w, e, f);
        }
      case Broken => RunOfTwo(w, e, SkipEvent(answer.stored));
      case _ => RunOfOne(w, e);
    }
    RunKeepsInv(w, PassEvents(v.phase, answer));
  }

  /** What a whole cycle comes to, from the pass after `published` records and `skipped` damaged ones. */
  ghost function Cycle(w: World, answers: seq<Answer>, published: nat, skipped: nat): World
    requires Inv(w) && w.phase.Idle? && |answers| == READS_PER_CYCLE
    decreases BACKLOG_RECORDS_PER_CYCLE + MAX_SKIPS_PER_CYCLE - published - skipped
  {
    if published >= BACKLOG_RECORDS_PER_CYCLE || skipped >= MAX_SKIPS_PER_CYCLE then w
    else
      var answer := answers[published + skipped];
      var phase := Step(w, ReadEvent(answer.io)).phase;
      PassRuns(w, answer);
      var next := Run(w, PassEvents(phase, answer));
      match PassOutcome(phase, answer)
      case Published => Cycle(next, answers, published + 1, skipped)
      case Skipped => Cycle(next, answers, published, skipped + 1)
      case Stopped => next
  }

  lemma InvIsLegal(w: World)
    requires Inv(w)
    ensures WellFormed(w.fs) && (w.phase.Holding? ==> w.fs.cursor.Some?)
  {}

  /** After a read that delivered, an advance reports whether its store succeeded. */
  lemma AdvanceReports(w: World, stored: bool)
    requires Inv(w) && w.phase.Holding? && WellFormed(w.fs)
    ensures Advanced(w.fs, stored).1 == if stored then E_OK else E_NOT_OK
  {}

  lemma SentAccepts(h: History, c: Cursor, text: string)
    ensures |Sent(h, c, text).accepted| == |h.accepted| + 1 && Sent(h, c, text).stored == h.stored
  {}

  // ---------------------------------------------------------------------------------------------
  // Acquisition
  // ---------------------------------------------------------------------------------------------

  /** What telemetry stores is never damaged by its own text and always fits the drain's buffer. */
  lemma TelemetryIsClean(r: ComCsv.Record)
    requires ComCsv.Printable(r) && NEWLINE !in r.deviceId
    ensures Clean(ComCsv.RecordText(r)) && |ComCsv.RecordText(r)| < 2304
  {
    hide ComCsv.RecordText;
    ComCsv.RecordAlwaysFits(r);
    ComCsv.RecordCharacters(r, NEWLINE);
  }

  /** An append only adds bytes at the end of files. */
  lemma AppendGrows(w: World, date: string, record: string, io: AppendIo)
    ensures var v := AppendStep(w, date, record, io);
            forall f :: f in w.fs.card ==> f in v.fs.card && w.fs.card[f] <= v.fs.card[f]
  {
    hide HeaderLine, LineOf, LineLogged, ComDate.Key, TextOf, ComDate.ValidStamp;
  }

  lemma AppendStepIs(w: World, date: string, record: string, io: AppendIo)
    ensures AppendStep(w, date, record, io).fs == Appended(w.fs, date, record, io).0
    ensures AppendStep(w, date, record, io).phase == w.phase
  {
    hide HeaderLine, LineOf, LineLogged, ComDate.Key, TextOf, ComDate.ValidStamp;
  }

  predicate Fits(record: ComCsv.Record)
    requires ComCsv.FourPacks(record)
  {
    |ComCsv.RecordText(record)| < ComCsv.RECORD_BUFFER_SIZE
  }

  // ---------------------------------------------------------------------------------------------
  // The live record
  // ---------------------------------------------------------------------------------------------

  /** The one record waiting to be published live. */
  datatype Live = Live(record: string, pending: bool)

  datatype LiveEvent = Acquire(record: string) | TryPublish(available: bool, accepted: bool)

  function Offered(l: Live, available: bool, accepted: bool): (Live, Option<string>) {
    if l.pending && available && accepted then (l.(pending := false), Some(l.record)) else (l, None)
  }

  /** The records the broker accepts live, in order. */
  function LiveStream(l: Live, es: seq<LiveEvent>): seq<string>
    decreases |es|
  {
    if es == [] then []
    else match es[0]
      case Acquire(record) => LiveStream(Live(record, true), es[1..])
      case TryPublish(available, accepted) =>
        var (next, sent) := Offered(l, available, accepted);
        (if sent.Some? then [sent.value] else []) + LiveStream(next, es[1..])
  }

  function Acquired(es: seq<LiveEvent>): seq<string>
    decreases |es|
  {
    if es == [] then [] else (if es[0].Acquire? then [es[0].record] else []) + Acquired(es[1..])
  }

  /** a can be had from b by leaving elements out. */
  predicate Subsequence(a: seq<string>, b: seq<string>)
    decreases |b|
  {
    if a == [] then true
    else if b == [] then false
    else (a[0] == b[0] && Subsequence(a[1..], b[1..])) || Subsequence(a, b[1..])
  }

  function Waiting(l: Live): seq<string> {
    if l.pending then [l.record] else []
  }

  /** Each record goes out live at most once, in the order acquired; one overtaken by the next is left to the card. */
  lemma {:induction false} LiveAtMostOnce(l: Live, es: seq<LiveEvent>)
    ensures Subsequence(LiveStream(l, es), Waiting(l) + Acquired(es))
    decreases |es|
  {
    if es != [] {
      match es[0] {
        case Acquire(record) =>
          LiveAtMostOnce(Live(record, true), es[1..]);
          assert Acquired(es) == Waiting(Live(record, true)) + Acquired(es[1..]);
          if l.pending { Skips(LiveStream(l, es), l.record, Acquired(es)); }
          assert !l.pending ==> Waiting(l) + Acquired(es) == Acquired(es);
        case TryPublish(available, accepted) =>
          var (next, sent) := Offered(l, available, accepted);
          LiveAtMostOnce(next, es[1..]);
          assert Acquired(es) == Acquired(es[1..]);
          if sent.Some? { Takes(LiveStream(next, es[1..]), l.record, Acquired(es)); }
          assert sent.None? ==> LiveStream(l, es) == LiveStream(next, es[1..]);
      }
    }
  }

  lemma Skips(a: seq<string>, x: string, b: seq<string>)
    requires Subsequence(a, b)
    ensures Subsequence(a, [x] + b)
  {
    assert ([x] + b)[1..] == b;
  }

  lemma Takes(a: seq<string>, x: string, b: seq<string>)
    requires Subsequence(a, [] + b)
    ensures Subsequence([x] + a, [x] + b)
  {
    assert [] + b == b && ([x] + b)[1..] == b && ([x] + a)[1..] == a;
  }

  /** Once a publish is accepted, the newest record acquired before it has gone out, whatever was refused meanwhile. */
  lemma {:induction false} NewestGoesOut(l: Live, es: seq<LiveEvent>)
    requires Waiting(l) + Acquired(es) != []
    ensures var all := Waiting(l) + Acquired(es); var out := LiveStream(l, es + [TryPublish(true, true)]);
            out != [] && out[|out| - 1] == all[|all| - 1]
    decreases |es|
  {
    var fs := es + [TryPublish(true, true)];
    if es == [] {
      assert fs[1..] == [];
    } else {
      assert fs[0] == es[0] && fs[1..] == es[1..] + [TryPublish(true, true)];
      match es[0] {
        case Acquire(record) => NewestGoesOut(Live(record, true), es[1..]);
        case TryPublish(available, accepted) =>
          var next := Offered(l, available, accepted).0;
          if Waiting(next) + Acquired(es[1..]) != [] {
            NewestGoesOut(next, es[1..]);
            TryLast(l, es, fs);
          } else {
            TriesAcquireNothing(es[1..], true, true);
            NothingWaits(next, fs[1..]);
          }
      }
    }
  }

  lemma LastOf(a: seq<string>, b: seq<string>)
    requires b != []
    ensures (a + b) != [] && (a + b)[|a + b| - 1] == b[|b| - 1]
  {}

  lemma TrySplits(l: Live, es: seq<LiveEvent>)
    requires es != [] && es[0].TryPublish?
    ensures var (next, sent) := Offered(l, es[0].available, es[0].accepted);
            && LiveStream(l, es) == (if sent.Some? then [sent.value] else []) + LiveStream(next, es[1..])
            && Acquired(es) == Acquired(es[1..])
  {
    assert [] + Acquired(es[1..]) == Acquired(es[1..]);
  }

  /** A try in front changes neither the last record to go out nor the last one waiting. */
  lemma TryLast(l: Live, es: seq<LiveEvent>, fs: seq<LiveEvent>)
    requires es != [] && es[0].TryPublish? && fs != [] && fs[0] == es[0]
    requires var next := Offered(l, es[0].available, es[0].accepted).0;
             LiveStream(next, fs[1..]) != [] && Waiting(next) + Acquired(es[1..]) != []
    ensures var next := Offered(l, es[0].available, es[0].accepted).0;
            var all, rest := Waiting(l) + Acquired(es), Waiting(next) + Acquired(es[1..]);
            var out, after := LiveStream(l, fs), LiveStream(next, fs[1..]);
            && all != [] && all[|all| - 1] == rest[|rest| - 1]
            && out != [] && out[|out| - 1] == after[|after| - 1]
  {
    hide LiveStream, Acquired;
    var (next, sent) := Offered(l, es[0].available, es[0].accepted);
    TrySplits(l, es);
    TrySplits(l, fs);
    LastOf(if sent.Some? then [sent.value] else [], LiveStream(next, fs[1..]));
    if sent.Some? {
      assert [] + Acquired(es[1..]) == Acquired(es[1..]);
      LastOf([l.record], Acquired(es[1..]));
    }
  }

  lemma {:induction false} NothingWaits(l: Live, es: seq<LiveEvent>)
    requires !l.pending && Acquired(es) == []
    ensures LiveStream(l, es) == []
    decreases |es|
  {
    if es != [] { NothingWaits(l, es[1..]); }
  }

  lemma {:induction false} TriesAcquireNothing(es: seq<LiveEvent>, available: bool, accepted: bool)
    ensures Acquired(es + [TryPublish(available, accepted)]) == Acquired(es)
    decreases |es|
  {
    var fs := es + [TryPublish(available, accepted)];
    if es == [] {
      assert fs[1..] == [];
    } else {
      assert fs[0] == es[0] && fs[1..] == es[1..] + [TryPublish(available, accepted)];
      TriesAcquireNothing(es[1..], available, accepted);
    }
  }

  // ---------------------------------------------------------------------------------------------
  // The component
  // ---------------------------------------------------------------------------------------------

  class TelemSwc {
    const log: RecordLog
    ghost var world: World

    var liveRecord: string
    var livePending: bool

    /** The ghost world is the log's, with no record in hand. */
    ghost predicate Coupled()
      reads this, log
    {
      world.fs == log.State() && world.phase.Idle?
    }

    ghost predicate Valid()
      reads this, log
    {
      Coupled() && Inv(world)
    }

    function LiveState(): Live
      reads this
    {
      Live(liveRecord, livePending)
    }

    constructor (log: RecordLog)
      requires log.State() == Fs(log.card, None, false, None, 0, 0)
      ensures Valid() && this.log == log && world == Fresh(log.card) && LiveState() == Live("", false)
    {
      this.log := log;
      world := Fresh(log.card);
      liveRecord, livePending := "", false;
      new;
      FreshInv(log.card);
    }

    /** A restart of the unit: TelemSwc_Init and FsAbs_Init clear the statics, card and Fee survive. */
    method Restart(mountOk: bool, readOk: bool)
      requires Coupled()
      modifies this, log
      ensures Coupled() && world == Step(old(world), ResetEvent(mountOk, readOk)) && !livePending
      ensures old(Valid() && Fair(world, ResetEvent(mountOk, readOk))) ==> Valid()
    {
      hide Inv, Booted, Fair;
      if Valid() && Fair(world, ResetEvent(mountOk, readOk)) {
        StepKeepsInv(world, ResetEvent(mountOk, readOk));
      }
      var _ := log.Init(mountOk, readOk);
      livePending := false;
      world := Step(world, ResetEvent(mountOk, readOk));
    }

    /** Housekeeping, which runs beside the telemetry component. */
    method Housekeep(io: SpaceIo)
      requires Coupled()
      modifies this`world, log
      ensures Coupled() && world == Step(old(world), HousekeepEvent(io))
      ensures old(Valid() && Fair(world, HousekeepEvent(io))) ==> Valid()
    {
      hide Inv, Housekept, Fair;
      if Valid() && Fair(world, HousekeepEvent(io)) {
        StepKeepsInv(world, HousekeepEvent(io));
      }
      log.MainFunction(io);
      world := Step(world, HousekeepEvent(io));
    }

    /** The append a record leads to, if any, is fair. */
    ghost predicate FairStore(record: ComCsv.Record, now: uint32, clockValid: bool, io: AppendIo)
      requires ComCsv.FourPacks(record)
      reads this
    {
      clockValid && Fits(record) ==>
        Fair(world, AppendEvent(ComDate.StampOf(now), ComCsv.RecordText(record), io))
    }

    /** TelemSwc_AcquireAndStore, its record gathered. The card is only written under a valid clock. */
    method AcquireAndStore(record: ComCsv.Record, now: uint32, clockValid: bool, io: AppendIo)
      returns (status: Status)
      requires Coupled() && ComCsv.FourPacks(record)
      modifies this, log
      ensures Coupled()
      ensures old(Valid() && FairStore(record, now, clockValid, io)) ==> Valid()
      ensures LiveState() == if |ComCsv.RecordText(record)| < 2304 then Live(ComCsv.RecordText(record), true)
                             else old(LiveState())
      ensures world == if |ComCsv.RecordText(record)| < 2304 && clockValid
                       then Step(old(world), AppendEvent(ComDate.StampOf(now), ComCsv.RecordText(record), io))
                       else old(world)
      ensures status == if |ComCsv.RecordText(record)| < 2304 && clockValid
                        then Appended(old(world.fs), ComDate.StampOf(now), ComCsv.RecordText(record), io).1
                        else E_NOT_OK
    {
      hide Inv, ComCsv.RecordText, ComDate.StampOf, ComDate.ValidStamp, ComDate.Key, AppendStep, Appended, Fair;
      var buffer := new char[ComCsv.RECORD_BUFFER_SIZE];
      var serialised, written := ComCsv.SerialiseCsvRecord(record, buffer);
      if serialised != E_OK {
        return E_NOT_OK;
      }
      liveRecord := buffer[..written];
      livePending := true;
      var stamp := new char[9];
      var stamped := ComDate.FormatDateStamp(now, clockValid, stamp);
      if stamped != E_OK {
        return E_NOT_OK;
      }
      assert stamp[..8] == ComDate.StampOf(now) && liveRecord == ComCsv.RecordText(record);
      status := Store(stamp[..8], liveRecord, io);
    }

    /** The append, and its step. */
    method Store(date: string, record: string, io: AppendIo) returns (status: Status)
      requires Coupled()
      modifies this`world, log
      ensures Coupled() && world == Step(old(world), AppendEvent(date, record, io))
      ensures old(Valid() && Fair(world, AppendEvent(date, record, io))) ==> Valid()
      ensures status == Appended(old(world.fs), date, record, io).1
    {
      hide Inv, AppendStep, Appended, Fair;
      if Valid() && Fair(world, AppendEvent(date, record, io)) {
        StepKeepsInv(world, AppendEvent(date, record, io));
      }
      AppendStepIs(world, date, record, io);
      status := log.AppendRecord(date, record, io);
      world := Step(world, AppendEvent(date, record, io));
    }

    /** TelemSwc_PublishLive. */
    method PublishLive(available: bool, accepted: bool) returns (sent: Option<string>)
      modifies this`livePending
      ensures (LiveState(), sent) == Offered(old(LiveState()), available, accepted)
    {
      if !livePending || !available || !accepted {
        return None;
      }
      livePending := false;
      sent := Some(liveRecord);
    }

    /** TelemSwc_DrainBacklog. The events it returns are a run of the protocol that starts and ends idle. */
    method DrainBacklog(available: bool, answers: seq<Answer>)
      returns (published: nat, skipped: nat, ghost events: seq<Event>)
      requires Valid() && |answers| == READS_PER_CYCLE
      modifies this`world, log
      ensures Valid() && Allowed(old(world), events) && world == Run(old(world), events)
      ensures world == if available then Cycle(old(world), answers, 0, 0) else old(world)
      ensures published <= 4 && skipped <= 2
      ensures |old(world.h.accepted)| + published <= |world.h.accepted|
           <= |old(world.h.accepted)| + 4
      ensures CrossedAtMostOnce(old(world.fs), world.fs)
    {
      hide Inv, PassEvents, Legal, Fair, Step;
      published, skipped, events := 0, 0, [];
      if !available {
        return;
      }
      while published < BACKLOG_RECORDS_PER_CYCLE && skipped < MAX_SKIPS_PER_CYCLE
        invariant Valid() && Allowed(old(world), events) && world == Run(old(world), events)
        invariant published <= BACKLOG_RECORDS_PER_CYCLE && skipped <= MAX_SKIPS_PER_CYCLE
        invariant Cycle(old(world), answers, 0, 0) == Cycle(world, answers, published, skipped)
        invariant |world.h.accepted| == |old(world.h.accepted)| + published
        invariant world.fs.card == old(world.fs.card)
        invariant old(world.fs).cursor.Some? ==> SameFile(old(world.fs), world.fs)
        decreases BACKLOG_RECORDS_PER_CYCLE + MAX_SKIPS_PER_CYCLE - published - skipped
        modifies this`world, log
      {
        var outcome, es := DrainOne(answers[published + skipped]);
        RunsCompose(old(world), events, es);
        events := events + es;
        match outcome {
          case Published => published := published + 1;
          case Skipped => skipped := skipped + 1;
          case Stopped => break;
        }
      }
    }

    /** One pass of the loop: read, publish, and only then advance; or skip what is damaged. */
    method DrainOne(answer: Answer) returns (outcome: Outcome, ghost events: seq<Event>)
      requires Valid()
      modifies this`world, log
      ensures Valid() && Allowed(old(world), events) && world == Run(old(world), events)
      ensures events == PassEvents(Step(old(world), ReadEvent(answer.io)).phase, answer)
      ensures |old(world.h.accepted)| <= |world.h.accepted| <= |old(world.h.accepted)| + 1
      ensures CrossedAtMostOnce(old(world.fs), world.fs)
      ensures outcome != Stopped && old(world.fs).cursor.Some? ==> SameFile(old(world.fs), world.fs)
      ensures outcome == PassOutcome(Step(old(world), ReadEvent(answer.io)).phase, answer)
      ensures outcome == Published ==> |world.h.accepted| == |old(world.h.accepted)| + 1
      ensures outcome == Skipped ==> world.h.accepted == old(world.h.accepted)
    {
      hide Inv, Read, Advanced, Run, Allowed, Sent, NextLog;
      PassRuns(world, answer);
      ReadCrosses(world.fs, answer.io);
      AdvanceStaysInFile(Step(world, ReadEvent(answer.io)).fs, answer.stored);
      events := PassEvents(Step(world, ReadEvent(answer.io)).phase, answer);
      world := Run(world, events);
      var readStatus, text := log.ReadRecordAtCursor(DRAIN_BUFFER_SIZE, answer.io);
      if readStatus == E_NOT_FOUND {
        return Stopped, events;
      }
      if readStatus == E_CRC_FAIL {
        var _ := log.SkipCorruptRecord(answer.stored);
        return Skipped, events;
      }
      if readStatus != E_OK {
        return Stopped, events;
      }
      if !answer.accepted {
        return Stopped, events;
      }
      var advanced := log.AdvanceCursor(answer.stored);
      AdvanceReports(Step(old(world), ReadEvent(answer.io)), answer.stored);
      outcome := if advanced == E_OK then Published else Stopped;
    }
  }
}
