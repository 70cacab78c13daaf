/** What one call adds to a backfill transfer of src/app/TelemSwc: at most one chunk a cycle, and no second request. */
module BackfillCalls {
  import opened Base
  import opened ComTransfer
  import opened FsAbs
  import opened Backfill
  import ComDate

  // ---------------------------------------------------------------------------------------------
  // Requests
  // ---------------------------------------------------------------------------------------------

  /** A request that comes while one is served, or that names no valid date. */
  predicate Refused(p: Progress, e: Event) {
    e.RequestEvent? && (p.active || Wanted(Bounded(e.request)) == [])
  }

  /** The run without the requests that were refused. */
  function Heard(p: Progress, ms: seq<Moment>): seq<Moment>
    decreases |ms|
  {
    if ms == [] then []
    else
      var past, m := ms[..|ms| - 1], ms[|ms| - 1];
      Heard(p, past) + if Refused(Run(p, past), m.event) then [] else [m]
  }

  /** A request that is refused disturbs nothing: without it the whole run is the same. */
  lemma {:induction false} RefusedChangesNothing(p: Progress, ms: seq<Moment>)
    ensures Run(p, Heard(p, ms)) == Run(p, ms)
    decreases |ms|
  {
    hide Wanted, Cycled;
    if ms != [] {
      var past, m := ms[..|ms| - 1], ms[|ms| - 1];
      RefusedChangesNothing(p, past);
      var heard := Heard(p, past);
      if Refused(Run(p, past), m.event) {
        assert heard + [] == heard;
      } else {
        assert (heard + [m])[..|heard|] == heard;
      }
    }
  }

  /** A request that is taken starts afresh, with nothing served or sent, for its first sixteen dates. */
  lemma TakenStartsAfresh(p: Progress, request: string)
    requires !Refused(p, RequestEvent(request))
    ensures var q := Requested(p, request); var wanted := Wanted(Bounded(request));
            && q.active && q.currentDate == 0 && q.currentChunk == 0 && q.served == [] && q.sent == []
            && q.dates != [] && q.dates <= wanted && |q.dates| == Min(|wanted|, 16)
  {
    hide Wanted;
  }

  // ---------------------------------------------------------------------------------------------
  // Chunks
  // ---------------------------------------------------------------------------------------------

  /** From one state to a later one: nothing more was sent, or one payload of at most 2048 characters. */
  predicate SentOne(p: Progress, q: Progress) {
    q.sent == p.sent ||
    (|q.sent| == |p.sent| + 1 && q.sent[..|p.sent|] == p.sent && |q.sent[|p.sent|].payload| <= 2048)
  }

  lemma ExtentIsShort(plan: ChunkPlan, k: nat)
    requires plan.lastChunkSize <= TRANSFER_CHUNK_SIZE
    ensures var e := ExtentOf(plan, k, TRANSFER_CHUNK_SIZE); e.Some? ==> e.value.1 <= 2048
  {}

  lemma PassSendsOne(p: Progress, d: Disk, accepted: bool)
    requires p.plan.lastChunkSize <= TRANSFER_CHUNK_SIZE
    ensures var (q, pass) := OnePass(p, d, accepted);
            && SentOne(p, q) && (pass != Accepted ==> q.sent == p.sent)
            && (!accepted ==> q.sent == p.sent)
            && q.plan.lastChunkSize <= TRANSFER_CHUNK_SIZE
  {
    hide ComDate.ValidStamp, ComDate.Key, ExtentOf, PlanOf;
    if p.currentDate < |p.dates| && ComDate.ValidStamp(p.dates[p.currentDate]) {
      StampLength(p.dates[p.currentDate]);
      var file := ComDate.Key(p.dates[p.currentDate]);
      ExtentIsShort(p.plan, p.currentChunk);
      PlanIsShort(0);
      if file in d.card {
        PlanIsShort(|d.card[file]|);
        ExtentIsShort(Planned(p, d.card[file]).plan, p.currentChunk);
      }
    }
  }

  lemma PlanIsShort(size: nat)
    ensures PlanOf(size, TRANSFER_CHUNK_SIZE).lastChunkSize <= TRANSFER_CHUNK_SIZE
  {}

  lemma {:induction false} LoopSendsOne(p: Progress, d: Disk, accepted: bool)
    requires p.plan.lastChunkSize <= TRANSFER_CHUNK_SIZE
    ensures var q := Loop(p, d, accepted);
            SentOne(p, q) && (!accepted ==> q.sent == p.sent) && q.plan.lastChunkSize <= TRANSFER_CHUNK_SIZE
    decreases |p.dates| - p.currentDate
  {
    hide OnePass;
    var (q, pass) := OnePass(p, d, accepted);
    PassSendsOne(p, d, accepted);
    if pass == Passed && q.currentDate > p.currentDate {
      PassKeepsDates(p, d, accepted);
      LoopSendsOne(q, d, accepted);
    }
  }

  lemma PassKeepsDates(p: Progress, d: Disk, accepted: bool)
    ensures var (q, pass) := OnePass(p, d, accepted);
            q.dates == p.dates && (pass == Passed ==> p.currentDate < |p.dates|)
  {
    hide ComDate.ValidStamp, ComDate.Key, ExtentOf, PlanOf;
  }

  lemma {:induction false} PlansAreShort(ms: seq<Moment>)
    ensures Run(NO_TRANSFER, ms).plan.lastChunkSize <= TRANSFER_CHUNK_SIZE
    decreases |ms|
  {
    hide Loop, Wanted;
    if ms != [] {
      var past, m := ms[..|ms| - 1], ms[|ms| - 1];
      PlansAreShort(past);
      if m.event.CycleEvent? { LoopSendsOne(Run(NO_TRANSFER, past), m.disk, m.event.accepted); }
    }
  }

  /**
   * A transfer leaves the link to live telemetry: in any run, whatever is requested and whatever the card does, a
   * cycle sends at most one payload, of at most 2048 characters, and none without network or while none is requested.
   */
  lemma OneChunkACycle(ms: seq<Moment>, available: bool, accepted: bool, d: Disk)
    ensures var p := Run(NO_TRANSFER, ms); var q := Cycled(p, available, d, accepted);
            SentOne(p, q) && (!available || !accepted || !p.active ==> q.sent == p.sent)
  {
    hide Loop;
    PlansAreShort(ms);
    LoopSendsOne(Run(NO_TRANSFER, ms), d, accepted);
  }
}
