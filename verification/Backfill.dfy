/**
 * Backfill transfers of src/app/TelemSwc: requested days are sent chunk by chunk, one chunk a cycle, over whatever
 * the broker answers and whatever is logged meanwhile.
 */
module Backfill {
  import opened Base
  import opened FsAbs
  import opened ComTransfer
  import ComDate

  const CHUNKS_PER_CYCLE := 1

  // ---------------------------------------------------------------------------------------------
  // A transfer
  // ---------------------------------------------------------------------------------------------

  /**
   * How a requested date was dealt with: sent whole; named no date; had no file, or an empty one; or given up when its
   * file could not be read. The bytes are those the file had when it was last planned.
   */
  datatype Served = Whole(bytes: string) | Unnamed | Missing | Empty | Abandoned(bytes: string)

  /** An accepted publish: which requested date it was for, and its payload. */
  datatype Sent = Sent(date: nat, payload: string)

  /**
   * TelemSwc_Backfill, with ghost history: the planned file's bytes, how the dates behind were served, and the
   * accepted publishes since the request.
   */
  datatype Progress = Progress(
    dates: seq<string>,
    currentDate: nat,
    plan: ChunkPlan,
    currentChunk: nat,
    active: bool,
    snapshot: string,
    served: seq<Served>,
    sent: seq<Sent>)

  /** What FsAbs offers at one moment: the card, whether it is in use, and the requested dates whose reads fail. */
  datatype Disk = Disk(card: Card, mounted: bool, failing: set<nat>)

  predicate Readable(d: Disk, file: nat) {
    d.mounted && file in d.card
  }

  /** How one pass of the serving loop ends: a chunk accepted, a date passed, or nothing more this cycle. */
  datatype Pass = Accepted | Passed | Stopped

  function NextDate(p: Progress, how: Served): Progress {
    p.(currentDate := p.currentDate + 1, currentChunk := 0, served := p.served + [how])
  }

  function Planned(p: Progress, content: string): Progress {
    p.(plan := PlanOf(|content|, TRANSFER_CHUNK_SIZE), snapshot := content)
  }

  function ChunkPass(p: Progress, file: nat, d: Disk, accepted: bool): (Progress, Pass) {
    match ExtentOf(p.plan, p.currentChunk, TRANSFER_CHUNK_SIZE)
    case None => (NextDate(p, Whole(p.snapshot)), Passed)
    case Some((offset, length)) =>
      if !Readable(d, file) || p.currentDate in d.failing then (NextDate(p, Abandoned(p.snapshot)), Passed)
      else if !accepted then (p, Stopped)
      else
        (p.(currentChunk := p.currentChunk + 1,
            sent := p.sent + [Sent(p.currentDate, Chunk(d.card[file], offset, length))]), Accepted)
  }

  function OnePass(p: Progress, d: Disk, accepted: bool): (Progress, Pass) {
    if p.currentDate >= |p.dates| then (p.(active := false), Stopped)
    else
      var date := p.dates[p.currentDate];
      if !ComDate.ValidStamp(date) then (NextDate(p, Unnamed), Passed)
      else
        var file := ComDate.Key(date);
        if p.currentChunk > 0 then ChunkPass(p, file, d, accepted)
        else if !Readable(d, file) then (NextDate(p, Missing), Passed)
        else if d.card[file] == "" then
          (NextDate(p.(plan := PlanOf(0, TRANSFER_CHUNK_SIZE)), Empty), Passed)
        else ChunkPass(Planned(p, d.card[file]), file, d, accepted)
  }

  /** The serving loop, which ends because every pass that does not end it leaves a date behind. */
  function Loop(p: Progress, d: Disk, accepted: bool): Progress
    decreases |p.dates| - p.currentDate
  {
    var (q, pass) := OnePass(p, d, accepted);
    if pass == Passed && q.currentDate > p.currentDate then Loop(q, d, accepted) else q
  }

  function Cycled(p: Progress, available: bool, d: Disk, accepted: bool): Progress {
    if p.active && available then Loop(p, d, accepted) else p
  }

  function Requested(p: Progress, request: string): Progress {
    var wanted := Wanted(Bounded(request));
    if p.active || wanted == [] then p
    else p.(dates := wanted[..Min(|wanted|, MAX_BACKFILL_DATES)], currentDate := 0, currentChunk := 0, active := true,
            plan := p.plan.(chunkCount := 0), served := [], sent := [])
  }

  const NO_TRANSFER := Progress([], 0, ChunkPlan(0, 0, 0), 0, false, "", [], [])

  // ---------------------------------------------------------------------------------------------
  // What a transfer keeps
  // ---------------------------------------------------------------------------------------------

  /** The payloads accepted for one date, put together. */
  function PayloadOf(sent: seq<Sent>, date: nat): string
    decreases |sent|
  {
    if sent == [] then ""
    else
      var last := sent[|sent| - 1];
      PayloadOf(sent[..|sent| - 1], date) + if last.date == date then last.payload else ""
  }

  lemma PayloadSnoc(sent: seq<Sent>, s: Sent, date: nat)
    ensures PayloadOf(sent + [s], date) == PayloadOf(sent, date) + if s.date == date then s.payload else ""
  {
    assert (sent + [s])[..|sent|] == sent;
  }

  lemma {:induction false} NoPayload(sent: seq<Sent>, date: nat)
    requires forall i :: 0 <= i < |sent| ==> sent[i].date != date
    ensures PayloadOf(sent, date) == ""
    decreases |sent|
  {
    if sent != [] { NoPayload(sent[..|sent| - 1], date); }
  }

  /** What was sent for a date that has been dealt with: all its bytes, some of the first, or nothing. */
  predicate Accounts(how: Served, payload: string) {
    match how
    case Whole(bytes) => bytes != "" && payload == bytes
    case Abandoned(bytes) => payload < bytes
    case _ => payload == ""
  }

  /** The dates behind are settled; nothing has been sent for the dates ahead. */
  predicate Settled(p: Progress) {
    && (p.active ==> |p.served| == p.currentDate <= |p.dates|)
    && |p.served| <= p.currentDate && |p.served| <= |p.dates|
    && (forall i :: 0 <= i < |p.served| ==> Accounts(p.served[i], PayloadOf(p.sent, i)))
    && (forall i :: 0 <= i < |p.sent| ==>
          p.sent[i].date < p.currentDate || (p.sent[i].date == p.currentDate && p.currentChunk > 0))
  }

  /** The file being served: what was accepted is the first chunks of what was planned. */
  predicate Serving(p: Progress) {
    p.currentChunk > 0 ==>
      && p.active && p.currentDate < |p.dates| && ComDate.ValidStamp(p.dates[p.currentDate])
      && p.snapshot != "" && p.plan == PlanOf(|p.snapshot|, TRANSFER_CHUNK_SIZE)
      && PayloadOf(p.sent, p.currentDate) == p.snapshot[..CoveredBy(|p.snapshot|, TRANSFER_CHUNK_SIZE, p.currentChunk)]
  }

  predicate Coherent(p: Progress) {
    Settled(p) && Serving(p)
  }

  /** The part of the file that the next chunk covers, if the file is there, reads as it was planned. */
  predicate Matches(p: Progress, file: nat, card: Card) {
    var e := ExtentOf(p.plan, p.currentChunk, TRANSFER_CHUNK_SIZE);
    file in card && e.Some? ==> Chunk(card[file], e.value.0, e.value.1) == Chunk(p.snapshot, e.value.0, e.value.1)
  }

  /** The file being served has been appended to or removed, not replaced, as far as the next chunk can tell. */
  predicate Undisturbed(p: Progress, card: Card) {
    p.currentChunk > 0 && p.currentDate < |p.dates| && ComDate.ValidStamp(p.dates[p.currentDate]) ==>
      Matches(p, ComDate.Key(p.dates[p.currentDate]), card)
  }

  /** A file that starts with the snapshot reads as the snapshot wherever a plan of it looks. */
  lemma ExtensionMatches(content: string, snapshot: string, k: nat)
    requires snapshot != "" && snapshot <= content
    ensures var e := ExtentOf(PlanOf(|snapshot|, TRANSFER_CHUNK_SIZE), k, TRANSFER_CHUNK_SIZE);
            e.Some? ==> Chunk(content, e.value.0, e.value.1) == Chunk(snapshot, e.value.0, e.value.1)
  {
    hide PlanOf, ExtentOf, CoveredBy;
    PlanOfIsPlan(|snapshot|, TRANSFER_CHUNK_SIZE);
    ExtentsTile(PlanOf(|snapshot|, TRANSFER_CHUNK_SIZE), k, TRANSFER_CHUNK_SIZE, |snapshot|);
    CoveredWithin(|snapshot|, k + 1);
  }

  lemma CoveredWithin(size: nat, k: nat)
    ensures CoveredBy(size, TRANSFER_CHUNK_SIZE, k) <= size
  {}

  /** The planned bytes of a chunk continue the planned bytes before it, and no other bytes do. */
  lemma ChunkContinues(snapshot: string, from: nat, to: nat, bytes: string)
    requires from < to <= |snapshot|
    ensures Chunk(snapshot, from, to - from) != ""
    ensures snapshot[..from] + bytes == snapshot[..to] <==> bytes == Chunk(snapshot, from, to - from)
  {
    var chunk := snapshot[from..to];
    assert Chunk(snapshot, from, to - from) == chunk;
    assert snapshot[..from] + chunk == snapshot[..to];
    if snapshot[..from] + bytes == snapshot[..to] {
      assert bytes == (snapshot[..from] + bytes)[from..] == snapshot[..to][from..] == chunk;
    }
  }

  lemma NextDateIsCoherent(p: Progress, how: Served)
    requires Settled(p) && p.active && p.currentDate < |p.dates|
    requires Accounts(how, PayloadOf(p.sent, p.currentDate))
    ensures Coherent(NextDate(p, how))
  {
    hide PayloadOf;
  }

  /** What a chunk pass needs: a plan for the snapshot, of which the chunks so far have been accepted. */
  predicate MidFile(p: Progress) {
    && Settled(p) && p.active && p.currentDate < |p.dates| && ComDate.ValidStamp(p.dates[p.currentDate])
    && p.snapshot != "" && p.plan == PlanOf(|p.snapshot|, TRANSFER_CHUNK_SIZE)
    && PayloadOf(p.sent, p.currentDate) == p.snapshot[..CoveredBy(|p.snapshot|, TRANSFER_CHUNK_SIZE, p.currentChunk)]
  }

  lemma ChunkPassIsCoherent(p: Progress, d: Disk, accepted: bool)
    requires MidFile(p) && Matches(p, ComDate.Key(p.dates[p.currentDate]), d.card)
    ensures Coherent(ChunkPass(p, ComDate.Key(p.dates[p.currentDate]), d, accepted).0)
  {
    hide PayloadOf, PlanOf, Chunk, ComDate.Key;
    var file, size := ComDate.Key(p.dates[p.currentDate]), |p.snapshot|;
    PlanOfIsPlan(size, TRANSFER_CHUNK_SIZE);
    ExtentsTile(p.plan, p.currentChunk, TRANSFER_CHUNK_SIZE, size);
    match ExtentOf(p.plan, p.currentChunk, TRANSFER_CHUNK_SIZE) {
      case None =>
        assert p.snapshot[..size] == p.snapshot;
        NextDateIsCoherent(p, Whole(p.snapshot));
      case Some((offset, length)) =>
        if !Readable(d, file) || p.currentDate in d.failing {
          PartIsSent(p);
          NextDateIsCoherent(p, Abandoned(p.snapshot));
        } else if accepted {
          CoveredWithin(size, p.currentChunk + 1);
          ChunkContinues(p.snapshot, offset, offset + length, Chunk(d.card[file], offset, length));
          SendIsCoherent(p, Sent(p.currentDate, Chunk(d.card[file], offset, length)));
        }
    }
  }

  lemma PartIsSent(p: Progress)
    requires MidFile(p) && ExtentOf(p.plan, p.currentChunk, TRANSFER_CHUNK_SIZE).Some?
    ensures PayloadOf(p.sent, p.currentDate) < p.snapshot
  {
    hide PayloadOf, PlanOf, ExtentOf;
    PlanOfIsPlan(|p.snapshot|, TRANSFER_CHUNK_SIZE);
    ExtentsTile(p.plan, p.currentChunk, TRANSFER_CHUNK_SIZE, |p.snapshot|);
  }

  lemma SendIsCoherent(p: Progress, s: Sent)
    requires MidFile(p) && s.date == p.currentDate
    requires PayloadOf(p.sent, p.currentDate) + s.payload
          == p.snapshot[..CoveredBy(|p.snapshot|, TRANSFER_CHUNK_SIZE, p.currentChunk + 1)]
    ensures Coherent(p.(currentChunk := p.currentChunk + 1, sent := p.sent + [s]))
  {
    hide PayloadOf, PlanOf, CoveredBy;
    PayloadSnoc(p.sent, s, p.currentDate);
    forall i | 0 <= i < |p.served|
      ensures PayloadOf(p.sent + [s], i) == PayloadOf(p.sent, i)
    {
      PayloadSnoc(p.sent, s, i);
      assert PayloadOf(p.sent, i) + "" == PayloadOf(p.sent, i);
    }
  }

  /**
   * A chunk that is sent continues the planned file exactly when the file reads there as it was planned: a file
   * removed and written anew between two chunks of a transfer, and only that, mixes two files in one payload.
   */
  lemma DisturbedIff(p: Progress, d: Disk)
    requires Coherent(p) && p.currentChunk > 0 && p.currentDate !in d.failing
    requires Readable(d, ComDate.Key(p.dates[p.currentDate]))
    requires ExtentOf(p.plan, p.currentChunk, TRANSFER_CHUNK_SIZE).Some?
    ensures var (q, pass) := ChunkPass(p, ComDate.Key(p.dates[p.currentDate]), d, true);
            && pass == Accepted
            && (Coherent(q) <==> Undisturbed(p, d.card))
            && (PayloadOf(q.sent, p.currentDate)
                  == p.snapshot[..CoveredBy(|p.snapshot|, TRANSFER_CHUNK_SIZE, q.currentChunk)]
                <==> Undisturbed(p, d.card))
  {
    hide PayloadOf, PlanOf, Chunk, ComDate.Key, Settled, ExtentOf, CoveredBy;
    var file, size := ComDate.Key(p.dates[p.currentDate]), |p.snapshot|;
    var (offset, length) := ExtentOf(p.plan, p.currentChunk, TRANSFER_CHUNK_SIZE).value;
    var bytes := Chunk(d.card[file], offset, length);
    PlanOfIsPlan(size, TRANSFER_CHUNK_SIZE);
    ExtentsTile(p.plan, p.currentChunk, TRANSFER_CHUNK_SIZE, size);
    CoveredWithin(size, p.currentChunk + 1);
    ChunkContinues(p.snapshot, offset, offset + length, bytes);
    PayloadSnoc(p.sent, Sent(p.currentDate, bytes), p.currentDate);
    assert MidFile(p);
    if Undisturbed(p, d.card) { ChunkPassIsCoherent(p, d, true); }
  }

  lemma PlannedIsMidFile(p: Progress, content: string)
    requires Coherent(p) && p.active && p.currentDate < |p.dates| && ComDate.ValidStamp(p.dates[p.currentDate])
    requires p.currentChunk == 0 && content != ""
    ensures MidFile(Planned(p, content))
  {
    hide ComDate.ValidStamp, PlanOf;
    NoPayload(p.sent, p.currentDate);
  }

  lemma OnePassIsCoherent(p: Progress, d: Disk, accepted: bool)
    requires Coherent(p) && p.active && Undisturbed(p, d.card)
    ensures var (q, pass) := OnePass(p, d, accepted);
            && Coherent(q) && q.dates == p.dates
            && (pass == Passed ==> q.active && q.currentChunk == 0 && q.currentDate == p.currentDate + 1 <= |p.dates|)
  {
    hide ComDate.Key, PlanOf, PayloadOf, ExtentOf;
    if p.currentChunk == 0 { NoPayload(p.sent, p.currentDate); }
    if p.currentDate < |p.dates| && ComDate.ValidStamp(p.dates[p.currentDate]) {
      var file := ComDate.Key(p.dates[p.currentDate]);
      if p.currentChunk > 0 {
        ChunkPassIsCoherent(p, d, accepted);
      } else if Readable(d, file) && d.card[file] != "" {
        PlannedIsMidFile(p, d.card[file]);
        ChunkPassIsCoherent(Planned(p, d.card[file]), d, accepted);
      } else if Readable(d, file) {
        NextDateIsCoherent(p.(plan := PlanOf(0, TRANSFER_CHUNK_SIZE)), Empty);
      } else {
        NextDateIsCoherent(p, Missing);
      }
    } else if p.currentDate < |p.dates| {
      NextDateIsCoherent(p, Unnamed);
    }
  }

  lemma {:induction false} LoopIsCoherent(p: Progress, d: Disk, accepted: bool)
    requires Coherent(p) && p.active && Undisturbed(p, d.card)
    ensures Coherent(Loop(p, d, accepted)) && Loop(p, d, accepted).dates == p.dates
    decreases |p.dates| - p.currentDate
  {
    hide Coherent, OnePass;
    OnePassIsCoherent(p, d, accepted);
    var (q, pass) := OnePass(p, d, accepted);
    if pass == Passed && q.currentDate > p.currentDate { LoopIsCoherent(q, d, accepted); }
  }

  // ---------------------------------------------------------------------------------------------
  // Whole transfers
  // ---------------------------------------------------------------------------------------------

  datatype Event = RequestEvent(request: string) | CycleEvent(available: bool, accepted: bool)

  /** An event, and the disk as it is then. */
  datatype Moment = Moment(event: Event, disk: Disk)

  function Step(p: Progress, m: Moment): Progress {
    match m.event
    case RequestEvent(request) => Requested(p, request)
    case CycleEvent(available, accepted) => Cycled(p, available, m.disk, accepted)
  }

  function Run(p: Progress, ms: seq<Moment>): Progress
    decreases |ms|
  {
    if ms == [] then p else Step(Run(p, ms[..|ms| - 1]), ms[|ms| - 1])
  }

  /** At every moment of the run the next chunk reads as it was planned. */
  predicate NeverDisturbed(p: Progress, ms: seq<Moment>)
    decreases |ms|
  {
    ms == [] ||
    (NeverDisturbed(p, ms[..|ms| - 1]) && Undisturbed(Run(p, ms[..|ms| - 1]), ms[|ms| - 1].disk.card))
  }

  predicate Shows(card: Card, file: nat, bytes: string) {
    file in card && card[file] == bytes
  }

  /**
   * The bytes were a requested date's whole file at moment j, and that is when the first chunk was accepted for it;
   * what was accepted up to then is still part of the transfer.
   */
  ghost predicate StartedAt(ms: seq<Moment>, i: nat, bytes: string, j: nat)
    requires j < |ms| && i < |Run(NO_TRANSFER, ms).dates|
  {
    var before, after, now := Run(NO_TRANSFER, ms[..j]), Run(NO_TRANSFER, ms[..j + 1]), Run(NO_TRANSFER, ms);
    && ComDate.ValidStamp(now.dates[i]) && Shows(ms[j].disk.card, ComDate.Key(now.dates[i]), bytes)
    && before.dates == now.dates && before.sent <= after.sent <= now.sent
    && PayloadOf(before.sent, i) == "" && PayloadOf(after.sent, i) != ""
  }

  ghost predicate Started(ms: seq<Moment>, i: nat, bytes: string) {
    i < |Run(NO_TRANSFER, ms).dates| && exists j :: 0 <= j < |ms| && StartedAt(ms, i, bytes, j)
  }

  /** Why a date was dealt with as it was, on the disk as it was then. */
  predicate Reason(how: Served, date: string, i: nat, d: Disk) {
    match how
    case Unnamed => !ComDate.ValidStamp(date)
    case Missing => ComDate.ValidStamp(date) && !Readable(d, ComDate.Key(date))
    case Empty => ComDate.ValidStamp(date) && Readable(d, ComDate.Key(date)) && d.card[ComDate.Key(date)] == ""
    case Abandoned(_) => ComDate.ValidStamp(date) && (!Readable(d, ComDate.Key(date)) || i in d.failing)
    case Whole(_) => ComDate.ValidStamp(date)
  }

  /** A date was left behind at moment j of the transfer, for that reason. */
  ghost predicate LeftAt(ms: seq<Moment>, i: nat, j: nat)
    requires j < |ms| && i < |Run(NO_TRANSFER, ms).served|
  {
    var before, after, now := Run(NO_TRANSFER, ms[..j]), Run(NO_TRANSFER, ms[..j + 1]), Run(NO_TRANSFER, ms);
    && before.dates == after.dates == now.dates && i < |now.dates|
    && |before.served| <= i < |after.served| && after.served <= now.served
    && Reason(now.served[i], now.dates[i], i, ms[j].disk)
  }

  ghost predicate Behind(ms: seq<Moment>, i: nat) {
    i < |Run(NO_TRANSFER, ms).served| && exists j :: 0 <= j < |ms| && LeftAt(ms, i, j)
  }

  /** The bytes were a requested date's whole file at some moment. */
  ghost predicate Seen(ms: seq<Moment>, i: nat, bytes: string) {
    var now := Run(NO_TRANSFER, ms);
    i < |now.dates| && ComDate.ValidStamp(now.dates[i]) &&
    exists j :: 0 <= j < |ms| && Shows(ms[j].disk.card, ComDate.Key(now.dates[i]), bytes)
  }

  /** A date left behind had its reason, and what it carries was its file. */
  ghost predicate Explained(ms: seq<Moment>, i: nat)
    requires i < |Run(NO_TRANSFER, ms).served|
  {
    var how := Run(NO_TRANSFER, ms).served[i];
    && Behind(ms, i)
    && (how.Whole? ==> Started(ms, i, how.bytes))
    && (how.Abandoned? ==> Seen(ms, i, how.bytes))
  }

  /** What is being served was a whole file when its first chunk was accepted, and the dates behind are explained. */
  ghost predicate Grounded(ms: seq<Moment>) {
    var p := Run(NO_TRANSFER, ms);
    && (p.currentChunk > 0 ==> Started(ms, p.currentDate, p.snapshot))
    && (forall i :: 0 <= i < |p.served| ==> Explained(ms, i))
  }

  /** What a date left behind now carries was being served in `p`, or is its file now. */
  predicate Carries(p: Progress, how: Served, date: string, i: nat, d: Disk) {
    match how
    case Whole(bytes) => i == p.currentDate && p.currentChunk > 0 && bytes == p.snapshot
    case Abandoned(bytes) =>
      (i == p.currentDate && p.currentChunk > 0 && bytes == p.snapshot) ||
      (ComDate.ValidStamp(date) && Shows(d.card, ComDate.Key(date), bytes))
    case _ => true
  }

  /** The dates left behind between `p` and `q`, by what happens on one disk. */
  predicate Leaves(p: Progress, q: Progress, d: Disk) {
    && q.dates == p.dates && p.served <= q.served
    && (forall i :: |p.served| <= i < |q.served| ==> LeavesOne(p, q, i, d))
  }

  predicate LeavesOne(p: Progress, q: Progress, i: nat, d: Disk)
    requires i < |q.served|
  {
    i < |q.dates| && Reason(q.served[i], q.dates[i], i, d) && Carries(p, q.served[i], q.dates[i], i, d)
  }

  /** `q` comes after `p` in one transfer. */
  ghost predicate Follows(p: Progress, q: Progress, d: Disk) {
    && Leaves(p, q, d) && p.sent <= q.sent
    && (q.currentChunk > 0 ==>
          (p.currentChunk > 0 && q.currentDate == p.currentDate && q.snapshot == p.snapshot) || Begins(p, q, d))
  }

  ghost predicate Begins(p: Progress, q: Progress, d: Disk) {
    && q.currentDate < |q.dates| && ComDate.ValidStamp(q.dates[q.currentDate])
    && Shows(d.card, ComDate.Key(q.dates[q.currentDate]), q.snapshot)
    && (forall k :: 0 <= k < |p.sent| ==> p.sent[k].date != q.currentDate)
    && PayloadOf(q.sent, q.currentDate) != ""
  }

  lemma OnePassFollows(p: Progress, d: Disk, accepted: bool)
    requires Coherent(p) && p.active && Undisturbed(p, d.card)
    ensures Follows(p, OnePass(p, d, accepted).0, d)
  {
    hide PayloadOf, PlanOf, ComDate.Key, ExtentOf, Chunk;
    var q := OnePass(p, d, accepted).0;
    OnePassIsCoherent(p, d, accepted);
    if q.currentChunk > 0 && p.currentChunk == 0 {
      SomeCovered(|q.snapshot|, q.currentChunk);
    }
    if p.currentChunk == 0 && p.currentDate < |p.dates| && ComDate.ValidStamp(p.dates[p.currentDate]) {
      var file := ComDate.Key(p.dates[p.currentDate]);
      if Readable(d, file) && d.card[file] != "" { FirstChunkExists(|d.card[file]|); }
    }
  }

  lemma SomeCovered(size: nat, k: nat)
    requires size > 0 && k > 0
    ensures CoveredBy(size, TRANSFER_CHUNK_SIZE, k) > 0
  {}

  /** A plan for a file that is not empty has a first chunk. */
  lemma FirstChunkExists(size: nat)
    requires size > 0
    ensures ExtentOf(PlanOf(size, TRANSFER_CHUNK_SIZE), 0, TRANSFER_CHUNK_SIZE).Some?
  {
    PlanOfIsPlan(size, TRANSFER_CHUNK_SIZE);
    ExtentsTile(PlanOf(size, TRANSFER_CHUNK_SIZE), 0, TRANSFER_CHUNK_SIZE, size);
  }

  lemma LeavesThen(p: Progress, q: Progress, r: Progress, d: Disk)
    requires Leaves(p, q, d) && q.currentChunk == 0 && Leaves(q, r, d)
    ensures Leaves(p, r, d)
  {
    hide Reason, Shows;
    forall i | |p.served| <= i < |r.served|
      ensures LeavesOne(p, r, i, d)
    {
      if i < |q.served| {
        assert LeavesOne(p, q, i, d) && r.served[i] == q.served[i];
      } else {
        assert LeavesOne(q, r, i, d);
      }
    }
  }

  lemma FollowsThen(p: Progress, q: Progress, r: Progress, d: Disk)
    requires Follows(p, q, d) && q.currentChunk == 0 && Follows(q, r, d)
    ensures Follows(p, r, d)
  {
    hide PayloadOf, Leaves;
    LeavesThen(p, q, r, d);
  }

  lemma {:induction false} LoopFollows(p: Progress, d: Disk, accepted: bool)
    requires Coherent(p) && p.active && Undisturbed(p, d.card)
    ensures Follows(p, Loop(p, d, accepted), d)
    decreases |p.dates| - p.currentDate
  {
    hide Coherent, OnePass, Follows;
    OnePassIsCoherent(p, d, accepted);
    OnePassFollows(p, d, accepted);
    var (q, pass) := OnePass(p, d, accepted);
    if pass == Passed && q.currentDate > p.currentDate {
      LoopFollows(q, d, accepted);
      FollowsThen(p, q, Loop(q, d, accepted), d);
    }
  }

  /** What had started before a moment has still, when the transfer went on. */
  lemma StartedStays(past: seq<Moment>, m: Moment, i: nat, bytes: string)
    requires Started(past, i, bytes)
    requires var p, q := Run(NO_TRANSFER, past), Run(NO_TRANSFER, past + [m]); q.dates == p.dates && p.sent <= q.sent
    ensures Started(past + [m], i, bytes)
  {
    hide Run, PayloadOf;
    var j :| 0 <= j < |past| && StartedAt(past, i, bytes, j);
    var ms := past + [m];
    assert ms[..j] == past[..j] && ms[..j + 1] == past[..j + 1] && ms[j] == past[j];
    assert StartedAt(ms, i, bytes, j);
  }

  lemma StartsNow(past: seq<Moment>, m: Moment)
    requires var p, q := Run(NO_TRANSFER, past), Run(NO_TRANSFER, past + [m]);
             q.dates == p.dates && p.sent <= q.sent && Begins(p, q, m.disk)
    ensures var q := Run(NO_TRANSFER, past + [m]); Started(past + [m], q.currentDate, q.snapshot)
  {
    hide Run, PayloadOf;
    var ms := past + [m];
    var q := Run(NO_TRANSFER, ms);
    NoPayload(Run(NO_TRANSFER, past).sent, q.currentDate);
    assert ms[..|past|] == past && ms[..|past| + 1] == ms && ms[|past|] == m;
    assert StartedAt(ms, q.currentDate, q.snapshot, |past|);
  }

  lemma StepIsGrounded(past: seq<Moment>, m: Moment)
    requires Grounded(past)
    requires Follows(Run(NO_TRANSFER, past), Run(NO_TRANSFER, past + [m]), m.disk)
    ensures Grounded(past + [m])
  {
    hide Run, PayloadOf, Started, Begins;
    var p, q := Run(NO_TRANSFER, past), Run(NO_TRANSFER, past + [m]);
    if q.currentChunk > 0 {
      if Begins(p, q, m.disk) {
        StartsNow(past, m);
      } else {
        StartedStays(past, m, p.currentDate, p.snapshot);
      }
    }
    forall i | 0 <= i < |q.served|
      ensures Explained(past + [m], i)
    {
      if i < |p.served| { ExplainedStays(past, m, i); } else { ExplainedNow(past, m, i); }
    }
  }

  lemma ExplainedStays(past: seq<Moment>, m: Moment, i: nat)
    requires i < |Run(NO_TRANSFER, past).served| && Explained(past, i)
    requires Follows(Run(NO_TRANSFER, past), Run(NO_TRANSFER, past + [m]), m.disk)
    ensures Explained(past + [m], i)
  {
    hide Run, PayloadOf, Started, Begins, Reason, Carries, Shows;
    var ms := past + [m];
    var j :| 0 <= j < |past| && LeftAt(past, i, j);
    assert ms[..j] == past[..j] && ms[..j + 1] == past[..j + 1] && ms[j] == past[j];
    assert LeftAt(ms, i, j);
    match Run(NO_TRANSFER, past).served[i]
    case Whole(bytes) => StartedStays(past, m, i, bytes);
    case Abandoned(bytes) => SeenStays(past, m, i, bytes);
    case _ =>
  }

  lemma SeenStays(past: seq<Moment>, m: Moment, i: nat, bytes: string)
    requires Seen(past, i, bytes) && Run(NO_TRANSFER, past + [m]).dates == Run(NO_TRANSFER, past).dates
    ensures Seen(past + [m], i, bytes)
  {
    hide Run, Shows;
    var date := Run(NO_TRANSFER, past).dates[i];
    var j :| 0 <= j < |past| && Shows(past[j].disk.card, ComDate.Key(date), bytes);
    assert (past + [m])[j] == past[j];
  }

  lemma StartedIsSeen(ms: seq<Moment>, i: nat, bytes: string)
    requires Started(ms, i, bytes)
    ensures Seen(ms, i, bytes)
  {
    hide Run, Shows;
    var j :| 0 <= j < |ms| && StartedAt(ms, i, bytes, j);
  }

  lemma ExplainedNow(past: seq<Moment>, m: Moment, i: nat)
    requires Grounded(past)
    requires var p, q := Run(NO_TRANSFER, past), Run(NO_TRANSFER, past + [m]);
             Follows(p, q, m.disk) && |p.served| <= i < |q.served|
    ensures Explained(past + [m], i)
  {
    hide Run, PayloadOf, Started, Begins, Reason, Shows;
    var ms := past + [m];
    var p, q := Run(NO_TRANSFER, past), Run(NO_TRANSFER, ms);
    assert ms[..|past|] == past && ms[..|past| + 1] == ms && ms[|past|] == m;
    assert LeavesOne(p, q, i, m.disk);
    assert LeftAt(ms, i, |past|);
    if q.served[i].Whole? || (q.served[i].Abandoned? && i == p.currentDate && p.currentChunk > 0 &&
                              q.served[i].bytes == p.snapshot) {
      StartedStays(past, m, i, p.snapshot);
      StartedIsSeen(ms, i, p.snapshot);
    } else if q.served[i].Abandoned? {
      assert Shows(ms[|past|].disk.card, ComDate.Key(q.dates[i]), q.served[i].bytes);
    }
  }

  lemma RequestIsCoherent(p: Progress, request: string)
    requires Coherent(p)
    ensures Coherent(Requested(p, request))
    ensures Requested(p, request) == p ||
            (Requested(p, request).served == [] && Requested(p, request).currentChunk == 0)
  {
    hide Wanted, PayloadOf, PlanOf;
  }

  lemma {:induction false} RunIsCoherent(ms: seq<Moment>)
    requires NeverDisturbed(NO_TRANSFER, ms)
    ensures Coherent(Run(NO_TRANSFER, ms)) && Grounded(ms)
    decreases |ms|
  {
    hide Coherent, Requested, Loop, Undisturbed, Started;
    if ms == [] {
      StartIsCoherent();
    } else {
      var past, m := ms[..|ms| - 1], ms[|ms| - 1];
      var p := Run(NO_TRANSFER, past);
      RunIsCoherent(past);
      assert past + [m] == ms;
      match m.event
      case RequestEvent(request) =>
        RequestIsCoherent(p, request);
        if Requested(p, request) == p { StepIsGrounded(past, m); }
      case CycleEvent(available, accepted) =>
        if p.active && available {
          LoopIsCoherent(p, m.disk, accepted);
          LoopFollows(p, m.disk, accepted);
        }
        StepIsGrounded(past, m);
    }
  }

  lemma StartIsCoherent()
    ensures Coherent(NO_TRANSFER) && Grounded([])
  {}

  /**
   * Backfill sends exactly the file: over any requests and cycles, any publishes refused, any failing reads, and any
   * records logged meanwhile, the payloads accepted for a date that was served whole, put together, are that date's
   * file as it stood at the planning whose first chunk was accepted. For a date given up they are less than the file
   * as it was planned, and nothing was sent for dates that named no day, had no file or an empty one, or are still
   * to come. Each date that has been left behind had its reason at the moment it was.
   */
  lemma BackfillSendsTheFile(ms: seq<Moment>, i: nat)
    requires NeverDisturbed(NO_TRANSFER, ms)
    requires i < |Run(NO_TRANSFER, ms).served|
    ensures var p := Run(NO_TRANSFER, ms); var payload := PayloadOf(p.sent, i);
            && i < |p.dates| && Behind(ms, i)
            && Accounts(p.served[i], payload)
            && (p.served[i].Whole? ==> Started(ms, i, p.served[i].bytes))
            && (p.served[i].Abandoned? ==> Seen(ms, i, p.served[i].bytes))
            && (forall k :: 0 <= k < |p.sent| ==> p.sent[k].date <= p.currentDate)
  {
    hide Run, NeverDisturbed, PayloadOf, Started, Seen, Behind, PlanOf;
    RunIsCoherent(ms);
    assert Explained(ms, i);
  }

  /** A date whose file was always there, never empty, and never failed to read arrives whole. */
  lemma StayingFilesArrive(ms: seq<Moment>, i: nat)
    requires NeverDisturbed(NO_TRANSFER, ms) && i < |Run(NO_TRANSFER, ms).served|
    requires forall j :: 0 <= j < |ms| ==> Stays(Run(NO_TRANSFER, ms), i, ms[j].disk)
    ensures Run(NO_TRANSFER, ms).served[i].Whole?
  {
    hide Run, NeverDisturbed, PlanOf, PayloadOf, Started, Seen;
    RunIsCoherent(ms);
    assert Explained(ms, i);
    var j :| 0 <= j < |ms| && LeftAt(ms, i, j);
    assert Stays(Run(NO_TRANSFER, ms), i, ms[j].disk);
  }

  predicate Stays(p: Progress, i: nat, d: Disk) {
    i < |p.dates| && ComDate.ValidStamp(p.dates[i]) && Readable(d, ComDate.Key(p.dates[i])) &&
    d.card[ComDate.Key(p.dates[i])] != "" && i !in d.failing
  }

  // ---------------------------------------------------------------------------------------------
  // What disturbs a transfer
  // ---------------------------------------------------------------------------------------------

  /** What is on both cards has only been appended to. */
  predicate Kept(before: Card, after: Card) {
    forall f :: f in before && f in after ==> before[f] <= after[f]
  }

  /** Files are appended to, or removed for good, and new ones appear. */
  predicate GrowOrGo(ms: seq<Moment>) {
    forall i, j :: 0 <= i <= j < |ms| ==> Kept(ms[i].disk.card, ms[j].disk.card)
  }

  /** Such files never disturb a transfer. */
  lemma {:induction false} KeptFilesNeverDisturb(ms: seq<Moment>)
    requires GrowOrGo(ms)
    ensures NeverDisturbed(NO_TRANSFER, ms)
    decreases |ms|
  {
    hide Run, Kept, Undisturbed, Coherent, Started;
    if ms != [] {
      var past, m := ms[..|ms| - 1], ms[|ms| - 1];
      var p := Run(NO_TRANSFER, past);
      assert forall i :: 0 <= i < |past| ==> past[i] == ms[i];
      KeptFilesNeverDisturb(past);
      RunIsCoherent(past);
      if p.currentChunk > 0 {
        StartedIsSeen(past, p.currentDate, p.snapshot);
        var j :| 0 <= j < |past| && Shows(past[j].disk.card, ComDate.Key(p.dates[p.currentDate]), p.snapshot);
        assert Kept(ms[j].disk.card, ms[|ms| - 1].disk.card);
        KeptIsUndisturbed(p, ms[j].disk.card, m.disk.card);
      } else {
        IdleIsUndisturbed(p, m.disk.card);
      }
    }
  }

  lemma KeptIsUndisturbed(p: Progress, before: Card, after: Card)
    requires Coherent(p) && p.currentChunk > 0 && Kept(before, after)
    requires Shows(before, ComDate.Key(p.dates[p.currentDate]), p.snapshot)
    ensures Undisturbed(p, after)
  {
    hide ComDate.Key, PlanOf, ExtentOf, Chunk, PayloadOf, Settled;
    var file := ComDate.Key(p.dates[p.currentDate]);
    if file in after { ExtensionMatches(after[file], p.snapshot, p.currentChunk); }
  }

  lemma IdleIsUndisturbed(p: Progress, card: Card)
    requires p.currentChunk == 0
    ensures Undisturbed(p, card)
  {}

  predicate Grows(before: Card, after: Card) {
    forall f :: f in before ==> f in after && before[f] <= after[f]
  }

  /** Files that only grow from each moment to the next never disturb a transfer. */
  lemma GrowingFilesNeverDisturb(ms: seq<Moment>)
    requires forall i :: 0 < i < |ms| ==> Grows(ms[i - 1].disk.card, ms[i].disk.card)
    ensures NeverDisturbed(NO_TRANSFER, ms)
  {
    hide NeverDisturbed;
    forall i, j | 0 <= i <= j < |ms|
      ensures Kept(ms[i].disk.card, ms[j].disk.card)
    {
      GrowsFar(ms, i, j);
    }
    KeptFilesNeverDisturb(ms);
  }

  lemma {:induction false} GrowsFar(ms: seq<Moment>, i: nat, j: nat)
    requires i <= j < |ms|
    requires forall k :: 0 < k < |ms| ==> Grows(ms[k - 1].disk.card, ms[k].disk.card)
    ensures Grows(ms[i].disk.card, ms[j].disk.card)
    decreases j
  {
    if i < j {
      GrowsFar(ms, i, j - 1);
      assert Grows(ms[j - 1].disk.card, ms[j].disk.card);
    }
  }

  // ---------------------------------------------------------------------------------------------
  // Transfers come to an end
  // ---------------------------------------------------------------------------------------------

  function ChunksOf(size: nat): nat {
    PlanOf(size, TRANSFER_CHUNK_SIZE).chunkCount
  }

  predicate Sized(d: Disk, size: nat) {
    forall f :: f in d.card ==> |d.card[f]| <= size
  }

  /** Where a transfer stands in its dates, and how far in a file of at most c chunks. */
  predicate Paced(p: Progress, c: nat) {
    && (if p.active then |p.served| == p.currentDate <= |p.dates| else |p.served| == |p.dates|)
    && (p.currentChunk > 0 ==> p.active && p.currentDate < |p.dates| && p.currentChunk <= p.plan.chunkCount <= c)
  }

  /** Chunks a transfer has still to send at most. */
  function ToDo(p: Progress, c: nat): int {
    (|p.dates| - p.currentDate) * c - p.currentChunk
  }

  lemma NextDateToDo(p: Progress, how: Served, c: nat)
    ensures ToDo(NextDate(p, how), c) == ToDo(p, c) - c + p.currentChunk
  {
    assert (|p.dates| - (p.currentDate + 1)) * c == (|p.dates| - p.currentDate) * c - c;
  }

  lemma ChunksGrow(a: nat, b: nat)
    requires a <= b
    ensures ChunksOf(a) <= ChunksOf(b)
  {
    var x, y := a / TRANSFER_CHUNK_SIZE, b / TRANSFER_CHUNK_SIZE;
    assert a % TRANSFER_CHUNK_SIZE == a - x * TRANSFER_CHUNK_SIZE;
    assert b % TRANSFER_CHUNK_SIZE == b - y * TRANSFER_CHUNK_SIZE;
  }

  lemma ChunkPassPaces(p: Progress, file: nat, d: Disk, accepted: bool, c: nat)
    requires Paced(p, c) && p.active && p.currentDate < |p.dates| && 0 < p.plan.chunkCount <= c
    ensures var (q, pass) := ChunkPass(p, file, d, accepted);
            && Paced(q, c) && q.dates == p.dates && q.active && ToDo(q, c) <= ToDo(p, c)
            && (pass == Accepted ==> ToDo(q, c) < ToDo(p, c))
            && (pass == Stopped ==> !accepted) && (pass == Passed ==> q.currentDate == p.currentDate + 1)
  {
    hide Chunk, ToDo;
    NextDateToDo(p, Whole(p.snapshot), c);
    NextDateToDo(p, Abandoned(p.snapshot), c);
    SentToDo(p, c);
  }

  lemma SentToDo(p: Progress, c: nat)
    ensures forall q: Progress :: q.dates == p.dates && q.currentDate == p.currentDate ==>
              ToDo(q, c) - ToDo(p, c) == p.currentChunk - q.currentChunk
  {}

  lemma OnePassPaces(p: Progress, d: Disk, accepted: bool, size: nat)
    requires Paced(p, ChunksOf(size)) && p.active && Sized(d, size)
    ensures var (q, pass) := OnePass(p, d, accepted); var c := ChunksOf(size);
            && Paced(q, c) && q.dates == p.dates && (q.active ==> ToDo(q, c) <= ToDo(p, c))
            && (pass == Accepted ==> ToDo(q, c) < ToDo(p, c))
            && (pass == Stopped && accepted ==> !q.active)
            && (pass == Passed ==> q.active && q.currentDate == p.currentDate + 1 <= |p.dates|)
  {
    hide ChunkPass, PlanOf, ToDo, ComDate.Key;
    var c := ChunksOf(size);
    if p.currentDate < |p.dates| && ComDate.ValidStamp(p.dates[p.currentDate]) {
      var file := ComDate.Key(p.dates[p.currentDate]);
      if p.currentChunk > 0 {
        ChunkPassPaces(p, file, d, accepted, c);
      } else if Readable(d, file) && d.card[file] != "" {
        var r := Planned(p, d.card[file]);
        ChunksGrow(|d.card[file]|, size);
        PlanOfIsPlan(|d.card[file]|, TRANSFER_CHUNK_SIZE);
        SentToDo(p, c);
        ChunkPassPaces(r, file, d, accepted, c);
      } else {
        SentToDo(p, c);
        NextDateToDo(p.(plan := PlanOf(0, TRANSFER_CHUNK_SIZE)), Empty, c);
        NextDateToDo(p, Missing, c);
      }
    } else if p.currentDate < |p.dates| {
      NextDateToDo(p, Unnamed, c);
    }
  }

  lemma {:induction false} LoopPaces(p: Progress, d: Disk, accepted: bool, size: nat)
    requires Paced(p, ChunksOf(size)) && p.active && Sized(d, size)
    ensures var q := Loop(p, d, accepted); var c := ChunksOf(size);
            && Paced(q, c) && q.dates == p.dates && (q.active ==> ToDo(q, c) <= ToDo(p, c))
            && (accepted && q.active ==> ToDo(q, c) < ToDo(p, c))
    decreases |p.dates| - p.currentDate
  {
    hide OnePass, Paced, ToDo, ChunksOf, Sized;
    OnePassPaces(p, d, accepted, size);
    var (q, pass) := OnePass(p, d, accepted);
    if pass == Passed && q.currentDate > p.currentDate { LoopPaces(q, d, accepted, size); }
  }

  /** Cycles in which the network is there and the broker accepts. */
  function Good(ms: seq<Moment>): nat
    decreases |ms|
  {
    if ms == [] then 0
    else Good(ms[..|ms| - 1]) + if ms[|ms| - 1].event == CycleEvent(true, true) then 1 else 0
  }

  predicate CyclesOnly(ms: seq<Moment>, size: nat) {
    forall i :: 0 <= i < |ms| ==> ms[i].event.CycleEvent? && Sized(ms[i].disk, size)
  }

  lemma {:induction false} CyclesPace(p: Progress, ms: seq<Moment>, size: nat)
    requires Paced(p, ChunksOf(size)) && p.active && CyclesOnly(ms, size)
    ensures var q := Run(p, ms); var c := ChunksOf(size);
            Paced(q, c) && q.dates == p.dates && (q.active ==> ToDo(q, c) + Good(ms) <= ToDo(p, c))
    decreases |ms|
  {
    hide Loop, Paced, ToDo, ChunksOf, Sized;
    if ms != [] {
      var past, m := ms[..|ms| - 1], ms[|ms| - 1];
      CyclesPace(p, past, size);
      var q := Run(p, past);
      if q.active && m.event.available { LoopPaces(q, m.disk, m.event.accepted, size); }
    }
  }

  lemma {:induction false} RunAppend(p: Progress, a: seq<Moment>, b: seq<Moment>)
    ensures Run(p, a + b) == Run(Run(p, a), b)
    decreases |b|
  {
    hide Step;
    if b == [] {
      assert a + b == a;
    } else {
      assert (a + b)[..|a + b| - 1] == a + b[..|b| - 1];
      RunAppend(p, a, b[..|b| - 1]);
    }
  }

  /**
   * Every accepted request is served to its end: whatever the card does meanwhile, and however many cycles go by
   * without network or with the publish refused, once the broker has accepted in more cycles than there are chunks in
   * as many files of the largest size as dates were asked for, each of them has been dealt with.
   */
  lemma TransferCompletes(past: seq<Moment>, request: string, d: Disk, cycles: seq<Moment>, size: nat)
    requires !Run(NO_TRANSFER, past).active && Wanted(Bounded(request)) != [] && CyclesOnly(cycles, size)
    requires Good(cycles) > Min(|Wanted(Bounded(request))|, MAX_BACKFILL_DATES) * ChunksOf(size)
    ensures var q := Run(NO_TRANSFER, past + [Moment(RequestEvent(request), d)] + cycles);
            && !q.active && |q.served| == |q.dates|
            && q.dates == Wanted(Bounded(request))[..Min(|Wanted(Bounded(request))|, 16)]
  {
    hide Wanted, Good, ChunksOf, CyclesOnly;
    var m := Moment(RequestEvent(request), d);
    var p := Run(NO_TRANSFER, past);
    var r := Requested(p, request);
    assert (past + [m])[..|past|] == past;
    assert Run(NO_TRANSFER, past + [m]) == r;
    RunAppend(NO_TRANSFER, past + [m], cycles);
    CyclesPace(r, cycles, size);
    var q := Run(r, cycles);
    if q.active { NeverNegative(q, ChunksOf(size)); }
  }

  lemma NeverNegative(p: Progress, c: nat)
    requires Paced(p, c) && p.active
    ensures ToDo(p, c) >= 0
  {
    if p.currentDate < |p.dates| { TimesAtLeast(|p.dates| - p.currentDate, c); }
  }

  lemma TimesAtLeast(k: nat, c: nat)
    requires k >= 1
    ensures k * c >= c
  {
    assert k * c == (k - 1) * c + c;
  }

  // ---------------------------------------------------------------------------------------------
  // The component
  // ---------------------------------------------------------------------------------------------

  class Transfer {
    const log: RecordLog
    // TelemSwc_Backfill.
    var dates: seq<string>
    var currentDate: nat
    var plan: ChunkPlan
    var currentChunk: nat
    var active: bool
    ghost var snapshot: string
    ghost var served: seq<Served>
    ghost var sent: seq<Sent>

    ghost function State(): Progress
      reads this
    {
      Progress(dates, currentDate, plan, currentChunk, active, snapshot, served, sent)
    }

    ghost function DiskNow(failing: set<nat>): Disk
      reads log
    {
      Disk(log.card, log.mounted, failing)
    }

    constructor (log: RecordLog)
      ensures this.log == log && State() == NO_TRANSFER
    {
      this.log := log;
      dates, currentDate, plan, currentChunk, active := [], 0, ChunkPlan(0, 0, 0), 0, false;
      snapshot, served, sent := "", [], [];
    }

    /** TelemSwc_OnBackfillRequest: refused while a transfer runs, and when it names no date. */
    method OnBackfillRequest(request: string)
      modifies this
      ensures State() == Requested(old(State()), request)
    {
      hide Wanted;
      if active {
        return;
      }
      var status, named, _ := ParseBackfillRequest(request, MAX_BACKFILL_DATES);
      if status != E_OK {
        return;
      }
      dates, currentDate, currentChunk, active := named, 0, 0, true;
      plan := plan.(chunkCount := 0);
      served, sent := [], [];
    }

    method LeaveDate(ghost how: Served)
      modifies this`currentDate, this`currentChunk, this`served
      ensures State() == NextDate(old(State()), how)
    {
      currentDate, currentChunk := currentDate + 1, 0;
      served := served + [how];
    }

    /** TelemSwc_ServeBackfill; `accepted` is the broker's answer to the one publish a cycle can make. */
    method ServeBackfill(available: bool, failing: set<nat>, accepted: bool)
      modifies this
      ensures State() == Cycled(old(State()), available, DiskNow(failing), accepted)
    {
      if !active || !available {
        return;
      }
      var count := 0;
      while count < CHUNKS_PER_CYCLE
        invariant count <= CHUNKS_PER_CYCLE
        invariant Loop(old(State()), DiskNow(failing), accepted)
               == if count == 0 then Loop(State(), DiskNow(failing), accepted) else State()
        decreases if currentDate < |dates| then |dates| - currentDate else 0, CHUNKS_PER_CYCLE - count
        modifies this
      {
        hide OnePass;
        var pass := ServeOne(failing, accepted);
        match pass {
          case Accepted => count := count + 1;
          case Passed => continue;
          case Stopped => break;
        }
      }
    }

    /** One pass of the serving loop. */
    method ServeOne(failing: set<nat>, accepted: bool) returns (pass: Pass)
      modifies this
      ensures (State(), pass) == OnePass(old(State()), DiskNow(failing), accepted)
      ensures pass == Passed ==>
                currentDate == old(currentDate) + 1 && old(currentDate) < |dates| && dates == old(dates)
      ensures pass == Accepted ==> currentDate == old(currentDate) && dates == old(dates)
    {
      hide ComDate.Key, ComDate.FileName, PlanOf, ChunkPass;
      if currentDate >= |dates| {
        active := false;
        return Stopped;
      }
      var path := new char[FILENAME_SIZE];
      var named := ComDate.FormatLogFileName(path, dates[currentDate]);
      if ComDate.ValidStamp(dates[currentDate]) { NameFits(dates[currentDate]); }
      if named != E_OK {
        LeaveDate(Unnamed);
        return Passed;
      }
      var file := ComDate.Key(dates[currentDate]);
      if currentChunk == 0 {
        var sized, size := log.GetFileSize(file);
        if sized != E_OK {
          LeaveDate(Missing);
          return Passed;
        }
        plan := ComputeChunkPlan(size, TRANSFER_CHUNK_SIZE);
        if plan.chunkCount == 0 {
          LeaveDate(Empty);
          return Passed;
        }
        snapshot := log.card[file];
      }
      pass := ServeChunk(file, failing, accepted);
    }

    /** The part of a pass after planning. */
    method ServeChunk(file: nat, failing: set<nat>, accepted: bool) returns (pass: Pass)
      modifies this`currentDate, this`currentChunk, this`served, this`sent
      ensures (State(), pass) == ChunkPass(old(State()), file, DiskNow(failing), accepted)
      ensures currentDate == old(currentDate) + if pass == Passed then 1 else 0
    {
      hide Chunk;
      var extent := GetChunkExtent(plan, currentChunk, TRANSFER_CHUNK_SIZE);
      if extent == None {
        LeaveDate(Whole(snapshot));
        return Passed;
      }
      var (offset, length) := extent.value;
      var status, bytes := log.ReadFileChunk(file, offset, length, currentDate !in failing);
      if status != E_OK {
        LeaveDate(Abandoned(snapshot));
        return Passed;
      }
      if !accepted {
        return Stopped;
      }
      sent := sent + [Sent(currentDate, bytes)];
      currentChunk := currentChunk + 1;
      pass := Accepted;
    }
  }
}
