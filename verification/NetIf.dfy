/**
 * The link state machine of src/ecuabs/NetIf: one state machine, one retry policy, two bearers.
 *
 * Times are true milliseconds; the module sees them modulo 2^32 and measures with Gpt_HasElapsed.
 */
module NetIf {
  import opened Base
  import ComCsv
  import ComTransfer

  const RECONNECT_MIN_MS := 2000
  const RECONNECT_MAX_MS := 300000
  const LINK_TIMEOUT_MS := 30000
  const SESSION_TIMEOUT_MS := 15000
  const MAX_PAYLOAD_SIZE := 2368
  const MAX_SUBSCRIPTIONS := 2
  const MAX_TOPIC_SIZE := 64
  const GPT_MAX_INTERVAL_MS := 0x7FFF_FFFF

  datatype Bearer = NoBearer | Wifi | Gsm

  datatype LinkState = Down | Connecting | LinkUp | SessionUp | Backoff

  /** Module statics, and in `radios` the bearers the platform has been asked to bring up and not to stop. */
  datatype Net = Net(
    state: LinkState,
    requested: Bearer,
    active: Bearer,
    enteredMs: uint32,
    backoffMs: nat,
    currentBackoffMs: nat,
    radios: set<Bearer>)

  // ---------------------------------------------------------------------------------------------
  // Time
  // ---------------------------------------------------------------------------------------------

  function ElapsedSince(now: nat, since: uint32): uint32 {
    (now % U32 - since) % U32
  }

  predicate HasElapsed(now: nat, since: uint32, interval: nat) {
    interval > GPT_MAX_INTERVAL_MS || ElapsedSince(now, since) >= interval
  }

  /** Modular time never runs ahead of true time. */
  lemma ElapsedIsTrue(now: nat, since: nat, interval: nat)
    requires since <= now && interval <= GPT_MAX_INTERVAL_MS && HasElapsed(now, since % U32, interval)
    ensures now >= since + interval
  {
    var a, b := now / U32, since / U32;
    var d := now % U32 - since % U32;
    assert now - since == U32 * (a - b) + d;
    assert now % U32 < U32 && since % U32 < U32;
    if d < 0 {
      assert a > b;
      assert d % U32 == d + U32;
    } else {
      assert a >= b;
      assert d % U32 == d;
    }
  }

  // ---------------------------------------------------------------------------------------------
  // What each call does
  // ---------------------------------------------------------------------------------------------

  function EnterState(n: Net, state: LinkState, now: nat): Net {
    if n.state == state then n else n.(state := state, enteredMs := now % U32)
  }

  function EnterBackoff(n: Net, now: nat): Net {
    var ms := if n.backoffMs == 0 then RECONNECT_MIN_MS else Min(2 * n.backoffMs, RECONNECT_MAX_MS);
    EnterState(n.(backoffMs := ms, currentBackoffMs := ms), Backoff, now)
  }

  function Started(n: Net): Net {
    if n.requested == NoBearer then n else n.(radios := n.radios + {n.requested})
  }

  function Stopped(n: Net): Net {
    n.(radios := n.radios - {n.requested})
  }

  function Initial(now: nat): Net {
    Net(Down, NoBearer, NoBearer, now % U32, 0, 0, {})
  }

  function Requested(n: Net, bearer: Bearer, now: nat): Net {
    if n.requested == bearer then n
    else
      var m := Stopped(n).(requested := bearer, active := NoBearer, backoffMs := 0, currentBackoffMs := 0);
      if bearer == NoBearer then EnterState(m, Down, now) else Started(EnterState(m, Connecting, now))
  }

  function Released(n: Net, now: nat): Net {
    EnterState(Stopped(n).(requested := NoBearer, active := NoBearer, backoffMs := 0, currentBackoffMs := 0), Down, now)
  }

  /** What the platform answers during one cycle. */
  datatype Poll = Poll(bearerUp: bool, sessionOpened: bool, sessionAlive: bool)

  function Cycled(n: Net, p: Poll, now: nat): Net {
    match n.state
    case Down => n
    case Connecting =>
      if p.bearerUp && n.requested != NoBearer then EnterState(n.(active := n.requested), LinkUp, now)
      else if HasElapsed(now, n.enteredMs, LINK_TIMEOUT_MS) then EnterBackoff(Stopped(n), now)
      else n
    case LinkUp =>
      if !p.bearerUp || n.requested == NoBearer then EnterBackoff(n.(active := NoBearer), now)
      else if p.sessionOpened then EnterState(n.(backoffMs := 0, currentBackoffMs := 0), SessionUp, now)
      else if HasElapsed(now, n.enteredMs, SESSION_TIMEOUT_MS) then EnterBackoff(n, now)
      else n
    case SessionUp =>
      if !p.bearerUp || n.requested == NoBearer then EnterBackoff(n.(active := NoBearer), now)
      else if !p.sessionAlive then EnterBackoff(n, now)
      else n
    case Backoff =>
      if !HasElapsed(now, n.enteredMs, n.backoffMs) then n
      else if n.requested == NoBearer then EnterState(n, Down, now)
      else Started(EnterState(n, Connecting, now))
  }

  datatype Event =
    | RequestEvent(bearer: Bearer)
    | ReleaseEvent
    | CycleEvent(poll: Poll)

  /** An event and when it happens. */
  datatype Timed = Timed(event: Event, now: nat)

  function Step(n: Net, t: Timed): Net {
    match t.event
    case RequestEvent(bearer) => Requested(n, bearer, t.now)
    case ReleaseEvent => Released(n, t.now)
    case CycleEvent(poll) => Cycled(n, poll, t.now)
  }

  function Run(n: Net, ts: seq<Timed>): Net
    decreases |ts|
  {
    if ts == [] then n else Run(Step(n, ts[0]), ts[1..])
  }

  // ---------------------------------------------------------------------------------------------
  // The invariant
  // ---------------------------------------------------------------------------------------------

  predicate Inv(n: Net) {
    && (n.state == LinkUp || n.state == SessionUp ==> n.active == n.requested != NoBearer)
    && (n.state == SessionUp ==> n.backoffMs == 0)
    && (n.state == Down <==> n.requested == NoBearer)
    && (n.state == Down ==> n.active == NoBearer && n.backoffMs == 0)
    && (n.state == Backoff ==> n.backoffMs > 0)
    && (n.backoffMs == 0 || 2000 <= n.backoffMs <= 300000) && n.currentBackoffMs == n.backoffMs
    && n.radios <= {n.requested} && NoBearer !in n.radios
    && (n.state == Connecting || n.state == LinkUp || n.state == SessionUp ==> n.radios == {n.requested})
  }

  lemma StepKeepsInv(n: Net, t: Timed)
    requires Inv(n)
    ensures Inv(Step(n, t))
  {
    hide HasElapsed;
  }

  /**
   * In every state reachable by requests, releases and cycles at any times with any answers: a link or session is
   * on the requested bearer, a session clears the backoff, the module is down exactly when nothing is requested,
   * and at most the requested radio is on.
   */
  lemma {:induction false} ReachableStates(now: nat, ts: seq<Timed>)
    ensures Inv(Run(Initial(now), ts))
  {
    RunKeepsInv(Initial(now), ts);
  }

  lemma {:induction false} RunKeepsInv(n: Net, ts: seq<Timed>)
    requires Inv(n)
    ensures Inv(Run(n, ts))
    decreases |ts|
  {
    hide Step, Inv;
    if ts != [] {
      StepKeepsInv(n, ts[0]);
      RunKeepsInv(Step(n, ts[0]), ts[1..]);
    }
  }

  // ---------------------------------------------------------------------------------------------
  // Retrying without a session
  // ---------------------------------------------------------------------------------------------

  /** The k-th backoff of an outage. */
  function BackoffOf(k: nat): nat {
    if k == 0 then 0 else Min(RECONNECT_MIN_MS * Pow2(k - 1), RECONNECT_MAX_MS)
  }

  /** All backoffs up to the k-th. */
  function Waited(k: nat): nat {
    if k == 0 then 0 else Waited(k - 1) + BackoffOf(k)
  }

  /** Nothing but cycles that open no session, and requests for the bearer already requested. */
  predicate Fruitless(e: Event, requested: Bearer) {
    e == RequestEvent(requested) || (e.CycleEvent? && !e.poll.sessionOpened)
  }

  /** Such events at increasing times from `since` on. */
  predicate Outage(ts: seq<Timed>, since: nat, requested: Bearer)
    decreases |ts|
  {
    ts == [] || (Fruitless(ts[0].event, requested) && since <= ts[0].now && Outage(ts[1..], ts[0].now, requested))
  }

  /** How often a run asks the platform to bring a bearer up. */
  function Starts(n: Net, ts: seq<Timed>): nat
    decreases |ts|
  {
    if ts == [] then 0
    else (if n.state == Backoff && Step(n, ts[0]).state == Connecting then 1 else 0) + Starts(Step(n, ts[0]), ts[1..])
  }

  /** How often a run enters backoff. */
  function Backoffs(n: Net, ts: seq<Timed>): nat
    decreases |ts|
  {
    if ts == [] then 0
    else (if n.state != Backoff && Step(n, ts[0]).state == Backoff then 1 else 0) + Backoffs(Step(n, ts[0]), ts[1..])
  }

  /**
   * k backoffs into an outage that began at `origin`: the interval is the k-th, and the waiting so far really took
   * place; `entered` is the true time of the last transition into backoff.
   */
  predicate Retrying(n: Net, k: nat, origin: int, entered: nat, now: nat) {
    && n.requested != NoBearer && n.state != Down && n.backoffMs == BackoffOf(k)
    && origin <= entered <= now
    && (if n.state == Backoff then k > 0 && n.enteredMs == entered % U32 && entered >= origin + Waited(k - 1)
        else now >= origin + Waited(k))
  }

  lemma {:induction false} DoublingBackoff(k: nat)
    ensures BackoffOf(k + 1) == if BackoffOf(k) == 0 then 2000 else Min(2 * BackoffOf(k), 300000)
    ensures k > 0 ==> 0 < BackoffOf(k) <= 300000
  {
    if k > 0 { assert Pow2(k) == 2 * Pow2(k - 1); }
    assert BackoffOf(k + 1) == Min(RECONNECT_MIN_MS * Pow2(k), RECONNECT_MAX_MS);
  }

  /** One cycle of an outage. */
  lemma CycleRetries(n: Net, k: nat, origin: int, entered: nat, before: nat, t: Timed) returns (l: nat, e: nat)
    requires Retrying(n, k, origin, entered, before) && before <= t.now
    requires Fruitless(t.event, n.requested)
    ensures Retrying(Step(n, t), l, origin, e, t.now) && Step(n, t).requested == n.requested
    ensures l == k + if n.state != Backoff && Step(n, t).state == Backoff then 1 else 0
    ensures n.state == Backoff ==> Step(n, t).state == Backoff || Step(n, t).state == Connecting
  {
    hide HasElapsed, ElapsedSince, BackoffOf;
    DoublingBackoff(k);
    l, e := k, entered;
    if n.state == Backoff {
      if HasElapsed(t.now, n.enteredMs, n.backoffMs) {
        ElapsedIsTrue(t.now, entered, n.backoffMs);
      }
    } else if Step(n, t).state == Backoff {
      l, e := k + 1, t.now;
    }
  }

  /** Starts and backoffs alternate, and each start has been waited for. */
  lemma {:induction false} OutageCosts(n: Net, ts: seq<Timed>, k: nat, origin: int, entered: nat, before: nat)
    requires Retrying(n, k, origin, entered, before) && Outage(ts, before, n.requested)
    ensures var m := Run(n, ts); var l := k + Backoffs(n, ts); var end := if ts == [] then before else ts[|ts| - 1].now;
            && (m.state == Backoff ==> l > 0)
            && m.backoffMs == BackoffOf(l)
            && end >= origin + Waited(if m.state == Backoff then l - 1 else l)
            && Starts(n, ts) ==
               Backoffs(n, ts) + (if n.state == Backoff then 1 else 0) - (if m.state == Backoff then 1 else 0)
    decreases |ts|
  {
    hide Step, BackoffOf, Waited;
    if ts != [] {
      var l, e := CycleRetries(n, k, origin, entered, before, ts[0]);
      OutageCosts(Step(n, ts[0]), ts[1..], l, origin, e, ts[0].now);
    }
  }

  /** The first eight backoffs double up to 256 seconds and take 510 seconds together; later ones take 300 each. */
  lemma {:induction false} WaitedAtLeast(k: nat)
    ensures k >= 8 ==> Waited(k) == 510000 + 300000 * (k - 8)
  {
    hide Waited, BackoffOf;
    if k == 8 {
      EightBackoffs();
    } else if k > 8 {
      WaitedAtLeast(k - 1);
      LateBackoff(k);
      WaitedStep(k);
    }
  }

  lemma WaitedStep(k: nat)
    requires k > 0
    ensures Waited(k) == Waited(k - 1) + BackoffOf(k)
  {}

  lemma EightBackoffs()
    ensures Waited(8) == 510000
  {
    hide BackoffOf;
    FirstBackoffs();
    assert Waited(4) == 30000;
  }

  lemma FirstBackoffs()
    ensures BackoffOf(1) == 2000 && BackoffOf(2) == 4000 && BackoffOf(3) == 8000 && BackoffOf(4) == 16000
    ensures BackoffOf(5) == 32000 && BackoffOf(6) == 64000 && BackoffOf(7) == 128000 && BackoffOf(8) == 256000
  {
    assert Pow2(3) == 8;
    assert Pow2(6) == 64;
  }

  lemma LateBackoff(k: nat)
    requires k > 8
    ensures BackoffOf(k) == 300000
  {
    assert Pow2(3) == 8;
    assert Pow2(6) == 64;
    assert Pow2(8) == 256;
    Pow2Grows(8, k - 1);
  }

  lemma {:induction false} Pow2Grows(a: nat, b: nat)
    requires a <= b
    ensures Pow2(a) <= Pow2(b)
  {
    if a < b { Pow2Grows(a, b - 1); }
  }

  /** After k backoffs the next j take at least as long as the first j. */
  lemma {:induction false} LaterBackoffsAreLonger(k: nat, j: nat)
    ensures Waited(k + j) - Waited(k) >= Waited(j)
    decreases j
  {
    hide BackoffOf;
    if j > 0 {
      LaterBackoffsAreLonger(k, j - 1);
      BackoffsGrow(j, k + j);
    }
  }

  lemma BackoffsGrow(j: nat, k: nat)
    requires 0 < j <= k
    ensures BackoffOf(j) <= BackoffOf(k)
  {
    Pow2Grows(j - 1, k - 1);
  }

  lemma StartsFit(starts: nat, span: nat)
    requires Waited(starts) <= span
    ensures starts <= 8 + span / 300000
  {
    hide Waited;
    WaitedAtLeast(starts);
    if starts >= 8 {
      assert RECONNECT_MAX_MS * (starts - 8) <= span;
    }
  }

  /** From outside backoff, the starts in a span have been waited for since its beginning. */
  lemma OutageFits(n: Net, ts: seq<Timed>, k: nat, now: nat, span: nat)
    requires n.requested != NoBearer && n.state != Down && n.state != Backoff && n.backoffMs == BackoffOf(k)
    requires Outage(ts, now, n.requested) && (ts != [] ==> ts[|ts| - 1].now <= now + span)
    ensures Run(n, ts).backoffMs == BackoffOf(k + Backoffs(n, ts))
    ensures Starts(n, ts) <= 8 + span / 300000
  {
    hide BackoffOf, Waited, Run, Starts, Backoffs, Outage;
    OutageCosts(n, ts, k, now - Waited(k), now, now);
    LaterBackoffsAreLonger(k, Starts(n, ts));
    StartsFit(Starts(n, ts), span);
  }

  /**
   * Bounded effort: from any reachable state with the backoff cleared and a bearer requested, as a new request and an
   * open session leave it, for as long as no session is opened, however often that bearer is requested again: the
   * interval is the k-th backoff for the k backoffs so far, and within T ms the bearer is started again at most
   * 8 + T / 300000 times.
   */
  lemma BoundedReconnection(n: Net, now: nat, ts: seq<Timed>, span: nat)
    requires Inv(n) && n.requested != NoBearer && n.backoffMs == 0
    requires Outage(ts, now, n.requested) && (ts != [] ==> ts[|ts| - 1].now <= now + span)
    ensures Run(n, ts).backoffMs == BackoffOf(Backoffs(n, ts))
    ensures Starts(n, ts) <= 8 + span / 300000
  {
    hide BackoffOf, Run, Starts, Backoffs, Outage;
    NothingWaited();
    OutageFits(n, ts, 0, now, span);
  }

  /** A new request clears the backoff and makes the first of at most 9 + T / 300000 starts. */
  lemma RequestIsBounded(n: Net, bearer: Bearer, now: nat, ts: seq<Timed>, span: nat)
    requires Inv(n) && bearer != n.requested && bearer != NoBearer
    requires Outage(ts, now, bearer) && (ts != [] ==> ts[|ts| - 1].now <= now + span)
    ensures var m := Requested(n, bearer, now);
            && Run(m, ts).backoffMs == BackoffOf(Backoffs(m, ts))
            && 1 + Starts(m, ts) <= 9 + span / 300000
  {
    hide Run, Starts, Backoffs, Outage, BackoffOf;
    StepKeepsInv(n, Timed(RequestEvent(bearer), now));
    BoundedReconnection(Requested(n, bearer, now), now, ts, span);
  }

  /** A session lost with the request unchanged, to the broker or the link, begins with the shortest backoff again. */
  lemma LostSessionIsBounded(n: Net, t: Timed, ts: seq<Timed>, span: nat)
    requires Inv(n) && n.state == SessionUp && t.event.CycleEvent? && Step(n, t).state == Backoff
    requires Outage(ts, t.now, n.requested) && (ts != [] ==> ts[|ts| - 1].now <= t.now + span)
    ensures var m := Step(n, t);
            && Run(m, ts).backoffMs == BackoffOf(1 + Backoffs(m, ts))
            && Starts(m, ts) <= 8 + span / 300000
  {
    hide BackoffOf, Waited, Run, Starts, Backoffs, Outage;
    var m := Step(n, t);
    NothingWaited();
    DoublingBackoff(0);
    OutageCosts(m, ts, 1, t.now, t.now, t.now);
    StartsFit(Starts(m, ts), span);
  }

  /** The interval is one of the ladder's. */
  ghost predicate OnLadder(n: Net) {
    exists k: nat :: n.backoffMs == BackoffOf(k)
  }

  lemma StepKeepsLadder(n: Net, t: Timed)
    requires OnLadder(n)
    ensures OnLadder(Step(n, t))
  {
    hide BackoffOf, HasElapsed;
    var k: nat :| n.backoffMs == BackoffOf(k);
    DoublingBackoff(k);
    NothingWaited();
    var v := Step(n, t);
    assert v.backoffMs == BackoffOf(k) || v.backoffMs == BackoffOf(k + 1) || v.backoffMs == BackoffOf(0);
  }

  lemma {:induction false} RunKeepsLadder(n: Net, ts: seq<Timed>)
    requires OnLadder(n)
    ensures OnLadder(Run(n, ts))
    decreases |ts|
  {
    hide Step, OnLadder;
    if ts != [] {
      StepKeepsLadder(n, ts[0]);
      RunKeepsLadder(Step(n, ts[0]), ts[1..]);
    }
  }

  /** Cycles that stay in backoff, then one that may end it. */
  lemma {:induction false} BackoffFits(n: Net, ts: seq<Timed>, now: nat, span: nat)
    requires Inv(n) && OnLadder(n) && n.requested != NoBearer && n.state == Backoff
    requires Outage(ts, now, n.requested) && (ts != [] ==> ts[|ts| - 1].now <= now + span)
    ensures Starts(n, ts) <= 9 + span / 300000
    decreases |ts|
  {
    hide BackoffOf, HasElapsed, Inv;
    if ts != [] {
      var m := Step(n, ts[0]);
      StepKeepsInv(n, ts[0]);
      StepKeepsLadder(n, ts[0]);
      if ts[1..] != [] { assert ts[1..][|ts| - 2] == ts[|ts| - 1]; }
      LastIsLatest(ts, now, n.requested);
      var rest := now + span - ts[0].now;
      if m.state == Backoff {
        BackoffFits(m, ts[1..], ts[0].now, rest);
      } else {
        var k: nat :| m.backoffMs == BackoffOf(k);
        OutageFits(m, ts[1..], k, ts[0].now, rest);
      }
      DivGrows(rest, span);
    }
  }

  lemma DivGrows(a: nat, b: nat)
    requires a <= b
    ensures a / 300000 <= b / 300000
  {}

  lemma {:induction false} LastIsLatest(ts: seq<Timed>, since: nat, requested: Bearer)
    requires Outage(ts, since, requested) && ts != []
    ensures since <= ts[0].now <= ts[|ts| - 1].now
    decreases |ts|
  {
    if |ts| > 1 { LastIsLatest(ts[1..], ts[0].now, requested); }
  }

  /**
   * In every window of every run: whatever state requests, releases and cycles have led to, in any T ms in which the
   * request does not change and no session is opened the bearer is started at most 9 + T / 300000 times.
   */
  lemma BoundedInEveryWindow(start: nat, past: seq<Timed>, now: nat, ts: seq<Timed>, span: nat)
    requires Run(Initial(start), past).requested != NoBearer
    requires Outage(ts, now, Run(Initial(start), past).requested) && (ts != [] ==> ts[|ts| - 1].now <= now + span)
    ensures Starts(Run(Initial(start), past), ts) <= 9 + span / 300000
  {
    hide BackoffOf, Run, Starts, Outage, Backoffs;
    var n := Run(Initial(start), past);
    ReachableStates(start, past);
    NothingWaited();
    assert Initial(start).backoffMs == BackoffOf(0);
    RunKeepsLadder(Initial(start), past);
    if n.state == Backoff {
      BackoffFits(n, ts, now, span);
    } else {
      var k: nat :| n.backoffMs == BackoffOf(k);
      OutageFits(n, ts, k, now, span);
    }
  }

  lemma NothingWaited()
    ensures Waited(0) == 0 && BackoffOf(0) == 0
  {}

  // ---------------------------------------------------------------------------------------------
  // Recovery
  // ---------------------------------------------------------------------------------------------

  const ALL_WELL := Poll(true, true, true)

  predicate GoodCycles(ts: seq<Timed>) {
    forall i :: 0 <= i < |ts| ==> ts[i].event == CycleEvent(ALL_WELL)
  }

  lemma {:induction false} SessionStays(n: Net, ts: seq<Timed>)
    requires Inv(n) && n.state == SessionUp && GoodCycles(ts)
    ensures Run(n, ts) == n
    decreases |ts|
  {
    if ts != [] { SessionStays(Step(n, ts[0]), ts[1..]); }
  }

  lemma RunThree(n: Net, ts: seq<Timed>)
    requires |ts| >= 3
    ensures Run(n, ts) == Run(Step(Step(Step(n, ts[0]), ts[1]), ts[2]), ts[3..])
  {
    hide Step;
    var m := Step(n, ts[0]);
    assert ts[1..][0] == ts[1] && ts[1..][1..] == ts[2..];
    assert Run(m, ts[1..]) == Run(Step(m, ts[1]), ts[2..]);
    assert ts[2..][0] == ts[2] && ts[2..][1..] == ts[3..];
  }

  /**
   * From every reachable state with a bearer requested, once its backoff is over, three cycles with a working link
   * and broker give a session on that bearer, and it stays up while they do.
   */
  lemma Recovery(n: Net, ts: seq<Timed>)
    requires Inv(n) && n.requested != NoBearer && |ts| >= 3 && GoodCycles(ts)
    requires n.state == Backoff ==> HasElapsed(ts[0].now, n.enteredMs, n.backoffMs)
    ensures var m := Run(n, ts);
            m.state == SessionUp && m.active == m.requested == n.requested && m.backoffMs == 0
  {
    hide HasElapsed;
    var n1 := Step(n, ts[0]);
    var n2 := Step(n1, ts[1]);
    var n3 := Step(n2, ts[2]);
    StepKeepsInv(n, ts[0]);
    StepKeepsInv(n1, ts[1]);
    StepKeepsInv(n2, ts[2]);
    RunThree(n, ts);
    SessionStays(n3, ts[3..]);
  }

  // ---------------------------------------------------------------------------------------------
  // The module
  // ---------------------------------------------------------------------------------------------

  datatype Subscription = Subscription(topic: string, active: bool)

  class NetIf {
    var state: LinkState
    var requestedBearer: Bearer
    var activeBearer: Bearer
    var stateEnteredMs: uint32
    var backoffMs: nat
    var currentBackoffMs: nat
    var subscriptions: array<Subscription>
    /** The radios that are on, and the topics applied to the present session. */
    ghost var radios: set<Bearer>
    ghost var applied: set<string>

    ghost function State(): Net
      reads this
    {
      Net(state, requestedBearer, activeBearer, stateEnteredMs, backoffMs, currentBackoffMs, radios)
    }

    /** The state is reachable, and in a session every held topic has been applied to it. */
    ghost predicate Valid()
      reads this, subscriptions
    {
      && Inv(State()) && subscriptions.Length == 2
      && (state == SessionUp ==> forall t :: t in Held(subscriptions[..]) ==> t in applied)
    }

    constructor (now: nat)
      ensures Valid() && State() == Initial(now) && Held(subscriptions[..]) == {} && fresh(subscriptions)
    {
      state, requestedBearer, activeBearer, stateEnteredMs := Down, NoBearer, NoBearer, now % U32;
      backoffMs, currentBackoffMs, radios, applied := 0, 0, {}, {};
      subscriptions := new Subscription[MAX_SUBSCRIPTIONS](_ => Subscription("", false));
    }

    method SetState(next: LinkState, now: nat)
      modifies this`state, this`stateEnteredMs
      ensures State() == EnterState(old(State()), next, now)
    {
      if state == next {
        return;
      }
      state := next;
      stateEnteredMs := now % U32;
    }

    /** NetIf_StartBearer; `accepted` is whether the platform takes the connect. */
    method StartBearer(accepted: bool) returns (status: Status)
      modifies this`radios
      ensures State() == Started(old(State()))
      ensures status == if requestedBearer != NoBearer && accepted then E_OK else E_NOT_OK
    {
      if requestedBearer == NoBearer {
        return E_NOT_OK;
      }
      radios := radios + {requestedBearer};
      status := if accepted then E_OK else E_NOT_OK;
    }

    method BackOff(now: nat)
      modifies this`state, this`stateEnteredMs, this`backoffMs, this`currentBackoffMs
      ensures State() == EnterBackoff(old(State()), now)
    {
      if backoffMs == 0 {
        backoffMs := RECONNECT_MIN_MS;
      } else {
        backoffMs := 2 * backoffMs;
        if backoffMs > RECONNECT_MAX_MS {
          backoffMs := RECONNECT_MAX_MS;
        }
      }
      currentBackoffMs := backoffMs;
      SetState(Backoff, now);
    }

    /** NetIf_RequestBearer. A connect that the platform refuses is reported, and retried all the same. */
    method RequestBearer(bearer: Bearer, now: nat, accepted: bool) returns (status: Status)
      requires Valid()
      modifies this
      ensures Valid() && subscriptions == old(subscriptions) && State() == Requested(old(State()), bearer, now)
      ensures status == E_OK || status == E_NOT_OK
      ensures status == E_NOT_OK <==> bearer != NoBearer && bearer != old(requestedBearer) && !accepted
    {
      StepKeepsInv(State(), Timed(RequestEvent(bearer), now));
      if requestedBearer == bearer {
        return E_OK;
      }
      radios := radios - {requestedBearer};
      requestedBearer, backoffMs, currentBackoffMs, activeBearer := bearer, 0, 0, NoBearer;
      if bearer == NoBearer {
        SetState(Down, now);
        return E_OK;
      }
      SetState(Connecting, now);
      status := StartBearer(accepted);
    }

    method ReleaseBearer(now: nat)
      requires Valid()
      modifies this
      ensures Valid() && subscriptions == old(subscriptions) && State() == Released(old(State()), now)
    {
      StepKeepsInv(State(), Timed(ReleaseEvent, now));
      radios := radios - {requestedBearer};
      requestedBearer, activeBearer, backoffMs, currentBackoffMs := NoBearer, NoBearer, 0, 0;
      SetState(Down, now);
    }

    /** A session starts with no topic applied; each held one is applied again. */
    method ReapplySubscriptions()
      requires subscriptions.Length == MAX_SUBSCRIPTIONS
      modifies this`applied
      ensures applied == Held(subscriptions[..])
    {
      applied := {};
      for i := 0 to MAX_SUBSCRIPTIONS
        invariant applied == Held(subscriptions[..i])
        modifies this`applied
      {
        HeldSnoc(subscriptions[..i], subscriptions[i]);
        assert subscriptions[..i + 1] == subscriptions[..i] + [subscriptions[i]];
        if subscriptions[i].active {
          applied := applied + {subscriptions[i].topic};
        }
      }
      assert subscriptions[..MAX_SUBSCRIPTIONS] == subscriptions[..];
    }

    /** NetIf_MainFunction. */
    method MainFunction(p: Poll, now: nat, accepted: bool)
      requires subscriptions.Length == MAX_SUBSCRIPTIONS
      modifies this
      ensures State() == Cycled(old(State()), p, now) && subscriptions == old(subscriptions)
      ensures old(Valid()) ==> Valid()
    {
      hide HasElapsed, ElapsedSince;
      if Inv(State()) { StepKeepsInv(State(), Timed(CycleEvent(p), now)); }
      var up := p.bearerUp && requestedBearer != NoBearer;
      match state {
        case Down =>
        case Connecting =>
          if up {
            activeBearer := requestedBearer;
            SetState(LinkUp, now);
          } else if HasElapsed(now, stateEnteredMs, LINK_TIMEOUT_MS) {
            radios := radios - {requestedBearer};
            BackOff(now);
          }
        case LinkUp =>
          if !up {
            activeBearer := NoBearer;
            BackOff(now);
          } else if p.sessionOpened {
            backoffMs, currentBackoffMs := 0, 0;
            ReapplySubscriptions();
            SetState(SessionUp, now);
          } else if HasElapsed(now, stateEnteredMs, SESSION_TIMEOUT_MS) {
            BackOff(now);
          }
        case SessionUp =>
          if !up {
            activeBearer := NoBearer;
            BackOff(now);
          } else if !p.sessionAlive {
            BackOff(now);
          }
        case Backoff =>
          if HasElapsed(now, stateEnteredMs, backoffMs) {
            if requestedBearer == NoBearer {
              SetState(Down, now);
            } else {
              SetState(Connecting, now);
              var _ := StartBearer(accepted);
            }
          }
      }
    }

    /**
     * NetIf_Subscribe: takes the first slot that is free or holds the topic already. In a session the topic is applied
     * at once and the broker's answer is the status; the topic is held either way.
     */
    method Subscribe(topic: string, accepted: bool) returns (status: Status)
      requires Valid()
      modifies subscriptions, this`applied
      ensures Valid() && State() == old(State()) && (status == E_OK || status == E_NO_SPACE || status == E_NOT_OK)
      ensures var held := |topic| < 64 && status != E_NO_SPACE;
              && Held(subscriptions[..]) == old(Held(subscriptions[..])) + (if held then {topic} else {})
              && (status == E_OK <==> held && (state == SessionUp ==> accepted))
              && (!held ==> subscriptions[..] == old(subscriptions[..]) && applied == old(applied))
      ensures status == E_NO_SPACE ==>
                |topic| < 64 &&
                old(forall i :: 0 <= i < 2 ==>
                      subscriptions[i].active && subscriptions[i].topic != topic)
    {
      if |topic| >= MAX_TOPIC_SIZE {
        return E_NOT_OK;
      }
      for i := 0 to MAX_SUBSCRIPTIONS
        invariant forall j :: 0 <= j < i ==> subscriptions[j].active && subscriptions[j].topic != topic
        invariant subscriptions[..] == old(subscriptions[..]) && applied == old(applied)
      {
        if !subscriptions[i].active || subscriptions[i].topic == topic {
          ghost var before := subscriptions[..];
          subscriptions[i] := Subscription(topic, true);
          HeldUpdated(before, i, topic);
          assert subscriptions[..] == before[i := Subscription(topic, true)];
          if state == SessionUp {
            applied := applied + {topic};
            return if accepted then E_OK else E_NOT_OK;
          }
          return E_OK;
        }
      }
      status := E_NO_SPACE;
    }

    /**
     * NetIf_Publish. What the broker accepts, it accepts in a session on the requested bearer with the backoff cleared
     * and every held topic applied; no record and no backfill chunk is refused for its size.
     */
    method Publish(payload: string, accepted: bool) returns (status: Status)
      ensures Valid() && status == E_OK ==>
                && accepted && activeBearer == requestedBearer != NoBearer && radios == {activeBearer} && backoffMs == 0
                && forall t :: t in Held(subscriptions[..]) ==> t in applied
      ensures status == E_NO_SPACE ==>
                |payload| > ComCsv.RECORD_BUFFER_SIZE && |payload| > ComTransfer.TRANSFER_CHUNK_SIZE
      ensures status == if |payload| > 2368 then E_NO_SPACE
                        else if state == SessionUp && accepted then E_OK else E_NOT_OK
    {
      if |payload| > MAX_PAYLOAD_SIZE {
        return E_NO_SPACE;
      }
      if state != SessionUp {
        return E_NOT_OK;
      }
      status := if accepted then E_OK else E_NOT_OK;
    }
  }

  /** The topics of the active subscriptions. */
  ghost function Held(subs: seq<Subscription>): set<string> {
    set i | 0 <= i < |subs| && subs[i].active :: subs[i].topic
  }

  lemma HeldSnoc(subs: seq<Subscription>, s: Subscription)
    ensures Held(subs + [s]) == Held(subs) + if s.active then {s.topic} else {}
  {
    var all := subs + [s];
    forall t | t in Held(subs) + (if s.active then {s.topic} else {})
      ensures t in Held(all)
    {
      if t in Held(subs) {
        var i :| 0 <= i < |subs| && subs[i].active && subs[i].topic == t;
        assert all[i] == subs[i];
      } else {
        assert all[|subs|] == s;
      }
    }
  }

  lemma HeldUpdated(subs: seq<Subscription>, i: nat, topic: string)
    requires i < |subs| && (!subs[i].active || subs[i].topic == topic)
    ensures Held(subs[i := Subscription(topic, true)]) == Held(subs) + {topic}
  {
    var all := subs[i := Subscription(topic, true)];
    assert all[i].topic == topic;
    forall t | t in Held(subs)
      ensures t in Held(all)
    {
      var j :| 0 <= j < |subs| && subs[j].active && subs[j].topic == t;
      assert all[j].active && all[j].topic == t;
    }
  }
}
