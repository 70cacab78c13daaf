/**
 * How long src/ecuabs/NetIf stays in a state, in true time, and how often it tries again when it gets no session.
 */
module Retry {
  import opened Base
  import opened NetIf

  /** The state machine with the true times at which it entered its state, last ran and was last called. */
  datatype Watch = Watch(n: Net, entered: nat, cycle: nat, now: nat)

  function Watched(w: Watch, t: Timed): Watch {
    var m := Step(w.n, t);
    Watch(m, if m.state == w.n.state then w.entered else t.now, if t.event.CycleEvent? then t.now else w.cycle, t.now)
  }

  function WatchRun(w: Watch, ts: seq<Timed>): Watch
    decreases |ts|
  {
    if ts == [] then w else WatchRun(Watched(w, ts[0]), ts[1..])
  }

  lemma {:induction false} WatchRunIsRun(w: Watch, ts: seq<Timed>)
    ensures WatchRun(w, ts).n == Run(w.n, ts)
    decreases |ts|
  {
    hide Step;
    if ts != [] { WatchRunIsRun(Watched(w, ts[0]), ts[1..]); }
  }

  /** The longest the machine waits in a state before it does something about it, by NetIf_Cfg.h. */
  function Patience(n: Net): nat {
    match n.state
    case Connecting => 30000
    case LinkUp => 15000
    case Backoff => n.backoffMs
    case _ => 0
  }

  predicate Waits(s: LinkState) {
    s == Connecting || s == LinkUp || s == Backoff
  }

  /** Calls in order of time, with never more than `gap` ms from one run of the main function to what comes next. */
  predicate Attended(ts: seq<Timed>, cycle: nat, now: nat, gap: nat)
    decreases |ts|
  {
    ts == [] ||
    (now <= ts[0].now <= cycle + gap &&
     Attended(ts[1..], if ts[0].event.CycleEvent? then ts[0].now else cycle, ts[0].now, gap))
  }

  /** Gaps after which the 32-bit clock still tells how long a state has lasted. */
  const LONGEST_GAP := U32 - 300000

  /** When the main function last ran, the state was not due to be left. */
  predicate Prompt(w: Watch) {
    && Inv(w.n) && w.n.enteredMs == w.entered % U32
    && w.entered <= w.now && w.cycle <= w.now
    && (Waits(w.n.state) ==> w.cycle < w.entered + Patience(w.n))
  }

  /** Modular time is true time until the counter has wrapped; an interval above half its range counts as over. */
  lemma ElapsedIff(now: nat, since: nat, interval: nat)
    requires since <= now < since + U32
    ensures HasElapsed(now, since % U32, interval) <==> interval > 0x7FFF_FFFF || now >= since + interval
  {
    ElapsedExact(now, since);
  }

  lemma ElapsedExact(now: nat, since: nat)
    requires since <= now < since + U32
    ensures ElapsedSince(now, since % U32) == now - since
  {
    var a, b := now / U32, since / U32;
    assert now % U32 - since % U32 == (now - since) + (b - a) * U32;
  }

  /** What a run of the main function does, and when, in true time. */
  lemma CycleIff(w: Watch, t: Timed)
    requires Prompt(w) && t.event.CycleEvent? && w.now <= t.now < w.entered + U32
    ensures var s, p, late := Step(w.n, t).state, t.event.poll, t.now >= w.entered + Patience(w.n);
            && (w.n.state == Down ==> s == Down)
            && (w.n.state == Connecting ==>
                  s == if p.bearerUp then LinkUp else if late then Backoff else Connecting)
            && (w.n.state == LinkUp ==>
                  s == if !p.bearerUp then Backoff else if p.sessionOpened then SessionUp
                       else if late then Backoff else LinkUp)
            && (w.n.state == SessionUp ==> s == if p.bearerUp && p.sessionAlive then SessionUp else Backoff)
            && (w.n.state == Backoff ==> s == if late then Connecting else Backoff)
  {
    hide HasElapsed;
    if Waits(w.n.state) { ElapsedIff(t.now, w.entered, Patience(w.n)); }
  }

  lemma StepStaysPrompt(w: Watch, t: Timed, gap: nat)
    requires Prompt(w) && w.now <= t.now <= w.cycle + gap && gap <= LONGEST_GAP
    ensures Prompt(Watched(w, t))
    ensures Waits(w.n.state) ==> t.now < w.entered + Patience(w.n) + gap
  {
    hide HasElapsed;
    StepKeepsInv(w.n, t);
    if t.event.CycleEvent? && Waits(w.n.state) { CycleIff(w, t); }
    Stamped(w.n, t);
  }

  /** The stamp is the time the state was entered. */
  lemma Stamped(n: Net, t: Timed)
    ensures var m := Step(n, t); m.enteredMs == if m.state == n.state then n.enteredMs else t.now % U32
  {
    hide HasElapsed;
  }

  lemma {:induction false} RunStaysPrompt(w: Watch, ts: seq<Timed>, gap: nat)
    requires Prompt(w) && Attended(ts, w.cycle, w.now, gap) && gap <= LONGEST_GAP
    ensures Prompt(WatchRun(w, ts))
    decreases |ts|
  {
    hide Prompt, Step;
    if ts != [] {
      StepStaysPrompt(w, ts[0], gap);
      RunStaysPrompt(Watched(w, ts[0]), ts[1..], gap);
    }
  }

  function PoweredUp(start: nat): Watch {
    Watch(Initial(start), start, start, start)
  }

  /**
   * No state is waited in for ever: in any run whose main function runs at least every `gap` ms, whatever is requested
   * and polled, `Connecting` is left less than 30 s + gap after it was entered, `LinkUp` less than 15 s + gap, and
   * `Backoff` less than its interval + gap.
   */
  lemma StaysAreBounded(start: nat, ts: seq<Timed>, t: Timed, gap: nat)
    requires Attended(ts + [t], start, start, gap) && gap <= LONGEST_GAP
    ensures var w := WatchRun(PoweredUp(start), ts);
            && w.n == Run(Initial(start), ts)
            && (w.n.state == Connecting ==> t.now < w.entered + 30000 + gap)
            && (w.n.state == LinkUp ==> t.now < w.entered + 15000 + gap)
            && (w.n.state == Backoff ==> t.now < w.entered + w.n.backoffMs + gap <= w.entered + 300000 + gap)
  {
    var w := WatchRun(PoweredUp(start), ts);
    WatchRunIsRun(PoweredUp(start), ts);
    AttendedSplits(PoweredUp(start), ts, [t], gap);
    assert [t][1..] == [];
    RunStaysPrompt(PoweredUp(start), ts, gap);
    hide Attended, Step;
    StepStaysPrompt(w, t, gap);
  }

  lemma {:induction false} AttendedSplits(w: Watch, a: seq<Timed>, b: seq<Timed>, gap: nat)
    requires Attended(a + b, w.cycle, w.now, gap)
    ensures Attended(a, w.cycle, w.now, gap)
    ensures var v := WatchRun(w, a); Attended(b, v.cycle, v.now, gap)
    decreases |a|
  {
    hide Step;
    if a == [] {
      assert a + b == b;
    } else {
      assert (a + b)[0] == a[0] && (a + b)[1..] == a[1..] + b;
      AttendedSplits(Watched(w, a[0]), a[1..], b, gap);
    }
  }

  // ---------------------------------------------------------------------------------------------
  // Trying again
  // ---------------------------------------------------------------------------------------------

  /** The time by which the bearer is started again if no session is opened. */
  function Deadline(w: Watch, gap: nat): nat {
    match w.n.state
    case Connecting => w.entered + 345000 + 3 * gap
    case LinkUp => w.entered + 315000 + 2 * gap
    case _ => w.entered + 300000 + gap
  }

  lemma StepMeetsDeadline(w: Watch, t: Timed, gap: nat)
    requires Prompt(w) && Waits(w.n.state) && w.now <= t.now <= w.cycle + gap && gap <= LONGEST_GAP
    requires Fruitless(t.event, w.n.requested)
    ensures var v := Watched(w, t);
            && Waits(v.n.state) && v.n.requested == w.n.requested && t.now < Deadline(w, gap)
            && (if w.n.state == Backoff && v.n.state == Connecting then
                  Deadline(v, gap) <= Deadline(w, gap) + 345000 + 3 * gap
                else Deadline(v, gap) <= Deadline(w, gap))
  {
    hide HasElapsed;
    StepStaysPrompt(w, t, gap);
    if t.event.CycleEvent? { CycleIff(w, t); }
  }

  /** The longest time that `k` attempts can fill. */
  function Spans(k: nat, gap: nat): nat {
    k * (345000 + 3 * gap)
  }

  lemma OneMoreSpan(k: nat, gap: nat)
    ensures Spans(k + 1, gap) == Spans(k, gap) + 345000 + 3 * gap
  {}

  lemma {:induction false} RunMeetsDeadlines(w: Watch, ts: seq<Timed>, gap: nat)
    requires Prompt(w) && Waits(w.n.state) && Attended(ts, w.cycle, w.now, gap) && gap <= LONGEST_GAP
    requires Outage(ts, w.now, w.n.requested)
    ensures ts != [] ==> ts[|ts| - 1].now < Deadline(w, gap) + Spans(Starts(w.n, ts), gap)
    decreases |ts|
  {
    hide Prompt, Step, Deadline, Fruitless, Spans;
    if ts != [] {
      var v := Watched(w, ts[0]);
      StepStaysPrompt(w, ts[0], gap);
      StepMeetsDeadline(w, ts[0], gap);
      RunMeetsDeadlines(v, ts[1..], gap);
      OneMoreSpan(Starts(v.n, ts[1..]), gap);
      if |ts| > 1 { assert ts[1..][|ts| - 2] == ts[|ts| - 1]; }
    }
  }

  /**
   * Retrying never stops: after any run in which the main function ran at least every `gap` ms, as long as it goes on
   * so with a bearer requested and no session up or opened, T ms hold enough starts of the bearer that one more would
   * fill them at 345 s + 3 gap each. A link that comes up but gets no session does not change that.
   */
  lemma RetryingNeverStops(start: nat, past: seq<Timed>, ts: seq<Timed>, gap: nat)
    requires Attended(past + ts, start, start, gap) && gap <= LONGEST_GAP && ts != []
    requires var w := WatchRun(PoweredUp(start), past);
             w.n.requested != NoBearer && w.n.state != SessionUp && Outage(ts, w.now, w.n.requested)
    ensures var w := WatchRun(PoweredUp(start), past);
            && w.n == Run(Initial(start), past)
            && (Starts(w.n, ts) + 1) * (345000 + 3 * gap) > ts[|ts| - 1].now - w.now
  {
    hide Attended, Outage, Starts, Run, WatchRun;
    var w := WatchRun(PoweredUp(start), past);
    WatchRunIsRun(PoweredUp(start), past);
    AttendedSplits(PoweredUp(start), past, ts, gap);
    RunStaysPrompt(PoweredUp(start), past, gap);
    RunMeetsDeadlines(w, ts, gap);
    OneMoreSpan(Starts(w.n, ts), gap);
  }
}
