/**
 * When the odometer of src/app/OdoSwc writes its totals to NvM: how often the periodic function does, in true time
 * and distance, and how many commits the durable block has counted.
 */
module OdoWear {
  import opened Base
  import OdoSwc
  import opened OdoPower

  /** A call and the true time, in milliseconds, at which it was made. */
  datatype Dated = Dated(call: Call, at: nat)

  /** Calls that read the clock read its low 32 bits. */
  predicate OnClock(d: Dated) {
    match d.call
    case Tend(_, now) => now == d.at % U32
    case Shutdown(_, now) => now == d.at % U32
    case ClearTrip(_, now) => now == d.at % U32
    case PowerCut(_, now) => now == d.at % U32
    case _ => true
  }

  predicate InOrder(from: nat, ds: seq<Dated>)
    decreases |ds|
  {
    ds == [] || (from <= ds[0].at && OnClock(ds[0]) && InOrder(ds[0].at, ds[1..]))
  }

  /** `last` is the true time of the last commit or power-up. */
  predicate StampedAt(u: OdoSwc.Unit, last: nat) {
    u.Up? ==> u.persistTime == last % U32
  }

  function NextStamp(u: OdoSwc.Unit, last: nat, d: Dated): nat {
    if Commits(u, d.call) || d.call.PowerCut? then d.at else last
  }

  lemma StampFollows(u: OdoSwc.Unit, last: nat, d: Dated)
    requires StampedAt(u, last) && OnClock(d)
    ensures StampedAt(Next(u, d.call), NextStamp(u, last, d))
  {
    hide OdoSwc.Sample, OdoSwc.Factor, OdoSwc.PowerOn, OdoSwc.Due;
  }

  lemma ElapsedIsDelta(last: nat, at: nat)
    requires last <= at < last + U32
    ensures OdoSwc.Delta(at % U32, last % U32) == at - last
  {
    var x, y := at / U32, last / U32;
    assert at % U32 - last % U32 == (at - last) + (y - x) * U32;
  }

  /**
   * The periodic function commits exactly when 100 m are unsaved, or anything is and 60 s have passed since the last
   * commit or power-up; that it has, it can tell for 49 days.
   */
  lemma DueIff(u: OdoSwc.Unit, last: nat, at: nat)
    requires u.Up? && StampedAt(u, last) && last <= at < last + U32
    ensures OdoSwc.Due(u, at % U32) <==>
              OdoSwc.Unsaved(u) >= 100000 || (OdoSwc.Unsaved(u) > 0 && at >= last + 60000)
  {
    hide OdoSwc.Unsaved;
    ElapsedIsDelta(last, at);
  }

  /** A write of the periodic function because of the distance. */
  predicate ByDistance(u: OdoSwc.Unit, c: Call) {
    c.Tend? && Commits(u, c) && OdoSwc.Unsaved(u) >= 100000
  }

  /** A write of the periodic function because of the time. */
  predicate ByTime(u: OdoSwc.Unit, c: Call) {
    c.Tend? && Commits(u, c) && OdoSwc.Unsaved(u) < 100000
  }

  function DistanceWrites(u: OdoSwc.Unit, ds: seq<Dated>): nat
    decreases |ds|
  {
    if ds == [] then 0
    else (if ByDistance(u, ds[0].call) then 1 else 0) + DistanceWrites(Next(u, ds[0].call), ds[1..])
  }

  function TimeWrites(u: OdoSwc.Unit, ds: seq<Dated>): nat
    decreases |ds|
  {
    if ds == [] then 0
    else (if ByTime(u, ds[0].call) then 1 else 0) + TimeWrites(Next(u, ds[0].call), ds[1..])
  }

  function Distance(u: OdoSwc.Unit, ds: seq<Dated>): nat
    decreases |ds|
  {
    if ds == [] then 0 else Covered(u, ds[0].call) + Distance(Next(u, ds[0].call), ds[1..])
  }

  lemma TimeWriteWaits(u: OdoSwc.Unit, last: nat, d: Dated)
    requires StampedAt(u, last) && OnClock(d) && last <= d.at && ByTime(u, d.call)
    ensures d.at >= last + 60000
  {
    hide OdoSwc.Unsaved;
    OdoSwc.DeltaWithinElapsed(last, d.at);
  }

  /** Each write for the time is at least 60 s after the commit or power-up before it, wraps of the clock included. */
  lemma {:induction false} TimeWritesAreSpaced(u: OdoSwc.Unit, last: nat, from: nat, ds: seq<Dated>)
    requires StampedAt(u, last) && last <= from && InOrder(from, ds) && ds != []
    ensures 60000 * TimeWrites(u, ds) <= ds[|ds| - 1].at - last
    decreases |ds|
  {
    hide Next, NextStamp, ByTime, OnClock, StampedAt;
    var d, v := ds[0], Next(u, ds[0].call);
    var stamp := NextStamp(u, last, d);
    StampFollows(u, last, d);
    StampIs(u, last, d);
    if ByTime(u, d.call) { TimeWriteWaits(u, last, d); }
    if |ds| > 1 {
      assert ds[1..][|ds| - 2] == ds[|ds| - 1];
      TimeWritesAreSpaced(v, stamp, d.at, ds[1..]);
    } else {
      assert ds[1..] == [];
    }
  }

  lemma StampIs(u: OdoSwc.Unit, last: nat, d: Dated)
    requires last <= d.at
    ensures last <= NextStamp(u, last, d) <= d.at
    ensures ByTime(u, d.call) ==> NextStamp(u, last, d) == d.at
  {
    hide Commits;
  }

  /** What is unstored after a call, and what a write for the distance takes out of it. */
  lemma UnstoredStep(w: World, c: Call)
    requires Exact(w)
    ensures Step(w, c).h.unstored + (if ByDistance(w.u, c) then 100000 else 0) <= w.h.unstored + Covered(w.u, c)
  {
    hide OdoSwc.Due, OdoSwc.Sample, OdoSwc.Carried;
    SmallerRest(w.h.unstored);
  }

  lemma SmallerRest(n: nat)
    ensures n % U64 <= n
  {}

  /** Each write for the distance has 100 m of its own, covered since the commit or power-up before it. */
  lemma {:induction false} DistanceWritesAreSpaced(w: World, ds: seq<Dated>)
    requires InForce(w.u) && Exact(w)
    ensures 100000 * DistanceWrites(w.u, ds) <= w.h.unstored + Distance(w.u, ds)
    decreases |ds|
  {
    hide InForce, Exact, Step, ByDistance, Covered, Next;
    if ds != [] {
      var c := ds[0].call;
      UnstoredStep(w, c);
      StepKeepsExact(w, c);
      StepKeepsInForce(w.u, c);
      StepIsNext(w, c);
      DistanceWritesAreSpaced(Step(w, c), ds[1..]);
    }
  }

  lemma StepIsNext(w: World, c: Call)
    ensures Step(w, c).u == Next(w.u, c)
  {
    hide Next, Booked;
  }

  /**
   * The periodic function spares the flash: from a power-up on, whatever is measured, committed, reset or cut, its
   * writes are no more than one for each 100 m covered and one for each 60 s that passed.
   */
  lemma WritesAreSpaced(odometer: OdoSwc.NvmOdometer, calibration: OdoSwc.NvmCalibration, ok: bool, from: nat,
                        ds: seq<Dated>)
    requires InOrder(from, ds) && ds != []
    ensures var u := OdoSwc.PoweredUp(odometer, calibration, ok, from % U32);
            && 100000 * DistanceWrites(u, ds) <= Distance(u, ds)
            && 60000 * TimeWrites(u, ds) <= ds[|ds| - 1].at - from
  {
    hide InForce, Exact, InOrder, DistanceWrites, TimeWrites, Distance;
    var u := OdoSwc.PoweredUp(odometer, calibration, ok, from % U32);
    PowersUpStamped(odometer, calibration, ok, from);
    TimeWritesAreSpaced(u, from, from, ds);
    StartsInv(odometer, calibration, ok, from % U32);
    DistanceWritesAreSpaced(World(u, START), ds);
  }

  lemma PowersUpStamped(odometer: OdoSwc.NvmOdometer, calibration: OdoSwc.NvmCalibration, ok: bool, from: nat)
    ensures StampedAt(OdoSwc.PoweredUp(odometer, calibration, ok, from % U32), from)
  {
    hide OdoSwc.PowerOn;
  }

  // ---------------------------------------------------------------------------------------------
  // The commit counter
  // ---------------------------------------------------------------------------------------------

  function CommitCount(u: OdoSwc.Unit, cs: seq<Call>): nat
    decreases |cs|
  {
    if cs == [] then 0 else (if Commits(u, cs[0]) then 1 else 0) + CommitCount(Next(u, cs[0]), cs[1..])
  }

  function UnitRun(u: OdoSwc.Unit, cs: seq<Call>): OdoSwc.Unit
    decreases |cs|
  {
    if cs == [] then u else UnitRun(Next(u, cs[0]), cs[1..])
  }

  lemma CommitCounts(u: OdoSwc.Unit, c: Call)
    ensures Next(u, c).odometer.updateCount
         == if Commits(u, c) then (u.odometer.updateCount + 1) % U32 else u.odometer.updateCount
  {
    hide OdoSwc.Sample, OdoSwc.Factor, OdoSwc.PowerOn, OdoSwc.Due;
  }

  /** The durable block counts the commits that reached it, through power cuts and failed ones. */
  lemma {:induction false} CommitsAreCounted(u: OdoSwc.Unit, cs: seq<Call>)
    ensures UnitRun(u, cs).odometer.updateCount == (u.odometer.updateCount + CommitCount(u, cs)) % U32
    decreases |cs|
  {
    hide Next, Commits;
    if cs != [] {
      CommitCounts(u, cs[0]);
      CommitsAreCounted(Next(u, cs[0]), cs[1..]);
      WrapsOnce(u.odometer.updateCount, if Commits(u, cs[0]) then 1 else 0, CommitCount(Next(u, cs[0]), cs[1..]));
    }
  }

  lemma WrapsOnce(a: nat, b: nat, c: nat)
    ensures ((a + b) % U32 + c) % U32 == (a + (b + c)) % U32
  {}
}
