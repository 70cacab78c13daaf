/**
 * What power cuts can take from the odometer of src/app/OdoSwc: runs of the component and its two durable blocks
 * over any samples, commits that may fail, trip resets, calibrations, power cuts and power-ups that may fail.
 */
module OdoPower {
  import opened Base
  import opened OdoSwc

  /** One call, or a power cut and the power-up after it; `ok` says whether the NvM accesses succeed. */
  datatype Call =
    | Measured(rpm: uint16, time: uint32)
    | Tend(ok: bool, now: uint32)
    | Shutdown(ok: bool, now: uint32)
    | ClearTrip(ok: bool, now: uint32)
    | Calibrate(tyre: uint16, gear: uint16, ok: bool)
    | PowerCut(ok: bool, now: uint32)

  function Next(u: Unit, c: Call): Unit {
    match c
    case Measured(rpm, time) => if u.Up? then u.(o := Sample(u.o, rpm, time)) else u
    case Tend(ok, now) => Tended(u, ok, now)
    case Shutdown(ok, now) => Saved(u, ok, now)
    case ClearTrip(ok, now) => TripCleared(u, ok, now)
    case Calibrate(tyre, gear, ok) => Calibrated(u, tyre, gear, ok)
    case PowerCut(ok, now) => PoweredUp(u.odometer, u.calibration, ok, now)
  }

  /** Millimetres the call adds to the reading, before the reading wraps. */
  function Covered(u: Unit, c: Call): nat {
    if u.Up? && c.Measured? then Carried(u.o, c.rpm, c.time) else 0
  }

  /** The calls that reach NvM with the totals. */
  predicate Commits(u: Unit, c: Call) {
    u.Up? &&
    match c
    case Tend(ok, now) => ok && Due(u, now)
    case Shutdown(ok, _) => ok
    case ClearTrip(ok, _) => ok
    case _ => false
  }

  /**
   * Bookkeeping of a run, in millimetres: `covered` by the reading since the start; `lost` at power cuts; covered
   * since the last commit that reached NvM or the last power-up (`unstored`); covered since the periodic function
   * last ran with a working NvM or the unit powered up (`untended`); the sum of that over the `cuts` power cuts of a
   * running unit (`exposed`); and covered since the last trip reset that was reported as stored, once there is one
   * (`trip`).
   */
  datatype History = History(
    covered: nat, lost: nat, unstored: nat, untended: nat, cuts: nat, exposed: nat, trip: Option<nat>)

  const START := History(0, 0, 0, 0, 0, 0, None)

  function Booked(h: History, u: Unit, c: Call): History {
    var g := if Commits(u, c) then h.(unstored := 0) else h;
    match c
    case Measured(_, _) =>
      var d := Covered(u, c);
      g.(covered := h.covered + d, unstored := h.unstored + d, untended := h.untended + d,
         trip := if h.trip.Some? then Some(h.trip.value + d) else None)
    case Tend(ok, _) => if ok then g.(untended := 0) else g
    case ClearTrip(ok, _) => if ok && u.Up? then g.(trip := Some(0)) else g
    case PowerCut(_, _) =>
      if u.Down? then g
      else g.(lost := h.lost + Unsaved(u), unstored := 0, cuts := h.cuts + 1, exposed := h.exposed + h.untended,
              untended := 0)
    case _ => g
  }

  datatype World = World(u: Unit, h: History)

  function Step(w: World, c: Call): World {
    World(Next(w.u, c), Booked(w.h, w.u, c))
  }

  function Run(w: World, cs: seq<Call>): World
    decreases |cs|
  {
    if cs == [] then w else Run(Step(w, cs[0]), cs[1..])
  }

  /** What the unit reads, or will read once it comes up. */
  function Reading(u: Unit): nat {
    if u.Up? then u.o.total else u.odometer.total as int
  }

  /** A running unit is in range and uses the stored calibration. */
  ghost predicate InForce(u: Unit) {
    u.Up? ==> u.o.Valid() && InRange(u.calibration.tyre, u.calibration.gear) &&
              u.o.factor == Factor(u.calibration.tyre, u.calibration.gear)
  }

  /** `start` is the durable reading the run began with. */
  ghost predicate Balanced(w: World, start: nat) {
    (Reading(w.u) + w.h.lost) % U64 == (start + w.h.covered) % U64
  }

  /** What is at stake, and what was lost, is covered by the commit distance and what nobody tended. */
  ghost predicate Bounded(w: World) {
    Unsaved(w.u) <= 99999 + w.h.untended && w.h.lost <= 99999 * w.h.cuts + w.h.exposed
  }

  /** What is at stake is exactly what was covered since the last commit or power-up. */
  ghost predicate Exact(w: World) {
    Unsaved(w.u) == w.h.unstored % U64 && (w.u.Down? ==> w.h.unstored == 0)
  }

  /** After a stored trip reset neither copy of the trip exceeds what was covered since. */
  ghost predicate TripFollows(w: World) {
    w.h.trip.Some? ==>
      w.u.odometer.trip as int <= w.h.trip.value && (w.u.Up? ==> w.u.o.trip <= w.h.trip.value)
  }

  ghost predicate Inv(w: World, start: nat) {
    InForce(w.u) && Balanced(w, start) && Bounded(w) && Exact(w) && TripFollows(w)
  }

  lemma StepKeepsInForce(u: Unit, c: Call)
    requires InForce(u)
    ensures InForce(Next(u, c))
  {
    hide Sample, ValidFactor, Factor;
    match c
    case Measured(rpm, time) =>
      if u.Up? { SampleKeepsForce(u.o, rpm, time); }
    case Calibrate(tyre, gear, ok) =>
      if InRange(tyre, gear) { FactorBounds(tyre, gear); }
    case PowerCut(ok, now) =>
      if InRange(u.calibration.tyre, u.calibration.gear) { PowerOnIsValid(u.odometer, u.calibration); }
    case _ =>
  }

  lemma SampleKeepsForce(o: Odo, rpm: uint16, time: uint32)
    requires o.Valid()
    ensures Sample(o, rpm, time).Valid() && Sample(o, rpm, time).factor == o.factor
  {
    SampleKeepsValid(o, rpm, time);
  }

  lemma WrapSum(a: nat, b: nat, c: nat, d: nat)
    requires (a + b) % U64 == c % U64
    ensures ((a + d) % U64 + b) % U64 == (c + d) % U64
  {
    var x, y := (a + b) / U64, (a + d) / U64;
    assert (a + d) % U64 + b == (a + b) % U64 + d + (x - y) * U64;
    assert c == c % U64 + c / U64 * U64;
    assert (a + d) % U64 + b == (c + d) + (x - y - c / U64) * U64;
  }

  /** Putting the loss on the other side of the balance. */
  lemma WrapLoss(a: nat, b: nat, c: nat, s: nat)
    requires (a + b) % U64 == c % U64
    ensures (s + (b + (a - s) % U64)) % U64 == c % U64
  {
    var x := (a - s) / U64;
    assert s + (b + (a - s) % U64) == (a + b) + (-x) * U64;
  }

  /** Only samples and power cuts change the reading. */
  lemma KeepsReading(u: Unit, c: Call)
    requires !c.Measured? && !c.PowerCut?
    ensures Reading(Next(u, c)) == Reading(u)
  {
    hide Unsaved, Factor;
  }

  lemma ComesUpAtStored(u: Unit, ok: bool, now: uint32)
    ensures Reading(PoweredUp(u.odometer, u.calibration, ok, now)) == u.odometer.total as int
  {
    hide Factor;
  }

  lemma TotalGrows(u: Unit, rpm: uint16, time: uint32)
    requires InForce(u) && u.Up?
    ensures var c := Measured(rpm, time); var v := Next(u, c);
            v.Up? && v.odometer == u.odometer && v.o.total == (u.o.total + Covered(u, c)) % U64
  {
    hide Sample, Carried, Factor, ValidFactor;
    SampleConserves(u.o, rpm, time);
  }

  lemma SampleBooks(w: World, rpm: uint16, time: uint32)
    ensures var c := Measured(rpm, time); var v := Step(w, c);
            v.u == Next(w.u, c) && v.h.lost == w.h.lost && v.h.covered == w.h.covered + Covered(w.u, c)
  {
    hide Next, Covered;
  }

  lemma SampleKeepsBalance(w: World, rpm: uint16, time: uint32, start: nat)
    requires InForce(w.u) && Balanced(w, start)
    ensures Balanced(Step(w, Measured(rpm, time)), start)
  {
    SampleBooks(w, rpm, time);
    if w.u.Up? {
      TotalGrows(w.u, rpm, time);
      hide Step, Next, Covered, InForce;
      WrapSum(w.u.o.total, w.h.lost, start + w.h.covered, Covered(w.u, Measured(rpm, time)));
    } else {
      DownStays(w.u, Measured(rpm, time));
    }
  }

  lemma DownStays(u: Unit, c: Call)
    requires u.Down? && c.Measured?
    ensures Next(u, c) == u && Covered(u, c) == 0
  {}

  lemma CutKeepsBalance(w: World, ok: bool, now: uint32, start: nat)
    requires Balanced(w, start)
    ensures Balanced(Step(w, PowerCut(ok, now)), start)
  {
    hide PoweredUp;
    ComesUpAtStored(w.u, ok, now);
    if w.u.Up? {
      WrapLoss(w.u.o.total, w.h.lost, start + w.h.covered, w.u.odometer.total as int);
    }
  }

  lemma StepKeepsBalance(w: World, c: Call, start: nat)
    requires InForce(w.u) && Balanced(w, start)
    ensures Balanced(Step(w, c), start)
  {
    hide InForce, Reading, Next, Covered;
    match c
    case Measured(rpm, time) => SampleKeepsBalance(w, rpm, time, start);
    case PowerCut(ok, now) => CutKeepsBalance(w, ok, now, start);
    case _ => KeepsReading(w.u, c);
  }

  /** The distance at stake grows by no more than the distance covered. */
  lemma UnsavedGrows(total: nat, saved: nat, d: nat)
    ensures ((total + d) % U64 - saved) % U64 == ((total - saved) % U64 + d) % U64
    ensures ((total + d) % U64 - saved) % U64 <= (total - saved) % U64 + d
  {
    var x, y := (total + d) / U64, (total - saved) / U64;
    var r := (total - saved) % U64;
    assert (total + d) % U64 - saved == (r + d) + (y - x) * U64;
    assert ((total + d) % U64 - saved) % U64 == (r + d) % U64;
  }

  /** A commit that succeeds leaves nothing at stake; one that fails leaves everything as it was. */
  lemma SavedSaves(u: Unit, ok: bool, now: uint32)
    requires u.Up? ==> u.o.total < U64
    ensures Unsaved(Saved(u, ok, now)) == if ok then 0 else Unsaved(u)
  {}

  lemma TendedSaves(u: Unit, ok: bool, now: uint32)
    requires u.Up? ==> u.o.total < U64
    ensures Unsaved(Tended(u, ok, now)) <= Unsaved(u)
    ensures ok ==> Unsaved(Tended(u, ok, now)) < 100000
  {
    hide Saved, Unsaved;
    SavedSaves(u, ok, now);
  }

  lemma MeasuredUnsaved(u: Unit, rpm: uint16, time: uint32)
    requires InForce(u)
    ensures var c := Measured(rpm, time);
            && Unsaved(Next(u, c)) <= Unsaved(u) + Covered(u, c)
            && Unsaved(Next(u, c)) == (Unsaved(u) + Covered(u, c)) % U64
  {
    hide Sample, Carried, Factor, ValidFactor;
    if u.Up? {
      TotalGrows(u, rpm, time);
      hide Next, Covered;
      UnsavedGrows(u.o.total, u.odometer.total as int, Covered(u, Measured(rpm, time)));
    }
  }

  lemma StepKeepsBound(w: World, c: Call)
    requires InForce(w.u) && Bounded(w)
    ensures Bounded(Step(w, c))
  {
    hide Sample, Saved, Tended, Factor, ValidFactor, Covered;
    match c
    case Measured(rpm, time) =>
      MeasuredUnsaved(w.u, rpm, time);
    case Tend(ok, now) =>
      TendedSaves(w.u, ok, now);
    case Shutdown(ok, now) =>
      SavedSaves(w.u, ok, now);
    case ClearTrip(ok, now) =>
      if w.u.Up? { SavedSaves(w.u.(o := Apply(w.u.o, TripReset)), ok, now); }
    case _ =>
  }

  /** A commit leaves nothing at stake; no other call but a sample or a power cut changes what is. */
  lemma CommitsIff(u: Unit, c: Call)
    requires !c.Measured? && !c.PowerCut? && (u.Up? ==> u.o.total < U64)
    ensures Unsaved(Next(u, c)) == (if Commits(u, c) then 0 else Unsaved(u)) && (Next(u, c).Down? <==> u.Down?)
  {
    hide Unsaved, Saved, Due, Factor;
    match c
    case Tend(ok, now) =>
      SavedSaves(u, ok, now);
      SavedStays(u, ok, now);
    case Shutdown(ok, now) =>
      SavedSaves(u, ok, now);
      SavedStays(u, ok, now);
    case ClearTrip(ok, now) =>
      if u.Up? {
        var v := u.(o := Apply(u.o, TripReset));
        SavedSaves(v, ok, now);
        SavedStays(v, ok, now);
        SameStake(u, v);
      }
    case Calibrate(tyre, gear, ok) => SameStake(u, Next(u, c));
  }

  lemma SavedStays(u: Unit, ok: bool, now: uint32)
    ensures Saved(u, ok, now).Down? <==> u.Down?
    ensures u.Down? ==> Saved(u, ok, now) == u
  {}

  lemma SameStake(u: Unit, v: Unit)
    requires u.odometer == v.odometer && (u.Up? <==> v.Up?) && (u.Up? ==> u.o.total == v.o.total)
    ensures Unsaved(u) == Unsaved(v)
  {}

  lemma StepKeepsExact(w: World, c: Call)
    requires InForce(w.u) && Exact(w)
    ensures Exact(Step(w, c))
  {
    hide Sample, Saved, Tended, Factor, ValidFactor, Covered, Unsaved, Commits, TripCleared, Calibrated;
    match c
    case Measured(rpm, time) =>
      MeasuredUnsaved(w.u, rpm, time);
      ModAdd(w.h.unstored, Covered(w.u, c));
      DownCoversNothing(w.u, c);
    case PowerCut(ok, now) =>
      NothingAtStake(w.u.odometer, w.u.calibration, ok, now);
    case _ =>
      CommitsIff(w.u, c);
  }

  lemma DownCoversNothing(u: Unit, c: Call)
    ensures u.Down? ==> Covered(u, c) == 0
  {}

  lemma NothingAtStake(odometer: NvmOdometer, calibration: NvmCalibration, ok: bool, now: uint32)
    ensures Unsaved(PoweredUp(odometer, calibration, ok, now)) == 0
  {
    hide Factor;
  }

  lemma ModAdd(a: nat, d: nat)
    ensures (a % U64 + d) % U64 == (a + d) % U64
  {
    assert a == a / U64 * U64 + a % U64;
    assert a + d == (a % U64 + d) + a / U64 * U64;
  }

  lemma ModLess(x: nat)
    ensures x % U64 <= x
  {}

  /** Other than samples, nothing lets the trip in memory grow past its durable copy and itself. */
  lemma KeepsTrip(u: Unit, c: Call)
    requires !c.Measured? && (u.Up? ==> u.o.trip < U64)
    ensures var v := Next(u, c); var most := Max(u);
            v.odometer.trip as int <= most && (v.Up? ==> v.o.trip <= most)
    ensures c.ClearTrip? && c.ok && u.Up? ==> Next(u, c).odometer.trip == 0 && Next(u, c).o.trip == 0
  {
    hide Unsaved, Factor;
  }

  /** The larger of the trip in memory and its durable copy. */
  function Max(u: Unit): nat {
    if u.Up? && u.o.trip > u.odometer.trip as int then u.o.trip else u.odometer.trip as int
  }

  lemma StepKeepsTrip(w: World, c: Call)
    requires InForce(w.u) && TripFollows(w)
    ensures TripFollows(Step(w, c))
  {
    hide Sample, Carried, Factor, ValidFactor, Tended, Saved, TripCleared, Calibrated, PoweredUp;
    match c
    case Measured(rpm, time) =>
      if w.u.Up? {
        SampleConserves(w.u.o, rpm, time);
        ModLess(w.u.o.trip + Carried(w.u.o, rpm, time));
      }
    case _ =>
      KeepsTrip(w.u, c);
  }

  lemma {:induction false} RunKeepsInv(w: World, cs: seq<Call>, start: nat)
    requires Inv(w, start)
    ensures Inv(Run(w, cs), start)
    decreases |cs|
  {
    hide Step, InForce, Balanced, Bounded, Exact, TripFollows;
    if cs != [] {
      KeepsInv(w, cs[0], start);
      RunKeepsInv(Step(w, cs[0]), cs[1..], start);
    }
  }

  lemma KeepsInv(w: World, c: Call, start: nat)
    requires Inv(w, start)
    ensures Inv(Step(w, c), start)
  {
    hide InForce, Balanced, Bounded, Exact, TripFollows, Next, Booked;
    StepKeepsInForce(w.u, c);
    StepKeepsBalance(w, c, start);
    StepKeepsBound(w, c);
    StepKeepsExact(w, c);
    StepKeepsTrip(w, c);
  }

  /** A unit that has just powered up, or failed to, with nothing booked yet. */
  function PowerUp(odometer: NvmOdometer, calibration: NvmCalibration, ok: bool, now: uint32): World {
    World(PoweredUp(odometer, calibration, ok, now), START)
  }

  /**
   * Over any run from a power-up: the reading and what power cuts took account for every millimetre covered; each
   * cut took less than the commit distance plus what was covered since the periodic function last ran with a
   * working NvM; and a running unit always uses the stored calibration.
   */
  lemma PowerCutsLoseLittle(odometer: NvmOdometer, calibration: NvmCalibration, ok: bool, now: uint32, cs: seq<Call>)
    ensures var w := Run(PowerUp(odometer, calibration, ok, now), cs);
            && (Reading(w.u) + w.h.lost) % U64 == (odometer.total as int + w.h.covered) % U64
            && w.h.lost <= 99999 * w.h.cuts + w.h.exposed
            && InForce(w.u)
  {
    StartsInv(odometer, calibration, ok, now);
    RunKeepsInv(PowerUp(odometer, calibration, ok, now), cs, odometer.total as int);
  }

  lemma StartsInv(odometer: NvmOdometer, calibration: NvmCalibration, ok: bool, now: uint32)
    ensures Inv(PowerUp(odometer, calibration, ok, now), odometer.total as int)
  {
    hide Factor, ValidFactor;
    if InRange(calibration.tyre, calibration.gear) { PowerOnIsValid(odometer, calibration); }
  }

  /**
   * What a power cut takes, after any run: exactly what was covered since the last commit that reached NvM or the
   * last power-up, modulo 2^64. So a cut of a unit that has covered less than 2^64 mm since then loses more than the
   * hundred metres of the commit distance exactly when it has covered more than that.
   */
  lemma CutLosesExactly(odometer: NvmOdometer, calibration: NvmCalibration, up: bool, at: uint32, cs: seq<Call>,
                        ok: bool, now: uint32)
    ensures var w := Run(PowerUp(odometer, calibration, up, at), cs);
            var loss := Step(w, PowerCut(ok, now)).h.lost - w.h.lost;
            && loss == w.h.unstored % U64
            && (w.h.unstored < U64 ==> (loss > 100000 <==> w.h.unstored > 100000))
  {
    hide PowerUp, Run, Step, InForce, Balanced, Bounded, TripFollows, Exact;
    var w := Run(PowerUp(odometer, calibration, up, at), cs);
    StartsInv(odometer, calibration, up, at);
    RunKeepsInv(PowerUp(odometer, calibration, up, at), cs, odometer.total as int);
    CutTakesStake(w, ok, now);
  }

  lemma CutTakesStake(w: World, ok: bool, now: uint32)
    requires Exact(w)
    ensures Step(w, PowerCut(ok, now)).h.lost - w.h.lost == w.h.unstored % U64
  {
    hide PoweredUp, Unsaved;
  }

  /** A tyre of 17 inches and a gear ratio of 8. */
  const SMALL_TYRE := NvmCalibration(17000, 8000, 12000)
  const NEW := NvmOdometer(0, 0, 0)

  /**
   * An input: at 12000 rpm, with the periodic function run right after one sample and the next sample ten seconds
   * later, a power cut takes 339 m, although everything that was due was committed.
   */
  lemma HundredMetresExceeded()
    ensures var cs := [Measured(12000, 0), Tend(true, 0), Measured(12000, 10000)];
            var w := Run(PowerUp(NEW, SMALL_TYRE, true, 0), cs);
            && w.h.untended == w.h.unstored == 339134 && Step(w, PowerCut(true, 10000)).h.lost == 339134
  {
    hide Step;
    var a, b, c := Measured(12000, 0), Tend(true, 0), Measured(12000, 10000);
    var w0 := PowerUp(NEW, SMALL_TYRE, true, 0);
    var w := World(Cruising(), START);
    FirstSampleCruises();
    TendsNothing();
    assert [a, b, c][1..] == [b, c] && [b, c][1..] == [c] && [c][1..] == [];
    assert Run(w0, [a, b, c]) == Run(w, [b, c]) == Run(w, [c]) == Step(w, c);
    TenSecondsCovered();
  }

  /** The unit once it has a reference at 12000 rpm. */
  function Cruising(): Unit {
    Up(Odo(12138111, 12000, 0, 0, 0, 12000, 0, true, Speed(12000, 12138111)), NEW, SMALL_TYRE, 0)
  }

  lemma FirstSampleCruises()
    ensures Step(PowerUp(NEW, SMALL_TYRE, true, 0), Measured(12000, 0)) == World(Cruising(), START)
  {
    hide Step, PowerUp;
    PowersUp();
    FirstSample(Up(Odo(12138111, 12000, 0, 0, 0, 0, 0, false, 0), NEW, SMALL_TYRE, 0), START, 12000, 0);
  }

  lemma PowersUp()
    ensures PowerUp(NEW, SMALL_TYRE, true, 0)
         == World(Up(Odo(12138111, 12000, 0, 0, 0, 0, 0, false, 0), NEW, SMALL_TYRE, 0), START)
  {
    hide Factor;
    SmallTyreFactor();
  }

  /** A first sample sets the reference and the speed, and covers nothing. */
  lemma FirstSample(u: Unit, h: History, rpm: uint16, time: uint32)
    requires u.Up? && !u.o.haveLast && rpm <= u.o.maxRpm && u.o.fraction < U32 && h.trip == None
    ensures Step(World(u, h), Measured(rpm, time))
         == World(u.(o := u.o.(lastRpm := rpm, lastTime := time, haveLast := true, speed := Speed(rpm, u.o.factor))), h)
  {
    hide Speed, AccelerationImplausible;
  }

  lemma SmallTyreFactor()
    ensures Factor(17000, 8000) == 12138111
  {
    DivBounds(PI_Q24 * 17000 * MM_PER_INCH_X10 * 256, 600000 * 8000, 12138111, 12138111);
  }

  lemma TendsNothing()
    ensures Step(World(Cruising(), START), Tend(true, 0)) == World(Cruising(), START)
  {
    hide Speed;
  }

  lemma TenSecondsCovered()
    ensures var w := Step(World(Cruising(), START), Measured(12000, 10000));
            && w.h.untended == w.h.unstored == 339134 && Step(w, PowerCut(true, 10000)).h.lost == 339134
  {
    hide Speed, Factor;
    var o := Cruising().o;
    assert Judge(o, 12000, 10000) == Accepted;
    assert Product(24000, 10000, 12138111) == 2913146640000000;
    assert Carried(o, 12000, 10000) == 339134;
    hide Judge, Raw, Carried;
    var w := Step(World(Cruising(), START), Measured(12000, 10000));
    assert w.u.o.total == 339134;
  }

  /**
   * A trip reset reported as stored is never undone: whatever fails and however often power is cut afterwards,
   * the trip never exceeds what was covered since the reset.
   */
  lemma TripResetIsDurable(w: World, now: uint32, cs: seq<Call>, start: nat)
    requires Inv(w, start) && w.u.Up?
    ensures var v := Run(Step(w, ClearTrip(true, now)), cs);
            v.h.trip.Some? && (v.u.Up? ==> v.u.o.trip <= v.h.trip.value) && v.u.odometer.trip as int <= v.h.trip.value
  {
    hide Step, Inv;
    KeepsInv(w, ClearTrip(true, now), start);
    var s := Step(w, ClearTrip(true, now));
    assert s.h.trip == Some(0) by { ClearsTrip(w, now); }
    RunKeepsInv(s, cs, start);
    TripStaysBooked(s, cs);
    InvBoundsTrip(Run(s, cs), start);
  }

  lemma ClearsTrip(w: World, now: uint32)
    requires w.u.Up?
    ensures Step(w, ClearTrip(true, now)).h.trip == Some(0)
  {}

  lemma InvBoundsTrip(w: World, start: nat)
    requires Inv(w, start)
    ensures TripFollows(w)
  {}

  lemma {:induction false} TripStaysBooked(w: World, cs: seq<Call>)
    requires w.h.trip.Some?
    ensures Run(w, cs).h.trip.Some?
    decreases |cs|
  {
    hide Next, Covered;
    if cs != [] { TripStaysBooked(Step(w, cs[0]), cs[1..]); }
  }

  /** A power cut after a shutdown commit that succeeded takes nothing, and the unit comes back with its reading. */
  lemma ShutdownLosesNothing(w: World, at: uint32, ok: bool, now: uint32, start: nat)
    requires Inv(w, start) && w.u.Up?
    ensures var v := Run(w, [Shutdown(true, at), PowerCut(ok, now)]);
            Reading(v.u) == Reading(w.u) && v.h.lost == w.h.lost &&
            (ok ==> v.u.Up? && v.u.o.trip == w.u.o.trip && v.u.o.factor == w.u.o.factor)
  {
    hide Factor, ValidFactor;
    var cs := [Shutdown(true, at), PowerCut(ok, now)];
    var s := Step(w, cs[0]);
    assert cs[1..] == [PowerCut(ok, now)] && cs[1..][1..] == [];
    assert Run(w, cs) == Run(s, cs[1..]) == Step(s, PowerCut(ok, now));
  }
}
