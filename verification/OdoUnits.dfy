/**
 * What the fixed-point numbers of src/app/OdoSwc stand for: the wheel's travel per turn of the motor, the limit of
 * 2 g on what a sample may change, and which samples the integrated intervals join.
 */
module OdoUnits {
  import opened Base
  import opened OdoSwc

  // ---------------------------------------------------------------------------------------------
  // The conversion factor
  // ---------------------------------------------------------------------------------------------

  /** Millimetres per rpm and millisecond of a tyre (diameter in 1/1000 inch) behind a gear (ratio in 1/1000). */
  ghost function TravelPerRpmMs(pi: real, tyre: nat, gear: nat): real
    requires gear > 0
  {
    (pi * (tyre as real / 1000.0) * 25.4) / ((gear as real / 1000.0) * 60000.0)
  }

  /** The factor is that travel in units of 2^-32 mm, within a part in 10^8 and never short by a whole unit. */
  lemma FactorIsTravel(tyre: uint16, gear: uint16, pi: real)
    requires InRange(tyre, gear) && 3.14159265 <= pi <= 3.14159266
    ensures var exact := TravelPerRpmMs(pi, tyre, gear) * 4294967296.0;
            exact - 1.0 < Factor(tyre, gear) as real <= exact * 1.00000001
  {
    var n, d: nat := PI_Q24 * tyre * MM_PER_INCH_X10 * 256, 600000 * gear;
    var f := n / d;
    FloorDivision(n, d);
    var x := TravelPerRpmMs(pi, tyre, gear) * 4294967296.0;
    TravelTimes(pi, tyre, gear);
    assert n as real == 52707179.0 * 254.0 * 256.0 * tyre as real;
    FactorBetween(pi, tyre as real, d as real, f as real, n as real, x);
  }

  lemma FloorDivision(n: nat, d: nat)
    requires d > 0
    ensures (n / d) as real * d as real <= n as real < (n / d) as real * d as real + d as real
  {
    var q := n / d;
    assert q * d <= n < q * d + d;
    assert (q * d) as real == q as real * d as real;
  }

  lemma TravelTimes(pi: real, tyre: nat, gear: nat)
    requires gear > 0
    ensures TravelPerRpmMs(pi, tyre, gear) * 4294967296.0 * (600000.0 * gear as real)
         == pi * 254.0 * 4294967296.0 * tyre as real
  {
    var t, g := tyre as real, gear as real;
    var top, bottom := pi * (t / 1000.0) * 25.4, (g / 1000.0) * 60000.0;
    assert bottom == 60.0 * g;
    assert top == pi * t * 0.0254;
    assert (top / bottom) * bottom == top;
  }

  lemma FactorBetween(pi: real, t: real, d: real, f: real, n: real, x: real)
    requires 3.14159265 <= pi <= 3.14159266 && t >= 0.0 && d > 0.0
    requires n == 52707179.0 * 254.0 * 256.0 * t && x * d == pi * 254.0 * 4294967296.0 * t
    requires f * d <= n < f * d + d
    ensures x - 1.0 < f <= x * 1.00000001
  {
    var u := pi * t;
    assert 3.14159265 * t <= u <= 3.14159266 * t;
    assert x * d == u * 254.0 * 4294967296.0;
    assert x * d <= n <= (x * d) * 1.00000001;
    assert (x - 1.0) * d == x * d - d && (x * 1.00000001) * d == (x * d) * 1.00000001;
    Less(x - 1.0, f, d);
    AtMost(f, x * 1.00000001, d);
  }

  lemma Less(a: real, b: real, d: real)
    requires d > 0.0 && a * d < b * d
    ensures a < b
  {}

  lemma AtMost(a: real, b: real, d: real)
    requires d > 0.0 && a * d <= b * d
    ensures a <= b
  {}

  // ---------------------------------------------------------------------------------------------
  // Speeds
  // ---------------------------------------------------------------------------------------------

  /** Millimetres per second at a motor speed, unrounded. */
  ghost function ExactSpeed(rpm: nat, factor: nat): real {
    rpm as real * factor as real * 1000.0 / 4294967296.0
  }

  lemma ShiftRounds(n: nat)
    ensures (n / U32) as real <= n as real / 4294967296.0 < (n / U32) as real + 1.0
  {
    FloorDivision(n, U32);
  }

  lemma ExactIsQuotient(rpm: nat, factor: nat)
    ensures ExactSpeed(rpm, factor) == (rpm * factor * 1000) as real / 4294967296.0
  {
    assert (rpm * factor) as real == rpm as real * factor as real;
  }

  /** The size of a change of speed. */
  ghost function Change(a: real, b: real): real {
    if a >= b then a - b else b - a
  }

  lemma ChangeIsExact(a: uint16, b: uint16, factor: nat)
    ensures Change(ExactSpeed(a, factor), ExactSpeed(b, factor)) == ExactSpeed(RpmChange(a, b), factor)
  {
    var x, y, f := a as real, b as real, factor as real;
    assert x * f * 1000.0 / 4294967296.0 - y * f * 1000.0 / 4294967296.0 == (x - y) * f * 1000.0 / 4294967296.0;
    if a > b {
      MoreTravelsFaster(y, x, f);
    } else {
      MoreTravelsFaster(x, y, f);
    }
  }

  lemma MoreTravelsFaster(x: real, y: real, f: real)
    requires x <= y && f >= 0.0
    ensures x * f * 1000.0 / 4294967296.0 <= y * f * 1000.0 / 4294967296.0
  {
    assert (y - x) * f >= 0.0;
  }

  /**
   * The acceleration gate is 2 g, that is 19620 mm/s for each second since the last sample: a change of speed within
   * it is always accepted, and an accepted one is less than 1 mm/s over it.
   */
  lemma GateIsTwoG(o: Odo, rpm: uint16, time: uint32)
    requires o.haveLast && rpm <= o.maxRpm && 0 < Delta(time, o.lastTime) <= 10000
    ensures var change := Change(ExactSpeed(rpm, o.factor), ExactSpeed(o.lastRpm, o.factor));
            var seconds := Delta(time, o.lastTime) as real / 1000.0;
            && (change <= 19620.0 * seconds ==> Judge(o, rpm, time) == Accepted)
            && (Judge(o, rpm, time) == Accepted ==> change < 19620.0 * seconds + 1.0)
  {
    var n := RpmChange(rpm, o.lastRpm) * o.factor * 1000;
    ChangeIsExact(rpm, o.lastRpm, o.factor);
    ExactIsQuotient(RpmChange(rpm, o.lastRpm), o.factor);
    ShiftRounds(n);
  }

  // ---------------------------------------------------------------------------------------------
  // References
  // ---------------------------------------------------------------------------------------------

  /** A reference comes from a sample that was neither too fast nor a glitch. */
  ghost predicate Measures(o: Odo, e: Event) {
    e.SampleAt? && Judge(o, e.rpm, e.time) != RejectedRpm && Judge(o, e.rpm, e.time) != RejectedAccel
  }

  /** What leaves the reference alone: a trip reset and a glitch. */
  ghost predicate Passes(o: Odo, e: Event) {
    e.TripReset? || (e.SampleAt? && Judge(o, e.rpm, e.time) == RejectedAccel)
  }

  /** `es[i]` is the last event of the run that was not passed over, and it is a sample that measures. */
  ghost predicate LastMeasured(o: Odo, es: seq<Event>, i: nat) {
    && i < |es|
    && Measures(Run(o, es[..i]), es[i])
    && (forall j :: i < j < |es| ==> Passes(Run(o, es[..j]), es[j]))
  }

  /** The reference has the sample's speed and time, and the speed shown is that speed. */
  predicate RefersTo(o: Odo, e: Event) {
    e.SampleAt? && o.haveLast && o.lastRpm == e.rpm && o.lastTime == e.time && o.speed == Speed(e.rpm, o.factor)
  }

  lemma {:induction false} RunSnoc(o: Odo, es: seq<Event>, e: Event)
    ensures Run(o, es + [e]) == Apply(Run(o, es), e)
    decreases |es|
  {
    hide Apply;
    if es == [] {
      assert [] + [e] == [e] && [e][1..] == [];
    } else {
      assert (es + [e])[1..] == es[1..] + [e];
      RunSnoc(Apply(o, es[0]), es[1..], e);
    }
  }

  lemma EventRefers(o: Odo, e: Event)
    ensures Measures(o, e) ==> RefersTo(Apply(o, e), e)
    ensures Passes(o, e) ==> forall r :: RefersTo(o, r) ==> RefersTo(Apply(o, e), r)
    ensures Apply(o, e).haveLast ==> Measures(o, e) || (Passes(o, e) && o.haveLast)
  {
    hide AccelerationImplausible, Raw, Speed;
  }

  lemma LastMeasuredSnoc(o: Odo, es: seq<Event>, e: Event, i: nat)
    requires LastMeasured(o, es, i) && Passes(Run(o, es), e)
    ensures LastMeasured(o, es + [e], i)
  {
    hide Measures, Passes, Run;
    var all, n := es + [e], |es|;
    assert all[..i] == es[..i] && all[..n] == es;
    forall j | i < j < |all|
      ensures Passes(Run(o, all[..j]), all[j])
    {
      if j < n { assert all[..j] == es[..j]; }
    }
  }

  lemma NewlyMeasured(o: Odo, es: seq<Event>, e: Event)
    requires Measures(Run(o, es), e)
    ensures LastMeasured(o, es + [e], |es|)
  {
    hide Measures, Passes, Run;
    assert (es + [e])[..|es|] == es;
  }

  lemma {:induction false} ReferenceHolds(o: Odo, es: seq<Event>, i: nat)
    requires LastMeasured(o, es, i)
    ensures RefersTo(Run(o, es), es[i])
    decreases |es|
  {
    hide Measures, Passes, Apply, RefersTo, Run;
    var n := |es| - 1;
    var before := es[..n];
    assert es == before + [es[n]];
    RunSnoc(o, before, es[n]);
    EventRefers(Run(o, before), es[n]);
    if i < n {
      assert before[..i] == es[..i];
      forall j | i < j < |before|
        ensures Passes(Run(o, before[..j]), before[j])
      {
        assert before[..j] == es[..j];
      }
      ReferenceHolds(o, before, i);
    }
  }

  lemma {:induction false} ReferenceExists(o: Odo, es: seq<Event>) returns (i: nat)
    requires !o.haveLast && Run(o, es).haveLast
    ensures LastMeasured(o, es, i)
    decreases |es|
  {
    hide Measures, Passes, Apply;
    var n := |es| - 1;
    var before := es[..n];
    assert es == before + [es[n]];
    RunSnoc(o, before, es[n]);
    EventRefers(Run(o, before), es[n]);
    if Measures(Run(o, before), es[n]) {
      NewlyMeasured(o, before, es[n]);
      i := n;
    } else {
      i := ReferenceExists(o, before);
      LastMeasuredSnoc(o, before, es[n], i);
    }
  }

  /**
   * From power-up on, whatever is sampled, reset and recalibrated: there is a reference to integrate from exactly when
   * some sample has been measured since the last one that was too fast and the last recalibration; it is the last
   * sample measured, and the speed shown is that sample's.
   */
  lemma ReferenceIff(o: Odo, es: seq<Event>)
    requires !o.haveLast
    ensures Run(o, es).haveLast <==> exists i: nat :: LastMeasured(o, es, i)
    ensures forall i: nat :: i < |es| && LastMeasured(o, es, i) ==> RefersTo(Run(o, es), es[i])
  {
    hide LastMeasured, Run, RefersTo;
    if Run(o, es).haveLast {
      var i := ReferenceExists(o, es);
    }
    forall i: nat | i < |es| && LastMeasured(o, es, i)
      ensures RefersTo(Run(o, es), es[i]) && Run(o, es).haveLast
    {
      ReferenceHolds(o, es, i);
      HasReference(Run(o, es), es[i]);
    }
    forall i: nat | LastMeasured(o, es, i)
      ensures i < |es|
    {
      InRun(o, es, i);
    }
  }

  lemma InRun(o: Odo, es: seq<Event>, i: nat)
    requires LastMeasured(o, es, i)
    ensures i < |es|
  {}

  lemma HasReference(o: Odo, e: Event)
    requires RefersTo(o, e)
    ensures o.haveLast
  {}

  // ---------------------------------------------------------------------------------------------
  // Calibration
  // ---------------------------------------------------------------------------------------------

  /** The speed shown is the exact one, rounded down to a whole mm/s. */
  lemma SpeedIsRoundedDown(rpm: uint16, factor: nat)
    ensures Speed(rpm, factor) as real <= ExactSpeed(rpm, factor) < Speed(rpm, factor) as real + 1.0
  {
    ExactIsQuotient(rpm, factor);
    ShiftRounds(rpm * factor * 1000);
  }

  /**
   * A calibration in range and stored holds from then on, now and after any power-up: distances use its factor, both
   * readings stay, and nothing is integrated or carried across it. Any other leaves the unit as it was.
   */
  lemma CalibrationHolds(u: Unit, tyre: uint16, gear: uint16, ok: bool, readOk: bool, now: uint32)
    ensures var v := Calibrated(u, tyre, gear, ok);
            var taken := ok && 4000 <= tyre <= 60000 && 500 <= gear <= 50000;
            var w := PoweredUp(v.odometer, v.calibration, readOk, now);
            && v.odometer == u.odometer && v.Up? == u.Up?
            && (!taken ==> v == u)
            && (taken && v.Up? ==> v.o.factor == Factor(tyre, gear) && v.o.total == u.o.total && v.o.trip == u.o.trip &&
                                   v.o.fraction == 0 && !v.o.haveLast && v.o.maxRpm == u.o.maxRpm)
            && (taken && readOk ==> w.Up? && w.o.factor == Factor(tyre, gear) &&
                                    w.calibration.maxRpm == u.calibration.maxRpm)
  {
    hide Factor;
  }

  /** After power-up the first sample becomes the reference unless it exceeds the stored maximum; 12000 without one. */
  lemma FirstSampleIff(odometer: NvmOdometer, c: NvmCalibration, rpm: uint16, time: uint32)
    ensures var o := PowerOn(odometer, c);
            && (Judge(o, rpm, time) == First <==> rpm <= if c.maxRpm == 0 then 12000 else c.maxRpm)
            && Sample(o, rpm, time).total == odometer.total as int && Sample(o, rpm, time).trip == odometer.trip as int
  {
    hide Factor;
  }
}
