/**
 * The odometer of src/app/OdoSwc: Q32 fixed-point trapezoidal integration of motor speed with a carried
 * remainder, behind plausibility gates, on a wrapping millisecond clock.
 */
module OdoSwc {
  import opened Base

  const PI_Q24 := 52707179
  const MM_PER_INCH_X10 := 254
  const MAX_SAMPLE_GAP_MS := 10000
  const MAX_ACCEL_MM_PER_S2 := 19620
  const MIN_TYRE_MILLI_INCH := 4000
  const MAX_TYRE_MILLI_INCH := 60000
  const MIN_GEAR_RATIO_MILLI := 500
  const MAX_GEAR_RATIO_MILLI := 50000
  const PERSIST_DISTANCE_MM := 100000
  const PERSIST_INTERVAL_MS := 60000
  const DEFAULT_MAX_PLAUSIBLE_RPM: uint16 := 12000

  // ---------------------------------------------------------------------------------------------
  // Conversion factor
  // ---------------------------------------------------------------------------------------------

  const SMALLEST_FACTOR := 456964
  const LARGEST_FACTOR := 685446321

  predicate InRange(tyre: uint16, gear: uint16) {
    MIN_TYRE_MILLI_INCH <= tyre <= MAX_TYRE_MILLI_INCH && MIN_GEAR_RATIO_MILLI <= gear <= MAX_GEAR_RATIO_MILLI
  }

  /** A factor some accepted calibration can have. */
  predicate ValidFactor(f: nat) {
    SMALLEST_FACTOR <= f <= LARGEST_FACTOR
  }

  lemma MulMono(a: nat, b: nat, c: nat, d: nat)
    requires a <= b && c <= d
    ensures a * c <= b * d
  {
    assert a * c <= b * c <= b * d;
  }

  lemma DivBounds(n: nat, d: nat, lo: nat, hi: nat)
    requires d > 0 && lo * d <= n < (hi + 1) * d
    ensures lo <= n / d <= hi
  {
    var q := n / d;
    if q < lo { MulMono(q + 1, lo, d, d); }
    if q > hi { MulMono(hi + 1, q, d, d); }
  }

  /** Zero for a calibration out of range; otherwise a factor within the bounds, in 64-bit arithmetic. */
  method ComputeConversionFactorQ32(tyre: uint16, gear: uint16) returns (factor: uint32)
    ensures factor == Factor(tyre, gear)
    ensures 4000 <= tyre <= 60000 && 500 <= gear <= 50000 <==> factor != 0
    ensures factor != 0 ==> ValidFactor(factor)
  {
    if !InRange(tyre, gear) {
      return 0;
    }
    FactorBounds(tyre, gear);
    var numerator: uint64 := PI_Q24 as uint64 * tyre as uint64 * MM_PER_INCH_X10 as uint64 * 256;
    var denominator: uint64 := 600000 * gear as uint64;
    factor := (numerator / denominator) as int;
  }

  function Factor(tyre: uint16, gear: uint16): nat {
    if InRange(tyre, gear) then (PI_Q24 * tyre * MM_PER_INCH_X10 * 256) / (600000 * gear) else 0
  }

  lemma FactorBounds(tyre: uint16, gear: uint16)
    requires InRange(tyre, gear)
    ensures ValidFactor(Factor(tyre, gear))
    ensures PI_Q24 * tyre * MM_PER_INCH_X10 * 256 <= 205633896437760000
  {
    var n, d: nat := PI_Q24 * tyre * MM_PER_INCH_X10 * 256, 600000 * gear;
    DivBounds(n, d, SMALLEST_FACTOR, LARGEST_FACTOR);
  }

  /** The numerator exceeds 1.03e17 exactly above this tyre diameter. */
  lemma NumeratorIff(tyre: uint16)
    ensures PI_Q24 * tyre * MM_PER_INCH_X10 * 256 > 103_000_000_000_000_000 <==> tyre > 30053
  {}

  // ---------------------------------------------------------------------------------------------
  // One sample
  // ---------------------------------------------------------------------------------------------

  datatype Outcome = Accepted | RejectedRpm | RejectedAccel | RejectedGap | RejectedOrder | First

  /** Everything a sample can change; statistics counters are not part of it. */
  datatype Odo = Odo(
    factor: nat, maxRpm: uint16, total: nat, trip: nat, fraction: nat,
    lastRpm: uint16, lastTime: uint32, haveLast: bool, speed: nat)
  {
    ghost predicate Valid() {
      ValidFactor(factor) && total < U64 && trip < U64 && fraction < U32 && (haveLast ==> lastRpm <= maxRpm)
    }
  }

  /** Wrap-safe subtraction of two timestamps. */
  function Delta(now: uint32, since: uint32): uint32 {
    (now - since) % U32
  }

  function RpmChange(a: uint16, b: uint16): nat {
    if a > b then a - b else b - a
  }

  function AccelerationImplausible(lastRpm: uint16, rpm: uint16, factor: nat, delta: uint32): bool {
    (RpmChange(rpm, lastRpm) * factor * 1000 / U32) * 1000 > MAX_ACCEL_MM_PER_S2 * delta
  }

  function Judge(o: Odo, rpm: uint16, time: uint32): Outcome {
    if rpm > o.maxRpm then RejectedRpm
    else if !o.haveLast then First
    else
      var delta := Delta(time, o.lastTime);
      if delta == 0 then RejectedOrder
      else if delta > MAX_SAMPLE_GAP_MS then RejectedGap
      else if AccelerationImplausible(o.lastRpm, rpm, o.factor, delta) then RejectedAccel
      else Accepted
  }

  function Product(a: nat, b: nat, c: nat): nat {
    a * b * c
  }

  /** Twice the Q32 distance of the interval an accepted sample closes, before rounding. */
  function Raw(o: Odo, rpm: uint16, time: uint32): nat {
    if Judge(o, rpm, time) == Accepted then Product(o.lastRpm + rpm, Delta(time, o.lastTime), o.factor) else 0
  }

  /** Whole millimetres the sample carries out of the accumulator. */
  function Carried(o: Odo, rpm: uint16, time: uint32): nat {
    (o.fraction + Raw(o, rpm, time) / 2) / U32
  }

  function Speed(rpm: uint16, factor: nat): nat {
    rpm * factor * 1000 / U32
  }

  /** The state after a sample. */
  function Sample(o: Odo, rpm: uint16, time: uint32): Odo {
    match Judge(o, rpm, time)
    case RejectedRpm => o.(lastTime := time, haveLast := false)
    case First => o.(lastRpm := rpm, lastTime := time, haveLast := true, speed := Speed(rpm, o.factor))
    case RejectedOrder => o.(lastRpm := rpm, speed := Speed(rpm, o.factor))
    case RejectedGap => o.(lastRpm := rpm, lastTime := time, speed := Speed(rpm, o.factor))
    case RejectedAccel => o
    case Accepted =>
      var acc := o.fraction + Raw(o, rpm, time) / 2;
      o.(total := (o.total + acc / U32) % U64, trip := (o.trip + acc / U32) % U64, fraction := acc % U32,
         lastRpm := rpm, lastTime := time, speed := Speed(rpm, o.factor))
  }

  lemma SampleKeepsValid(o: Odo, rpm: uint16, time: uint32)
    requires o.Valid()
    ensures Sample(o, rpm, time).Valid()
  {}

  /** No 64-bit intermediate of the sample path leaves its range, whatever the calibration and the speeds. */
  lemma IntermediatesFit(f: nat, a: uint16, b: uint16, delta: uint32)
    requires ValidFactor(f)
    ensures a * f * 1000 <= 44920724646735000
    ensures delta <= MAX_SAMPLE_GAP_MS ==> (a + b) * delta <= 1310700000 && (a + b) * delta * f <= 898414492934700000
  {
    MulMono(a, 0xFFFF, f, LARGEST_FACTOR);
    if delta <= MAX_SAMPLE_GAP_MS {
      MulMono(a + b, 0x1FFFE, delta, MAX_SAMPLE_GAP_MS);
      MulMono((a + b) * delta, 0x1FFFE * MAX_SAMPLE_GAP_MS, f, LARGEST_FACTOR);
    }
  }

  /** The product stays below 7e15, for speeds that add up to 24000 rpm, exactly for factors up to 29166666. */
  lemma ProductIff(f: nat)
    ensures f <= 29166666 <==>
            forall sum: nat, delta: nat :: sum <= 24000 && delta <= MAX_SAMPLE_GAP_MS ==>
              Product(sum, delta, f) < 7_000_000_000_000_000
  {
    hide Product;
    if f <= 29166666 {
      forall sum: nat, delta: nat | sum <= 24000 && delta <= MAX_SAMPLE_GAP_MS
        ensures Product(sum, delta, f) < 7_000_000_000_000_000
      {
        ProductBelow(sum, delta, f);
      }
    } else {
      ProductAbove(f);
    }
  }

  lemma ProductBelow(sum: nat, delta: nat, f: nat)
    requires sum <= 24000 && delta <= MAX_SAMPLE_GAP_MS && f <= 29166666
    ensures Product(sum, delta, f) < 7_000_000_000_000_000
  {
    MulMono(sum, 24000, delta, MAX_SAMPLE_GAP_MS);
    MulMono(sum * delta, 24000 * MAX_SAMPLE_GAP_MS, f, 29166666);
  }

  lemma ProductAbove(f: nat)
    requires f > 29166666
    ensures Product(24000, MAX_SAMPLE_GAP_MS, f) >= 7_000_000_000_000_000
  {}

  /** Accepted calibrations on the far side of both bounds. */
  lemma BoundsAreExceeded()
    ensures InRange(60000, 500) && 60000 > 30053 && Factor(60000, 500) == LARGEST_FACTOR > 29166666
  {}

  lemma IncrementFits(f: nat, a: uint16, b: uint16, delta: uint32, sum: nat)
    requires ValidFactor(f) && delta <= MAX_SAMPLE_GAP_MS && sum == a + b
    ensures sum * delta <= 1310700000 && Product(sum, delta, f) <= 898414492934700000
  {
    IntermediatesFit(f, a, b, delta);
  }

  lemma Regrouped(a: nat, b: nat, c: nat, area: nat)
    requires area == a * b
    ensures area * c == Product(a, b, c)
  {}

  // ---------------------------------------------------------------------------------------------
  // Runs
  // ---------------------------------------------------------------------------------------------

  datatype Event = SampleAt(rpm: uint16, time: uint32) | TripReset | Recalibrated(factor: nat)

  ghost predicate ValidEvents(es: seq<Event>) {
    forall i :: 0 <= i < |es| && es[i].Recalibrated? ==> ValidFactor(es[i].factor)
  }

  function Apply(o: Odo, e: Event): Odo {
    match e
    case SampleAt(rpm, time) => Sample(o, rpm, time)
    case TripReset => o.(trip := 0)
    case Recalibrated(f) => o.(fraction := 0, factor := f, haveLast := false)
  }

  function Run(o: Odo, es: seq<Event>): Odo
    decreases |es|
  {
    if es == [] then o else Run(Apply(o, es[0]), es[1..])
  }

  function EventRaw(o: Odo, e: Event): nat {
    if e.SampleAt? then Raw(o, e.rpm, e.time) else 0
  }

  function EventDistance(o: Odo, e: Event): nat {
    if e.SampleAt? then Carried(o, e.rpm, e.time) else 0
  }

  function EventAccepted(o: Odo, e: Event): nat {
    if e.SampleAt? && Judge(o, e.rpm, e.time) == Accepted then 1 else 0
  }

  /** The unrounded sum of (previous rpm + rpm) * interval * factor over the accepted samples. */
  function RawSum(o: Odo, es: seq<Event>): nat
    decreases |es|
  {
    if es == [] then 0 else EventRaw(o, es[0]) + RawSum(Apply(o, es[0]), es[1..])
  }

  /** Millimetres added to the reading. */
  function Distance(o: Odo, es: seq<Event>): nat
    decreases |es|
  {
    if es == [] then 0 else EventDistance(o, es[0]) + Distance(Apply(o, es[0]), es[1..])
  }

  function AcceptedCount(o: Odo, es: seq<Event>): nat
    decreases |es|
  {
    if es == [] then 0 else EventAccepted(o, es[0]) + AcceptedCount(Apply(o, es[0]), es[1..])
  }

  function Recalibrations(es: seq<Event>): nat {
    if es == [] then 0 else (if es[0].Recalibrated? then 1 else 0) + Recalibrations(es[1..])
  }

  /** One sample moves its rounded increment from the accumulator to the reading and loses nothing else. */
  lemma SampleConserves(o: Odo, rpm: uint16, time: uint32)
    requires o.Valid()
    ensures var o', d := Sample(o, rpm, time), Carried(o, rpm, time);
            o'.Valid() && d * U32 + o'.fraction - o.fraction == Raw(o, rpm, time) / 2 &&
            o'.total == (o.total + d) % U64 && o'.trip == (o.trip + d) % U64
  {
    hide Raw, AccelerationImplausible, ValidFactor;
    if Judge(o, rpm, time) == Accepted {
      Splits(o.fraction + Raw(o, rpm, time) / 2);
    } else {
      assert Raw(o, rpm, time) == 0 by { NothingRaw(o, rpm, time); }
      Splits(o.fraction);
    }
  }

  lemma Splits(acc: nat)
    ensures acc == acc / U32 * U32 + acc % U32
    ensures acc < U32 ==> acc / U32 == 0
  {}

  lemma NothingRaw(o: Odo, rpm: uint16, time: uint32)
    requires Judge(o, rpm, time) != Accepted
    ensures Raw(o, rpm, time) == 0
  {}

  lemma WrapAdd(a: nat, b: nat, c: nat)
    ensures ((a + b) % U64 + c) % U64 == (a + (b + c)) % U64
  {}

  /**
   * Conservation over any run: the reading and the carried fraction account for the unrounded sum to within
   * half a unit of 2^-32 mm per accepted sample, plus less than a millimetre per recalibration.
   */
  lemma {:induction false} Conservation(o: Odo, es: seq<Event>)
    requires o.Valid() && ValidEvents(es)
    ensures Run(o, es).Valid()
    ensures Run(o, es).total == (o.total + Distance(o, es)) % U64
    ensures var moved := 2 * (Distance(o, es) * U32 + Run(o, es).fraction - o.fraction);
            RawSum(o, es) - AcceptedCount(o, es) - 2 * (U32 - 1) * Recalibrations(es) <= moved <= RawSum(o, es)
    decreases |es|
  {
    hide Apply, EventDistance, EventRaw, EventAccepted;
    if es != [] {
      var o1 := Apply(o, es[0]);
      ConservationStep(o, es[0]);
      Conservation(o1, es[1..]);
      WrapAdd(o.total, EventDistance(o, es[0]), Distance(o1, es[1..]));
    }
  }

  lemma ConservationStep(o: Odo, e: Event)
    requires o.Valid() && (e.Recalibrated? ==> ValidFactor(e.factor))
    ensures Apply(o, e).Valid()
    ensures Apply(o, e).total == (o.total + EventDistance(o, e)) % U64
    ensures var moved := 2 * (EventDistance(o, e) * U32 + Apply(o, e).fraction - o.fraction);
            EventRaw(o, e) - EventAccepted(o, e) - (if e.Recalibrated? then 2 * (U32 - 1) else 0)
            <= moved <= EventRaw(o, e)
  {
    hide Sample;
    hide Carried;
    if e.SampleAt? {
      SampleConserves(o, e.rpm, e.time);
    }
  }

  /** The lifetime and trip readings advance together; only a trip reset changes their difference. */
  lemma {:induction false} TripFollowsTotal(o: Odo, es: seq<Event>)
    requires o.Valid() && ValidEvents(es) && forall i :: 0 <= i < |es| ==> !es[i].TripReset?
    ensures (Run(o, es).total - Run(o, es).trip) % U64 == (o.total - o.trip) % U64
    decreases |es|
  {
    hide Sample;
    hide Carried;
    if es != [] {
      TripStep(o, es[0]);
      TripFollowsTotal(Apply(o, es[0]), es[1..]);
    }
  }

  lemma TripStep(o: Odo, e: Event)
    requires o.Valid() && !e.TripReset? && (e.Recalibrated? ==> ValidFactor(e.factor))
    ensures Apply(o, e).Valid()
    ensures (Apply(o, e).total - Apply(o, e).trip) % U64 == (o.total - o.trip) % U64
  {
    hide Sample;
    hide Carried;
    if e.SampleAt? {
      SampleConserves(o, e.rpm, e.time);
      WrapDifference(o.total, o.trip, Carried(o, e.rpm, e.time));
    }
  }

  lemma WrapDifference(a: nat, b: nat, d: nat)
    ensures ((a + d) % U64 - (b + d) % U64) % U64 == (a - b) % U64
  {
    var x, y := (a + d) / U64, (b + d) / U64;
    assert (a + d) % U64 - (b + d) % U64 == (a - b) + (y - x) * U64;
  }

  // ---------------------------------------------------------------------------------------------
  // No fabricated distance
  // ---------------------------------------------------------------------------------------------

  /** A call of the component and the true time, in milliseconds since power-on, at which it was made. */
  datatype Timed = Timed(event: Event, at: nat)

  /** Samples carry the 32-bit clock of their true time. */
  ghost predicate OnClock(t: Timed) {
    (t.event.SampleAt? ==> t.event.time == t.at % U32) && (t.event.Recalibrated? ==> ValidFactor(t.event.factor))
  }

  /** Calls in order of time, none before `from`. */
  ghost predicate Timeline(from: nat, ts: seq<Timed>)
    decreases |ts|
  {
    ts == [] || (from <= ts[0].at && OnClock(ts[0]) && Timeline(ts[0].at, ts[1..]))
  }

  function EventsOf(ts: seq<Timed>): (es: seq<Event>)
    ensures |es| == |ts|
  {
    seq(|ts|, i requires 0 <= i < |ts| => ts[i].event)
  }

  function FactorAfter(factor: nat, e: Event): nat {
    if e.Recalibrated? then e.factor else factor
  }

  /** `ref` is the true time of the reference sample, when there is one. */
  ghost predicate ReferenceAt(o: Odo, ref: nat) {
    o.haveLast ==> o.lastTime == ref % U32
  }

  /** The true time of the reference after a call. */
  function NextReference(o: Odo, ref: nat, t: Timed): nat {
    match t.event
    case SampleAt(rpm, time) =>
      var out := Judge(o, rpm, time);
      if out == RejectedOrder || out == RejectedAccel then ref else t.at
    case TripReset => ref
    case Recalibrated(_) => t.at
  }

  /** The true-time intervals that accepted samples integrate, in order. */
  function Intervals(o: Odo, ts: seq<Timed>): seq<(int, nat)>
    decreases |ts|
  {
    if ts == [] then []
    else
      var t := ts[0];
      var rest := Intervals(Apply(o, t.event), ts[1..]);
      if EventAccepted(o, t.event) == 1 then [(t.at - Delta(t.event.time, o.lastTime), t.at)] + rest else rest
  }

  lemma DeltaWithinElapsed(ref: nat, at: nat)
    requires ref <= at
    ensures Delta(at % U32, ref % U32) <= at - ref
  {
    assert (at % U32 - ref % U32) % U32 == (at - ref) % U32 by {
      var x, y := at / U32, ref / U32;
      assert at % U32 - ref % U32 == (at - ref) + (y - x) * U32;
    }
  }

  /**
   * Integrated intervals never overlap and last at most ten seconds each, on the true time line, across any number
   * of wraps of the 32-bit clock, and whatever trip resets and recalibrations come between the samples.
   */
  lemma {:induction false} IntervalsAreDisjoint(o: Odo, ts: seq<Timed>, ref: nat)
    requires ReferenceAt(o, ref) && Timeline(ref, ts)
    ensures Disjoint(ref, Intervals(o, ts))
    decreases |ts|
  {
    hide Apply, EventAccepted, NextReference, ReferenceAt, OnClock;
    if ts != [] {
      var t := ts[0];
      var o1, ref' := Apply(o, t.event), NextReference(o, ref, t);
      NextReferenceHolds(o, ref, t);
      TimelineFrom(ref', t.at, ts[1..]);
      IntervalsAreDisjoint(o1, ts[1..], ref');
      if EventAccepted(o, t.event) == 1 {
        DisjointCons(ref, (t.at - Delta(t.event.time, o.lastTime), t.at), Intervals(o1, ts[1..]));
      } else {
        DisjointFrom(ref, ref', Intervals(o1, ts[1..]));
      }
    }
  }

  /** Intervals in order, none longer than the integration limit, all at or after `from`. */
  ghost predicate Disjoint(from: int, v: seq<(int, nat)>) {
    (forall i :: 0 <= i < |v| ==> from <= v[i].0 < v[i].1 <= v[i].0 + 10000) &&
    (forall i, j :: 0 <= i < j < |v| ==> v[i].1 <= v[j].0)
  }

  lemma DisjointFrom(from: int, later: int, v: seq<(int, nat)>)
    requires from <= later && Disjoint(later, v)
    ensures Disjoint(from, v)
  {}

  lemma DisjointCons(from: int, x: (int, nat), v: seq<(int, nat)>)
    requires from <= x.0 < x.1 <= x.0 + 10000 && Disjoint(x.1, v)
    ensures Disjoint(from, [x] + v)
  {
    var w := [x] + v;
    assert forall i :: 1 <= i < |w| ==> w[i] == v[i - 1];
  }

  /** The reference stays where it was or moves to the call, and an accepted interval starts after it. */
  lemma NextReferenceHolds(o: Odo, ref: nat, t: Timed)
    requires ReferenceAt(o, ref) && ref <= t.at && OnClock(t)
    ensures var o', ref' := Apply(o, t.event), NextReference(o, ref, t);
            ReferenceAt(o', ref') && ref <= ref' <= t.at && o'.maxRpm == o.maxRpm &&
            o'.factor == FactorAfter(o.factor, t.event) && (o.Valid() ==> o'.Valid())
    ensures EventAccepted(o, t.event) == 1 ==>
              t.event.SampleAt? && NextReference(o, ref, t) == t.at &&
              0 < Delta(t.event.time, o.lastTime) <= t.at - ref &&
              Delta(t.event.time, o.lastTime) <= 10000
  {
    hide AccelerationImplausible, ValidFactor, Raw;
    DeltaWithinElapsed(ref, t.at);
  }

  lemma TimelineFrom(a: nat, b: nat, ts: seq<Timed>)
    requires a <= b && Timeline(b, ts)
    ensures Timeline(a, ts)
  {}

  /** The factor in force integrated over the time from `from` to the last call. */
  function FactorTime(factor: nat, from: nat, ts: seq<Timed>): nat
    decreases |ts|
  {
    if ts == [] || ts[0].at < from then 0
    else factor * (ts[0].at - from) + FactorTime(FactorAfter(factor, ts[0].event), ts[0].at, ts[1..])
  }

  /**
   * Distance is never fabricated: over any samples, trip resets and recalibrations, the reading grows by at most
   * what the highest plausible speed covers, under the calibration then in force, in the time that really passed.
   */
  lemma NoFabricatedDistance(o: Odo, ts: seq<Timed>, ref: nat)
    requires o.Valid() && ReferenceAt(o, ref) && Timeline(ref, ts)
    ensures RawSum(o, EventsOf(ts)) <= 2 * o.maxRpm * FactorTime(o.factor, ref, ts)
    ensures Distance(o, EventsOf(ts)) * U32 <= o.fraction + o.maxRpm * FactorTime(o.factor, ref, ts)
  {
    hide RawSum, Distance, Run, FactorTime, AcceptedCount, Odo.Valid, Timeline, ReferenceAt;
    RawIsBounded(o, ts, ref, ref);
    TimelineIsValid(ref, ts);
    Conservation(o, EventsOf(ts));
    Regroup(2, o.maxRpm, FactorTime(o.factor, ref, ts));
  }

  lemma {:induction false} TimelineIsValid(from: nat, ts: seq<Timed>)
    requires Timeline(from, ts)
    ensures ValidEvents(EventsOf(ts))
    decreases |ts|
  {
    if ts != [] {
      TimelineIsValid(ts[0].at, ts[1..]);
      var es, rest := EventsOf(ts), EventsOf(ts[1..]);
      assert forall i :: 1 <= i < |es| ==> es[i] == rest[i - 1];
    }
  }

  /** Between calls the reference may lag the last call; what it lags by is still to be integrated. */
  lemma {:induction false} RawIsBounded(o: Odo, ts: seq<Timed>, ref: nat, last: nat)
    requires o.Valid() && ReferenceAt(o, ref) && ref <= last && Timeline(last, ts)
    ensures RawSum(o, EventsOf(ts)) <= 2 * o.maxRpm * (o.factor * (last - ref) + FactorTime(o.factor, last, ts))
    decreases |ts|
  {
    hide Apply, EventRaw, NextReference, ReferenceAt, OnClock, Odo.Valid;
    if ts != [] {
      var t := ts[0];
      var o1 := Apply(o, t.event);
      var ref' := TimedStep(o, t, ref, last);
      RawIsBounded(o1, ts[1..], ref', t.at);
      assert EventsOf(ts)[1..] == EventsOf(ts[1..]);
      var rest := FactorTime(o1.factor, t.at, ts[1..]);
      Gather(2 * o.maxRpm, EventRaw(o, t.event), RawSum(o1, EventsOf(ts[1..])), o1.factor * (t.at - ref'),
             o.factor * (last - ref), o.factor * (t.at - last), rest);
    }
  }

  lemma Gather(k: nat, x: nat, y: nat, a: nat, b: nat, c: nat, rest: nat)
    requires x + k * a <= k * (b + c) && y <= k * (a + rest)
    ensures x + y <= k * (b + (c + rest))
  {
    assert k * (a + rest) == k * a + k * rest;
    assert k * (b + (c + rest)) == k * (b + c) + k * rest;
  }

  /** One call: what it integrates and what it leaves to integrate are within the time since the reference. */
  lemma TimedStep(o: Odo, t: Timed, ref: nat, last: nat) returns (ref': nat)
    requires o.Valid() && ReferenceAt(o, ref) && ref <= last <= t.at && OnClock(t)
    ensures ref' <= t.at && ReferenceAt(Apply(o, t.event), ref') && Apply(o, t.event).Valid()
    ensures Apply(o, t.event).maxRpm == o.maxRpm && Apply(o, t.event).factor == FactorAfter(o.factor, t.event)
    ensures EventRaw(o, t.event) + 2 * o.maxRpm * (FactorAfter(o.factor, t.event) * (t.at - ref'))
         <= 2 * o.maxRpm * (o.factor * (last - ref) + o.factor * (t.at - last))
  {
    hide Sample, Raw, Judge, ValidFactor;
    Spread(o.factor, last - ref, t.at - last);
    NextReferenceHolds(o, ref, t);
    ref' := NextReference(o, ref, t);
    match t.event
    case SampleAt(rpm, time) =>
      RawBound(o, rpm, time, ref' - ref);
      Remainder(2 * o.maxRpm, o.factor, ref' - ref, t.at - ref', Raw(o, rpm, time));
    case TripReset =>
    case Recalibrated(f) =>
      assert f * (t.at - ref') == 0;
  }

  lemma Remainder(k: nat, f: nat, x: nat, y: nat, r: nat)
    requires r <= k * f * x
    ensures r + k * (f * y) <= k * (f * (x + y))
  {
    Regroup(k, f, x);
    Spread(f, x, y);
    Spread(k, f * x, f * y);
  }

  lemma Spread(k: nat, a: nat, b: nat)
    ensures k * (a + b) == k * a + k * b
  {}

  lemma Regroup(a: nat, b: nat, c: nat)
    ensures a * b * c == a * (b * c)
  {}

  lemma RawBound(o: Odo, rpm: uint16, t: uint32, span: nat)
    requires o.Valid() && (Judge(o, rpm, t) == Accepted ==> Delta(t, o.lastTime) <= span)
    ensures Raw(o, rpm, t) <= 2 * o.maxRpm * o.factor * span
  {
    if Judge(o, rpm, t) == Accepted {
      var sum: nat, d: nat := o.lastRpm + rpm, Delta(t, o.lastTime);
      MulMono(sum, 2 * o.maxRpm, d, span);
      MulMono(sum * d, 2 * o.maxRpm * span, o.factor, o.factor);
      assert 2 * o.maxRpm * span * o.factor == 2 * o.maxRpm * o.factor * span;
    }
  }

  // ---------------------------------------------------------------------------------------------
  // Sampling independence
  // ---------------------------------------------------------------------------------------------

  /** A sample and the true time, in milliseconds since power-on, at which it was taken. */
  datatype Stamped = Stamped(rpm: uint16, at: nat)

  function Events(ss: seq<Stamped>): (es: seq<Event>)
    ensures |es| == |ss|
  {
    seq(|ss|, i requires 0 <= i < |ss| => SampleAt(ss[i].rpm, ss[i].at % U32))
  }

  function LastTime(from: nat, ss: seq<Stamped>): nat {
    if ss == [] then from else ss[|ss| - 1].at
  }

  /** Every sample of the schedule is accepted, less than one clock period after the one before. */
  ghost predicate FullyAccepted(o: Odo, from: nat, ss: seq<Stamped>)
    decreases |ss|
  {
    ss == [] ||
    (from <= ss[0].at < from + U32 && Judge(o, ss[0].rpm, ss[0].at % U32) == Accepted &&
     FullyAccepted(Sample(o, ss[0].rpm, ss[0].at % U32), ss[0].at, ss[1..]))
  }

  /** A speed within e / q rpm of (a + b t) / q at time t: exactly linear when e is zero. */
  ghost predicate OnLine(rpm: nat, at: nat, q: nat, a: int, b: int, e: nat) {
    a + b * at - e <= q * rpm <= a + b * at + e
  }

  ghost predicate Linear(ss: seq<Stamped>, q: nat, a: int, b: int, e: nat) {
    forall i :: 0 <= i < |ss| ==> OnLine(ss[i].rpm, ss[i].at, q, a, b, e)
  }

  /** Twice the exact integral of a + b * t from 0 to t. */
  function Integral(a: int, b: int, t: int): int {
    2 * a * t + b * t * t
  }

  /**
   * Speeds on a line of any rational slope up to e / q rpm, as measuring in whole rpm leaves them: whatever the
   * schedule, the sum of the trapezoids is the integral of the line to within e / q rpm over the span.
   */
  lemma {:induction false} LinearIsClose(o: Odo, from: nat, ss: seq<Stamped>, q: nat, a: int, b: int, e: nat)
    requires o.haveLast && o.lastTime == from % U32 && OnLine(o.lastRpm, from, q, a, b, e)
    requires FullyAccepted(o, from, ss) && Linear(ss, q, a, b, e)
    ensures var t := LastTime(from, ss);
            && t >= from
            && var error := q * RawSum(o, Events(ss)) - o.factor * (Integral(a, b, t) - Integral(a, b, from));
               -(2 * e * o.factor * (t - from)) <= error <= 2 * e * o.factor * (t - from)
    ensures AcceptedCount(o, Events(ss)) == |ss|
    decreases |ss|
  {
    hide Sample, Judge, EventRaw, EventAccepted, Integral, OnLine;
    if ss != [] {
      var s := ss[0];
      var o1, t := Sample(o, s.rpm, s.at % U32), LastTime(from, ss);
      AcceptedSample(o, s.rpm, s.at % U32);
      LinearIsClose(o1, s.at, ss[1..], q, a, b, e);
      assert Events(ss)[1..] == Events(ss[1..]);
      DeltaIsElapsed(from, s.at);
      var raw, rest := EventRaw(o, SampleAt(s.rpm, s.at % U32)), RawSum(o1, Events(ss[1..]));
      Trapezoid(o.lastRpm, s.rpm, from, s.at, o.factor, q, a, b, e);
      Telescope(o.factor, Integral(a, b, from), Integral(a, b, s.at), Integral(a, b, t));
      Telescope(2 * e * o.factor, from, s.at, t);
      Telescope(q, 0, raw, raw + rest);
    } else {
      assert Events(ss) == [];
      assert o.factor * (Integral(a, b, from) - Integral(a, b, from)) == 0;
    }
  }

  /** For a linear speed of any rational slope the trapezoids sum to the exact integral, whatever the schedule. */
  lemma LinearIsExact(o: Odo, from: nat, ss: seq<Stamped>, q: nat, a: int, b: int)
    requires o.haveLast && o.lastTime == from % U32 && OnLine(o.lastRpm, from, q, a, b, 0)
    requires FullyAccepted(o, from, ss) && Linear(ss, q, a, b, 0)
    ensures q * RawSum(o, Events(ss)) == o.factor * (Integral(a, b, LastTime(from, ss)) - Integral(a, b, from))
  {
    LinearIsClose(o, from, ss, q, a, b, 0);
  }

  lemma AcceptedSample(o: Odo, rpm: uint16, time: uint32)
    requires Judge(o, rpm, time) == Accepted
    ensures EventRaw(o, SampleAt(rpm, time)) == (o.lastRpm + rpm) * Delta(time, o.lastTime) * o.factor
    ensures EventAccepted(o, SampleAt(rpm, time)) == 1
    ensures var v := Sample(o, rpm, time); v.haveLast && v.lastTime == time && v.lastRpm == rpm && v.factor == o.factor
  {
    hide AccelerationImplausible;
  }

  lemma DeltaIsElapsed(from: nat, at: nat)
    requires from <= at < from + U32
    ensures Delta(at % U32, from % U32) == at - from
  {}

  /** One interval: the trapezium of two speeds near the line is near its integral. */
  lemma Trapezoid(x: nat, y: nat, s: nat, t: nat, f: nat, q: nat, a: int, b: int, e: nat)
    requires s <= t && OnLine(x, s, q, a, b, e) && OnLine(y, t, q, a, b, e)
    ensures var error := q * ((x + y) * (t - s) * f) - f * (Integral(a, b, t) - Integral(a, b, s));
            -(2 * e * f * (t - s)) <= error <= 2 * e * f * (t - s)
  {
    var ends := (a + b * s) + (a + b * t);
    var d := q * (x + y) - ends;
    assert q * (x + y) == q * x + q * y;
    LineIntegral(a, b, s, t);
    Rearranged(q, x + y, t - s, f, ends, d);
    Scaled(-(2 * e), d, f * (t - s));
    Scaled(d, 2 * e, f * (t - s));
    Regroup3(2 * e, f, t - s);
  }

  lemma LineIntegral(a: int, b: int, s: int, t: int)
    ensures ((a + b * s) + (a + b * t)) * (t - s) == Integral(a, b, t) - Integral(a, b, s)
  {
    assert ((a + b * s) + (a + b * t)) * (t - s) == 2 * a * (t - s) + (b * s + b * t) * (t - s);
    assert (b * s + b * t) * (t - s) == b * t * t - b * s * s;
  }

  lemma Rearranged(q: int, sum: int, span: int, f: int, ends: int, d: int)
    requires d == q * sum - ends
    ensures q * (sum * span * f) - f * (ends * span) == d * (f * span)
  {
    assert q * (sum * span * f) == (q * sum) * (f * span);
    assert f * (ends * span) == ends * (f * span);
  }

  lemma Scaled(x: int, y: int, k: nat)
    requires x <= y
    ensures x * k <= y * k
  {}

  lemma Regroup3(a: int, b: int, c: int)
    ensures a * (b * c) == a * b * c && (-a) * (b * c) == -(a * b * c)
  {}

  lemma Telescope(f: int, x: int, y: int, z: int)
    ensures f * (y - x) + f * (z - y) == f * (z - x)
  {}

  /**
   * Two fully accepted schedules of one linear speed of any rational slope over the same span have the same unrounded
   * sum, and leave readings that agree to half a unit of 2^-32 mm per sample. When the speeds are only within e / q
   * rpm of the line, the sums differ by at most what twice that error covers in the span.
   */
  lemma SchedulesAgree(o: Odo, from: nat, s1: seq<Stamped>, s2: seq<Stamped>, q: nat, a: int, b: int, e: nat)
    requires o.Valid() && o.haveLast && o.lastTime == from % U32 && q > 0 && OnLine(o.lastRpm, from, q, a, b, e)
    requires FullyAccepted(o, from, s1) && Linear(s1, q, a, b, e)
    requires FullyAccepted(o, from, s2) && Linear(s2, q, a, b, e)
    requires LastTime(from, s1) == LastTime(from, s2)
    ensures var apart := RawSum(o, Events(s1)) - RawSum(o, Events(s2));
            var x := Distance(o, Events(s1)) * U32 + Run(o, Events(s1)).fraction;
            var y := Distance(o, Events(s2)) * U32 + Run(o, Events(s2)).fraction;
            && (e == 0 ==> apart == 0)
            && -(4 * e * o.factor * (LastTime(from, s1) - from)) <= q * apart
            && q * apart <= 4 * e * o.factor * (LastTime(from, s1) - from)
            && apart - |s1| <= 2 * (x - y) <= apart + |s2|
  {
    hide RawSum, Distance, Run, FullyAccepted, Linear, OnLine, Odo.Valid;
    SumsAgree(o, from, s1, s2, q, a, b, e);
    ReadingTracksSum(o, from, s1, q, a, b, e);
    ReadingTracksSum(o, from, s2, q, a, b, e);
  }

  lemma SumsAgree(o: Odo, from: nat, s1: seq<Stamped>, s2: seq<Stamped>, q: nat, a: int, b: int, e: nat)
    requires o.haveLast && o.lastTime == from % U32 && q > 0 && OnLine(o.lastRpm, from, q, a, b, e)
    requires FullyAccepted(o, from, s1) && Linear(s1, q, a, b, e)
    requires FullyAccepted(o, from, s2) && Linear(s2, q, a, b, e)
    requires LastTime(from, s1) == LastTime(from, s2)
    ensures var apart := RawSum(o, Events(s1)) - RawSum(o, Events(s2));
            var most := 4 * e * o.factor * (LastTime(from, s1) - from);
            (e == 0 ==> apart == 0) && -most <= q * apart <= most
  {
    hide RawSum, FullyAccepted, Linear, Integral, OnLine, LastTime;
    var r1: int, r2: int := RawSum(o, Events(s1)), RawSum(o, Events(s2));
    LinearIsClose(o, from, s1, q, a, b, e);
    LinearIsClose(o, from, s2, q, a, b, e);
    var t := LastTime(from, s1);
    Apart(q, r1, r2, o.factor * (Integral(a, b, t) - Integral(a, b, from)), 2 * e * o.factor * (t - from));
    Doubled(e, o.factor, t - from);
    if e == 0 { Cancels(q, r1 - r2); }
  }

  lemma Apart(q: int, r1: int, r2: int, x: int, k: int)
    requires -k <= q * r1 - x <= k && -k <= q * r2 - x <= k
    ensures -(2 * k) <= q * (r1 - r2) <= 2 * k
  {
    assert q * (r1 - r2) == q * r1 - q * r2;
  }

  lemma ReadingTracksSum(o: Odo, from: nat, ss: seq<Stamped>, q: nat, a: int, b: int, e: nat)
    requires o.Valid() && o.haveLast && o.lastTime == from % U32 && OnLine(o.lastRpm, from, q, a, b, e)
    requires FullyAccepted(o, from, ss) && Linear(ss, q, a, b, e)
    ensures var moved := 2 * (Distance(o, Events(ss)) * U32 + Run(o, Events(ss)).fraction - o.fraction);
            RawSum(o, Events(ss)) - |ss| <= moved <= RawSum(o, Events(ss))
  {
    hide RawSum, Distance, Run, FullyAccepted, Linear, Integral, OnLine, Odo.Valid;
    LinearIsClose(o, from, ss, q, a, b, e);
    NoRecalibrations(ss);
    Conservation(o, Events(ss));
  }

  lemma Doubled(e: nat, f: nat, t: nat)
    ensures 4 * e * f * t == 2 * (2 * e * f * t)
    ensures e == 0 ==> 4 * e * f * t == 0
  {
    assert 4 * e * f == 2 * (2 * e * f);
    Regroup(2, 2 * e * f, t);
  }

  lemma Cancels(q: nat, x: int)
    requires q > 0 && q * x == 0
    ensures x == 0
  {}

  lemma {:induction false} NoRecalibrations(ss: seq<Stamped>)
    ensures Recalibrations(Events(ss)) == 0
  {
    if ss != [] {
      assert Events(ss)[1..] == Events(ss[1..]);
      NoRecalibrations(ss[1..]);
    }
  }

  /** The run without the samples the acceleration gate rejects. */
  function WithoutGlitches(o: Odo, es: seq<Event>): seq<Event>
    decreases |es|
  {
    if es == [] then []
    else if es[0].SampleAt? && Judge(o, es[0].rpm, es[0].time) == RejectedAccel then WithoutGlitches(o, es[1..])
    else [es[0]] + WithoutGlitches(Apply(o, es[0]), es[1..])
  }

  /** Glitches rejected by the acceleration gate cost no distance: deleting them changes nothing at all. */
  lemma {:induction false} GlitchesAreInvisible(o: Odo, es: seq<Event>)
    ensures Run(o, WithoutGlitches(o, es)) == Run(o, es)
    ensures RawSum(o, WithoutGlitches(o, es)) == RawSum(o, es)
    decreases |es|
  {
    if es != [] {
      GlitchesAreInvisible(Apply(o, es[0]), es[1..]);
      if !(es[0].SampleAt? && Judge(o, es[0].rpm, es[0].time) == RejectedAccel) {
        var rest := WithoutGlitches(Apply(o, es[0]), es[1..]);
        assert ([es[0]] + rest)[1..] == rest;
      }
    }
  }

  /** The acceleration gate cannot lock the odometer out: past ten seconds the gap path resynchronises. */
  lemma GlitchesAreRecent(o: Odo, rpm: uint16, time: uint32)
    requires Judge(o, rpm, time) == RejectedAccel
    ensures 0 < Delta(time, o.lastTime) <= 10000
    ensures forall r: uint16, t: uint32 :: Delta(t, o.lastTime) > 10000 && r <= o.maxRpm ==>
              Sample(o, r, t).lastRpm == r && Sample(o, r, t).lastTime == t
  {}

  // ---------------------------------------------------------------------------------------------
  // The component
  // ---------------------------------------------------------------------------------------------

  datatype NvmOdometer = NvmOdometer(total: uint64, trip: uint64, updateCount: uint32)
  datatype NvmCalibration = NvmCalibration(tyre: uint16, gear: uint16, maxRpm: uint16)

  /** The state after initialisation: the persisted totals, no reference and no carried fraction. */
  function PowerOn(odometer: NvmOdometer, c: NvmCalibration): Odo {
    Odo(Factor(c.tyre, c.gear), if c.maxRpm == 0 then DEFAULT_MAX_PLAUSIBLE_RPM else c.maxRpm,
        odometer.total as int, odometer.trip as int, 0, 0, 0, false, 0)
  }

  lemma PowerOnIsValid(odometer: NvmOdometer, c: NvmCalibration)
    requires InRange(c.tyre, c.gear)
    ensures PowerOn(odometer, c).Valid() && Factor(c.tyre, c.gear) < U32
  {
    FactorBounds(c.tyre, c.gear);
  }

  /** The component and its durable blocks; down when the last power-up could not use them. */
  datatype Unit =
    | Up(o: Odo, odometer: NvmOdometer, calibration: NvmCalibration, persistTime: uint32)
    | Down(odometer: NvmOdometer, calibration: NvmCalibration)

  function PoweredUp(odometer: NvmOdometer, c: NvmCalibration, readOk: bool, now: uint32): Unit {
    if readOk && InRange(c.tyre, c.gear) then Up(PowerOn(odometer, c), odometer, c, now) else Down(odometer, c)
  }

  /** A commit: both totals reach the NvM block, or nothing changes. */
  function Saved(u: Unit, ok: bool, now: uint32): Unit {
    if u.Down? || !ok then u
    else u.(odometer := NvmOdometer((u.o.total % U64) as uint64, (u.o.trip % U64) as uint64,
                                    (u.odometer.updateCount + 1) % U32),
            persistTime := now)
  }

  /** Millimetres the reading is ahead of its durable copy. */
  function Unsaved(u: Unit): nat {
    if u.Up? then (u.o.total - u.odometer.total as int) % U64 else 0
  }

  /** When the periodic function commits: after the distance or, when anything moved, after the time. */
  predicate Due(u: Unit, now: uint32) {
    Unsaved(u) >= PERSIST_DISTANCE_MM ||
    (Unsaved(u) > 0 && u.Up? && Delta(now, u.persistTime) >= PERSIST_INTERVAL_MS)
  }

  function Tended(u: Unit, ok: bool, now: uint32): Unit {
    if Due(u, now) then Saved(u, ok, now) else u
  }

  function TripCleared(u: Unit, ok: bool, now: uint32): Unit {
    if u.Down? then u else Saved(u.(o := Apply(u.o, TripReset)), ok, now)
  }

  /** A calibration in range and stored takes effect at once, or at the next power-up when the component is down. */
  function Calibrated(u: Unit, tyre: uint16, gear: uint16, ok: bool): Unit {
    if !ok || !InRange(tyre, gear) then u
    else
      var v := u.(calibration := u.calibration.(tyre := tyre, gear := gear));
      if v.Up? then v.(o := Apply(u.o, Recalibrated(Factor(tyre, gear)))) else v
  }

  /** Module statics of OdoSwc.c and the two durable NvM blocks it owns. */
  class Odometer {
    var initialised: bool
    var factorQ32: uint32
    var maxPlausibleRpm: uint16
    var totalMm: uint64
    var tripMm: uint64
    var fractionAcc: uint64
    var lastRpm: uint16
    var lastSampleTime: uint32
    var haveLastSample: bool
    var speedMmPerSec: uint32
    var lastPersistedMm: uint64
    var lastPersistTime: uint32
    var nvmOdometer: NvmOdometer
    var nvmCalibration: NvmCalibration

    ghost function State(): Odo
      reads this
    {
      Odo(factorQ32, maxPlausibleRpm, totalMm as int, tripMm as int, fractionAcc as int,
          lastRpm, lastSampleTime, haveLastSample, speedMmPerSec)
    }

    ghost predicate Valid()
      reads this
    {
      initialised && State().Valid() && lastPersistedMm == nvmOdometer.total
    }

    ghost function Whole(): Unit
      reads this
    {
      if initialised then Up(State(), nvmOdometer, nvmCalibration, lastPersistTime)
      else Down(nvmOdometer, nvmCalibration)
    }

    constructor (odometer: NvmOdometer, calibration: NvmCalibration)
      ensures nvmOdometer == odometer && nvmCalibration == calibration && !initialised
    {
      nvmOdometer, nvmCalibration := odometer, calibration;
      initialised := false;
      factorQ32, maxPlausibleRpm, totalMm, tripMm, fractionAcc := 0, 0, 0, 0, 0;
      lastRpm, lastSampleTime, haveLastSample, speedMmPerSec := 0, 0, false, 0;
      lastPersistedMm, lastPersistTime := 0, 0;
    }

    /** Restore the persisted reading; an unusable calibration leaves the component uninitialised. */
    method Init(readOk: bool, now: uint32) returns (status: Status)
      modifies this`initialised, this`factorQ32, this`maxPlausibleRpm, this`totalMm, this`tripMm,
               this`fractionAcc, this`lastRpm, this`lastSampleTime, this`haveLastSample, this`speedMmPerSec,
               this`lastPersistedMm, this`lastPersistTime
      ensures status == E_OK <==>
                readOk && 4000 <= nvmCalibration.tyre <= 60000 && 500 <= nvmCalibration.gear <= 50000
      ensures status == E_OK ==> Valid() && State() == PowerOn(nvmOdometer, nvmCalibration)
      ensures status != E_OK ==> !initialised
      ensures Whole() == PoweredUp(nvmOdometer, nvmCalibration, readOk, now)
    {
      hide Factor, ValidFactor, Odo.Valid;
      ClearStatics();
      if !readOk {
        return E_NOT_OK;
      }
      totalMm, tripMm := nvmOdometer.total, nvmOdometer.trip;
      lastPersistedMm, lastPersistTime := totalMm, now;
      var usable := LoadCalibration();
      if !usable {
        return E_NOT_OK;
      }
      initialised := true;
      status := E_OK;
      PowerOnIsValid(nvmOdometer, nvmCalibration);
    }

    method ClearStatics()
      modifies this`initialised, this`fractionAcc, this`lastRpm, this`lastSampleTime, this`haveLastSample,
               this`speedMmPerSec
      ensures !initialised && fractionAcc == 0 && lastRpm == 0 && lastSampleTime == 0 && !haveLastSample
      ensures speedMmPerSec == 0
    {
      fractionAcc, lastRpm, lastSampleTime, haveLastSample, speedMmPerSec := 0, 0, 0, false, 0;
      initialised := false;
    }

    /** The factor and the speed limit of the stored calibration. */
    method LoadCalibration() returns (usable: bool)
      modifies this`factorQ32, this`maxPlausibleRpm
      ensures usable == InRange(nvmCalibration.tyre, nvmCalibration.gear)
      ensures factorQ32 == Factor(nvmCalibration.tyre, nvmCalibration.gear)
      ensures usable ==> maxPlausibleRpm == PowerOn(nvmOdometer, nvmCalibration).maxRpm
    {
      hide Factor;
      factorQ32 := ComputeConversionFactorQ32(nvmCalibration.tyre, nvmCalibration.gear);
      maxPlausibleRpm := nvmCalibration.maxRpm;
      if factorQ32 == 0 {
        return false;
      }
      if maxPlausibleRpm == 0 {
        maxPlausibleRpm := DEFAULT_MAX_PLAUSIBLE_RPM;
      }
      usable := true;
    }

    /** OdoSwc_IsAccelerationImplausible. */
    method IsAccelerationImplausible(motorRpm: uint16, deltaMs: uint32) returns (implausible: bool)
      requires ValidFactor(factorQ32)
      ensures implausible == AccelerationImplausible(lastRpm, motorRpm, factorQ32, deltaMs)
    {
      var rpmChange: uint16 := if motorRpm > lastRpm then motorRpm - lastRpm else lastRpm - motorRpm;
      hide ValidFactor;
      IntermediatesFit(factorQ32, rpmChange, 0, deltaMs);
      ghost var product: int := rpmChange * factorQ32;
      var change: uint64 := (rpmChange as uint64 * factorQ32 as uint64 * 1000) / 0x1_0000_0000;
      assert change as int == product * 1000 / U32;
      implausible := change * 1000 > MAX_ACCEL_MM_PER_S2 as uint64 * deltaMs as uint64;
    }

    /** Totals wrap as uint64 does; nothing else can. */
    method AddDistance(whole: uint64)
      modifies this`totalMm, this`tripMm
      ensures totalMm as int == (old(totalMm) as int + whole as int) % U64
      ensures tripMm as int == (old(tripMm) as int + whole as int) % U64
    {
      totalMm := ((totalMm as int + whole as int) % U64) as uint64;
      tripMm := ((tripMm as int + whole as int) % U64) as uint64;
    }

    /** The trapezium under the two speeds, in units of 2^-32 mm: no intermediate wraps. */
    method Increment(motorRpm: uint16, deltaMs: uint32) returns (increment: uint64)
      requires ValidFactor(factorQ32) && deltaMs <= MAX_SAMPLE_GAP_MS
      ensures increment as int == Product(lastRpm + motorRpm, deltaMs, factorQ32) / 2
      ensures increment <= 449207246467350000
    {
      hide ValidFactor, Product;
      var rpmSum := lastRpm as uint64 + motorRpm as uint64;
      IncrementFits(factorQ32, lastRpm, motorRpm, deltaMs, rpmSum as int);
      var area := rpmSum * deltaMs as uint64;
      Regrouped(rpmSum as int, deltaMs, factorQ32, area as int);
      increment := area * factorQ32 as uint64 / 2;
    }

    /** The accepted branch: integrate the interval and keep the remainder. */
    method Integrate(motorRpm: uint16, deltaMs: uint32)
      requires ValidFactor(factorQ32) && deltaMs <= MAX_SAMPLE_GAP_MS && fractionAcc < 0x1_0000_0000
      modifies this`totalMm, this`tripMm, this`fractionAcc
      ensures var acc: nat := old(fractionAcc) as int + Product(lastRpm + motorRpm, deltaMs, factorQ32) / 2;
              totalMm as int == (old(totalMm) as int + acc / U32) % U64 &&
              tripMm as int == (old(tripMm) as int + acc / U32) % U64 && fractionAcc as int == acc % U32
    {
      hide ValidFactor, Product;
      var increment := Increment(motorRpm, deltaMs);
      fractionAcc := fractionAcc + increment;
      AddDistance(fractionAcc / 0x1_0000_0000);
      fractionAcc := fractionAcc % 0x1_0000_0000;
    }

    /** The branch with a reference: order, gap and acceleration gates, then integration. */
    method ProcessInterval(motorRpm: uint16, sampleTime: uint32) returns (outcome: Outcome)
      requires Valid() && haveLastSample && motorRpm <= maxPlausibleRpm
      modifies this`totalMm, this`tripMm, this`fractionAcc, this`lastRpm, this`lastSampleTime
      ensures outcome == Judge(old(State()), motorRpm, sampleTime)
      ensures State() == Sample(old(State()), motorRpm, sampleTime).(speed := old(State()).speed)
    {
      hide AccelerationImplausible, ValidFactor, Product;
      var deltaMs := Delta(sampleTime, lastSampleTime);
      if deltaMs == 0 {
        lastRpm := motorRpm;
        return RejectedOrder;
      }
      if deltaMs > MAX_SAMPLE_GAP_MS {
        lastRpm, lastSampleTime := motorRpm, sampleTime;
        return RejectedGap;
      }
      var implausible := IsAccelerationImplausible(motorRpm, deltaMs);
      if implausible {
        return RejectedAccel;
      }
      Integrate(motorRpm, deltaMs);
      lastRpm, lastSampleTime := motorRpm, sampleTime;
      outcome := Accepted;
      assert fractionAcc as int == (old(State()).fraction + Raw(old(State()), motorRpm, sampleTime) / 2) % U32;
    }

    method ProcessSpeedSample(motorRpm: uint16, sampleTime: uint32) returns (status: Status, outcome: Outcome)
      requires initialised ==> Valid()
      modifies this`totalMm, this`tripMm, this`fractionAcc, this`lastRpm, this`lastSampleTime,
               this`haveLastSample, this`speedMmPerSec
      ensures !initialised ==> status == E_NOT_OK && State() == old(State())
      ensures initialised ==> Valid() && status == E_OK
      ensures initialised ==> outcome == Judge(old(State()), motorRpm, sampleTime)
      ensures initialised ==> State() == Sample(old(State()), motorRpm, sampleTime)
    {
      hide AccelerationImplausible;
      hide Raw;
      outcome := Accepted;
      if !initialised {
        return E_NOT_OK, outcome;
      }
      SampleKeepsValid(State(), motorRpm, sampleTime);
      if motorRpm > maxPlausibleRpm {
        lastSampleTime, haveLastSample := sampleTime, false;
        outcome := RejectedRpm;
      } else if !haveLastSample {
        lastRpm, lastSampleTime, haveLastSample := motorRpm, sampleTime, true;
        outcome := First;
      } else {
        outcome := ProcessInterval(motorRpm, sampleTime);
      }
      if outcome != RejectedRpm && outcome != RejectedAccel {
        speedMmPerSec := SpeedOf(motorRpm);
      }
      status := E_OK;
    }

    /** Instantaneous speed in mm/s, in 64-bit arithmetic. */
    method SpeedOf(motorRpm: uint16) returns (speed: uint32)
      requires ValidFactor(factorQ32)
      ensures speed == Speed(motorRpm, factorQ32)
    {
      IntermediatesFit(factorQ32, motorRpm, 0, 0);
      speed := ((motorRpm as uint64 * factorQ32 as uint64 * 1000) / 0x1_0000_0000) as int;
    }

    /** Write the totals to NvM; the persisted copy changes only when the write is accepted. */
    method Commit(readOk: bool, writeOk: bool, now: uint32) returns (status: Status)
      requires Valid()
      modifies this`nvmOdometer, this`lastPersistedMm, this`lastPersistTime
      ensures Valid() && status == (if readOk && writeOk then E_OK else E_NOT_OK)
      ensures status == E_OK ==> nvmOdometer.total == totalMm && nvmOdometer.trip == tripMm
      ensures status != E_OK ==> nvmOdometer == old(nvmOdometer)
      ensures Whole() == Saved(old(Whole()), readOk && writeOk, now)
    {
      if !readOk || !writeOk {
        return E_NOT_OK;
      }
      nvmOdometer := NvmOdometer(totalMm, tripMm, (nvmOdometer.updateCount + 1) % U32);
      lastPersistedMm, lastPersistTime := totalMm, now;
      status := E_OK;
    }

    /** With a working NvM, what a power cut can lose stays below the distance threshold. */
    method MainFunction(now: uint32, readOk: bool, writeOk: bool)
      requires initialised ==> Valid()
      modifies this`nvmOdometer, this`lastPersistedMm, this`lastPersistTime
      ensures initialised ==> Valid()
      ensures !initialised ==> nvmOdometer == old(nvmOdometer)
      ensures initialised && readOk && writeOk ==>
                (totalMm as int - nvmOdometer.total as int) % U64 < 100000
      ensures initialised && readOk && writeOk && Delta(now, old(lastPersistTime)) >= 60000 ==>
                nvmOdometer.total == totalMm
      ensures totalMm == old(lastPersistedMm) ==> nvmOdometer == old(nvmOdometer)
      ensures Whole() == Tended(old(Whole()), readOk && writeOk, now)
    {
      if !initialised {
        return;
      }
      var advanced := (totalMm as int - lastPersistedMm as int) % U64;
      if advanced >= PERSIST_DISTANCE_MM {
        var _ := Commit(readOk, writeOk, now);
      } else if advanced > 0 && Delta(now, lastPersistTime) >= PERSIST_INTERVAL_MS {
        var _ := Commit(readOk, writeOk, now);
      }
    }

    /** The shutdown path's commit. */
    method Persist(readOk: bool, writeOk: bool, now: uint32) returns (status: Status)
      requires initialised ==> Valid()
      modifies this`nvmOdometer, this`lastPersistedMm, this`lastPersistTime
      ensures initialised ==> Valid()
      ensures status == E_OK <==> initialised && readOk && writeOk
      ensures status == E_OK ==> nvmOdometer.total == totalMm && nvmOdometer.trip == tripMm
      ensures Whole() == Saved(old(Whole()), readOk && writeOk, now)
    {
      if !initialised {
        return E_NOT_OK;
      }
      status := Commit(readOk, writeOk, now);
    }

    /** The trip starts over at once; a status of E_OK means the reset is durable too. */
    method ResetTrip(readOk: bool, writeOk: bool, now: uint32) returns (status: Status)
      requires initialised ==> Valid()
      modifies this`tripMm, this`nvmOdometer, this`lastPersistedMm, this`lastPersistTime
      ensures status == E_OK <==> initialised && readOk && writeOk
      ensures status == E_OK ==> nvmOdometer.trip == 0 && nvmOdometer.total == totalMm
      ensures status != E_OK ==> status == E_NOT_OK && nvmOdometer == old(nvmOdometer)
      ensures !initialised ==> State() == old(State())
      ensures initialised ==> Valid() && State() == Apply(old(State()), TripReset)
      ensures Whole() == TripCleared(old(Whole()), readOk && writeOk, now)
    {
      if !initialised {
        return E_NOT_OK;
      }
      tripMm := 0;
      status := Commit(readOk, writeOk, now);
    }

    /** A calibration takes effect only if it is in range and stored; the carried fraction is then dropped. */
    method SetCalibration(tyre: uint16, gear: uint16, readOk: bool, writeOk: bool) returns (status: Status)
      requires initialised ==> Valid()
      modifies this`factorQ32, this`fractionAcc, this`haveLastSample, this`nvmCalibration
      ensures initialised ==> Valid()
      ensures status == E_OK <==> InRange(tyre, gear) && readOk && writeOk
      ensures status == E_OK ==> State() == Apply(old(State()), Recalibrated(Factor(tyre, gear)))
      ensures status == E_OK ==> nvmCalibration == old(nvmCalibration).(tyre := tyre, gear := gear)
      ensures status != E_OK ==> State() == old(State()) && nvmCalibration == old(nvmCalibration)
      ensures Whole() == Calibrated(old(Whole()), tyre, gear, readOk && writeOk)
    {
      var factor := ComputeConversionFactorQ32(tyre, gear);
      if factor == 0 || !readOk || !writeOk {
        return E_NOT_OK;
      }
      nvmCalibration := nvmCalibration.(tyre := tyre, gear := gear);
      fractionAcc := 0;
      factorQ32 := factor;
      haveLastSample := false;
      status := E_OK;
    }
  }
}
