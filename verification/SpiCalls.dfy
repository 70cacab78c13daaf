/** What single calls of src/mcal/Spi/Spi_Esp32.cpp do, in any interleaving: bytes asked for, and refusals. */
module SpiCalls {
  import opened Base
  import opened Spi

  /** Bytes the call still has to clock under its own chip select, or under the caller's. */
  function Due(p: Point, manual: bool): nat {
    match p
    case TransferCheck(n) => if manual then 0 else n
    case TransferAssertCheck(n) => if manual then 0 else n
    case TransferLow(n) => if manual then 0 else n
    case TransferBytes(n) => if manual then 0 else n
    case ContinuousCheck(n) => if manual then n else 0
    case ContinuousBytes(n) => if manual then n else 0
    case _ => 0
  }

  /** Bytes still due from whoever holds the lock. */
  function DueOf(b: Bus, manual: bool): nat {
    if b.mutex.Some? && b.mutex.value < |b.tasks| then Due(b.tasks[b.mutex.value].point, manual) else 0
  }

  /** Bytes a choice asks for. */
  function Asked(c: Choice, manual: bool): nat {
    match c
    case Transfer(n) => if manual then 0 else n
    case TransferContinuous(n) => if manual then n else 0
    case _ => 0
  }

  function AskedIn(ms: seq<Move>, manual: bool): nat {
    if ms == [] then 0 else Asked(ms[0].choice, manual) + AskedIn(ms[1..], manual)
  }

  function Count(wire: seq<Byte>, manual: bool): nat {
    if wire == [] then 0
    else Count(wire[..|wire| - 1], manual) + (if wire[|wire| - 1].manual == manual then 1 else 0)
  }

  lemma CountSnoc(wire: seq<Byte>, w: Byte, manual: bool)
    ensures Count(wire + [w], manual) == Count(wire, manual) + (if w.manual == manual then 1 else 0)
  {
    assert (wire + [w])[..|wire|] == wire;
  }

  /** Points that clock a byte have one left to clock. */
  predicate Pending(b: Bus) {
    forall t :: 0 <= t < |b.tasks| ==>
      match b.tasks[t].point
      case TransferAssertCheck(n) => n > 0
      case TransferLow(n) => n > 0
      case TransferBytes(n) => n > 0
      case ContinuousBytes(n) => n > 0
      case _ => true
  }

  lemma StepKeepsPending(b: Bus, t: nat, c: Choice)
    requires Enabled(b, t, c) && Pending(b)
    ensures Pending(Step(b, t, c))
  {
    StepMovesOne(b, t, c);
  }

  /** The balance of one access: what is on the wire and what is due grow together by what is asked for. */
  lemma StepBalances(b: Bus, t: nat, c: Choice, manual: bool)
    requires LockOk(b) && Enabled(b, t, c) && Pending(b)
    ensures var v := Step(b, t, c);
            Count(v.wire, manual) + DueOf(v, manual) == Count(b.wire, manual) + DueOf(b, manual) + Asked(c, manual)
  {
    hide Count;
    assert b.mutex == Some(t) <==> Inside(b.tasks[t].point);
    if b.tasks[t].point.TransferBytes? {
      CountSnoc(b.wire, Byte(b.brackets, t, b.tasks[t].device, b.low, false), manual);
    } else if b.tasks[t].point.ContinuousBytes? {
      CountSnoc(b.wire, Byte(b.brackets, t, b.tasks[t].device, b.low, true), manual);
    }
  }

  lemma {:induction false} RunBalances(b: Bus, ms: seq<Move>, manual: bool)
    requires LockOk(b) && Pending(b) && Possible(b, ms)
    ensures var v := Run(b, ms);
            Count(v.wire, manual) + DueOf(v, manual) == Count(b.wire, manual) + DueOf(b, manual) + AskedIn(ms, manual)
    decreases |ms|
  {
    hide Step, LockOk, Enabled, Pending, Count, DueOf;
    if ms != [] {
      var t, c := ms[0].task, ms[0].choice;
      StepBalances(b, t, c, manual);
      StepKeepsPending(b, t, c);
      StepKeepsLock(b, t, c);
      RunBalances(Step(b, t, c), ms[1..], manual);
    }
  }

  /**
   * In every interleaving each byte asked for is clocked exactly once: the bytes clocked under a chip select of
   * Spi_Transfer and those clocked by Spi_TransferContinuous, with what the present call still has to clock, are as
   * many as the calls have asked for.
   */
  lemma BytesAreConserved(n: nat, ms: seq<Move>, manual: bool)
    requires Possible(Initial(n), ms)
    ensures var b := Run(Initial(n), ms);
            && Count(b.wire, manual) + DueOf(b, manual) == AskedIn(ms, manual)
            && (b.mutex.None? ==> Count(b.wire, manual) == AskedIn(ms, manual))
  {
    hide Run, Possible, LockOk, WireOk;
    InitialOk(n);
    RunBalances(Initial(n), ms, manual);
  }

  /** The accesses that look at the owner first. */
  predicate ChecksOwner(p: Point) {
    p.AssertCheck? || p.DeassertCheck? || p.TransferCheck? || p.TransferAssertCheck? || p.TransferDeassertCheck? ||
    p.ContinuousCheck? || p.UnlockCheck?
  }

  /**
   * A call goes on exactly when its device owns the bus. Otherwise it is refused and counted, the call is over, and
   * neither the chip selects nor the wire, the owner or the mutex have changed; whoever called, in a bracket or not.
   */
  lemma RefusedIff(b: Bus, t: nat)
    requires t < |b.tasks| && ChecksOwner(b.tasks[t].point)
    ensures var v := Step(b, t, Proceed);
            && v.low == b.low && v.wire == b.wire && v.owner == b.owner && v.mutex == b.mutex
            && v.refused == b.refused + (if b.owner == Some(b.tasks[t].device) then 0 else 1)
            && (v.refused != b.refused ==> v.tasks[t].point == Holding)
            && (v.tasks[t].point == Holding ==>
                  v.refused != b.refused ||
                  b.tasks[t].point == TransferCheck(0) || b.tasks[t].point == ContinuousCheck(0))
  {}

  // ---------------------------------------------------------------------------------------------
  // The chip select
  // ---------------------------------------------------------------------------------------------

  /** Whether the bracket wants its chip select low, by its calls: only an assert leaves it so. */
  function Wanted(b: Bus, m: Move, was: bool): bool
    requires Enabled(b, m.task, m.choice)
  {
    match b.tasks[m.task].point
    case TakeMutex => if m.choice.Proceed? then false else was
    case Holding =>
      (match m.choice
       case Assert => true
       case Transfer(n) => n == 0 && was
       case TransferContinuous(_) => was
       case _ => false)
    case _ => was
  }

  function WantedAfter(b: Bus, ms: seq<Move>, was: bool): bool
    requires Possible(b, ms)
    decreases |ms|
  {
    if ms == [] then was
    else WantedAfter(Step(b, ms[0].task, ms[0].choice), ms[1..], Wanted(b, ms[0], was))
  }

  /** What the chip selects are while the holder of the lock is at a point. */
  predicate SelectOk(b: Bus, wanted: bool) {
    b.mutex.Some? && b.mutex.value < |b.tasks| ==>
      var d := b.tasks[b.mutex.value].device;
      match b.tasks[b.mutex.value].point
      case Holding => b.low == if wanted then {d} else {}
      case TransferCheck(n) => if n == 0 then b.low == (if wanted then {d} else {}) else !wanted
      case ContinuousCheck(_) => b.low == if wanted then {d} else {}
      case ContinuousBytes(_) => b.low == if wanted then {d} else {}
      case AssertCheck => wanted
      case AssertLow => wanted
      case _ => !wanted
  }

  lemma StepKeepsSelect(b: Bus, m: Move, was: bool)
    requires LockOk(b) && Enabled(b, m.task, m.choice) && Pending(b) && SelectOk(b, was)
    ensures SelectOk(Step(b, m.task, m.choice), Wanted(b, m, was))
  {
    StepMovesOne(b, m.task, m.choice);
    assert b.mutex == Some(m.task) <==> Inside(b.tasks[m.task].point);
  }

  lemma {:induction false} RunKeepsSelect(b: Bus, ms: seq<Move>, was: bool)
    requires LockOk(b) && Pending(b) && SelectOk(b, was) && Possible(b, ms)
    ensures SelectOk(Run(b, ms), WantedAfter(b, ms, was))
    decreases |ms|
  {
    hide Step, LockOk, Enabled, Pending, SelectOk, Wanted;
    if ms != [] {
      var t, c := ms[0].task, ms[0].choice;
      StepKeepsSelect(b, ms[0], was);
      StepKeepsPending(b, t, c);
      StepKeepsLock(b, t, c);
      RunKeepsSelect(Step(b, t, c), ms[1..], Wanted(b, ms[0], was));
    }
  }

  /**
   * In every interleaving, between the calls of a bracket its chip select is low exactly when the last of them that
   * decides it was an assert: a deassert and a transfer of some bytes leave it high, as a new bracket finds it.
   */
  lemma SelectFollowsCalls(n: nat, ms: seq<Move>)
    requires Possible(Initial(n), ms)
    ensures var b := Run(Initial(n), ms);
            b.mutex.Some? && b.mutex.value < |b.tasks| && b.tasks[b.mutex.value].point.Holding? ==>
              b.low == if WantedAfter(Initial(n), ms, false) then {b.tasks[b.mutex.value].device} else {}
  {
    hide Run, Possible, LockOk, WireOk;
    InitialOk(n);
    RunKeepsSelect(Initial(n), ms, false);
  }
}
