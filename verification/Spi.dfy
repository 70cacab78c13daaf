/**
 * The shared SPI bus of src/mcal/Spi/Spi_Esp32.cpp: any number of tasks, interleaved one memory access at a time.
 *
 * A task brackets its calls with Spi_Lock and Spi_Unlock for one device; inside the bracket it makes any calls in
 * any order. The FreeRTOS mutex is taken and given atomically; everything else is separate reads and writes.
 */
module Spi {
  import opened Base

  datatype Device = Can | Sd

  /** The next access a task makes; the count is of bytes still to clock. */
  datatype Point =
    | Outside
    // Spi_Lock.
    | TakeMutex
    | SetOwner
    // Between two calls, holding the lock.
    | Holding
    // Spi_ChipSelectAssert and Spi_ChipSelectDeassert.
    | AssertCheck
    | AssertLow
    | DeassertCheck
    | DeassertHigh
    // Spi_Transfer: a check, an assert, the bytes and a deassert.
    | TransferCheck(count: nat)
    | TransferAssertCheck(count: nat)
    | TransferLow(count: nat)
    | TransferBytes(count: nat)
    | TransferDeassertCheck
    | TransferHigh
    // Spi_TransferContinuous, under a chip select the caller drives.
    | ContinuousCheck(count: nat)
    | ContinuousBytes(count: nat)
    // Spi_Unlock.
    | UnlockCheck
    | UnlockHigh
    | ClearOwner
    | GiveMutex

  /** A task, and the device of its present or last bracket. */
  datatype Task = Task(point: Point, device: Device)

  /** A byte on the wire: in which bracket, by whom and for which device, and which devices were selected. */
  datatype Byte = Byte(bracket: nat, task: nat, device: Device, selected: set<Device>, manual: bool)

  /** The mutex and its holder, Spi_Owner, the chip selects that are low, and what happened so far. */
  datatype Bus = Bus(
    mutex: Option<nat>,
    owner: Option<Device>,
    low: set<Device>,
    tasks: seq<Task>,
    brackets: nat,
    wire: seq<Byte>,
    refused: nat)

  /** What a task does where it has a choice. */
  datatype Choice =
    | Lock(device: Device)
    | TimeOut
    | Proceed
    | Assert
    | Deassert
    | Transfer(count: nat)
    | TransferContinuous(count: nat)
    | Unlock

  // ---------------------------------------------------------------------------------------------
  // One access
  // ---------------------------------------------------------------------------------------------

  predicate Enabled(b: Bus, t: nat, c: Choice) {
    t < |b.tasks| &&
    match b.tasks[t].point
    case Outside => c.Lock?
    case TakeMutex => c.TimeOut? || (c.Proceed? && b.mutex.None?)
    case Holding => !c.Lock? && !c.TimeOut? && !c.Proceed?
    case _ => c.Proceed?
  }

  function At(b: Bus, t: nat, p: Point): Bus
    requires t < |b.tasks|
  {
    b.(tasks := b.tasks[t := b.tasks[t].(point := p)])
  }

  /** Spi_CheckOwner: on to the next access, or a refusal that ends the call. */
  function Checked(b: Bus, t: nat, next: Point): Bus
    requires t < |b.tasks|
  {
    if b.owner == Some(b.tasks[t].device) then At(b, t, next) else At(b.(refused := b.refused + 1), t, Holding)
  }

  function Clocked(b: Bus, t: nat, manual: bool): Bus
    requires t < |b.tasks|
  {
    b.(wire := b.wire + [Byte(b.brackets, t, b.tasks[t].device, b.low, manual)])
  }

  /** The first access of the call a task chooses while it holds the lock. */
  function FirstPoint(c: Choice): Point {
    match c
    case Assert => AssertCheck
    case Deassert => DeassertCheck
    case Transfer(n) => TransferCheck(n)
    case TransferContinuous(n) => ContinuousCheck(n)
    case _ => UnlockCheck
  }

  function Step(b: Bus, t: nat, c: Choice): Bus
    requires Enabled(b, t, c)
  {
    var d := b.tasks[t].device;
    match b.tasks[t].point
    case Outside => b.(tasks := b.tasks[t := Task(TakeMutex, c.device)])
    case TakeMutex =>
      if c.TimeOut? then At(b, t, Outside) else At(b.(mutex := Some(t), brackets := b.brackets + 1), t, SetOwner)
    case SetOwner => At(b.(owner := Some(d)), t, Holding)
    case Holding => At(b, t, FirstPoint(c))
    case AssertCheck => Checked(b, t, AssertLow)
    case AssertLow => At(b.(low := b.low + {d}), t, Holding)
    case DeassertCheck => Checked(b, t, DeassertHigh)
    case DeassertHigh => At(b.(low := b.low - {d}), t, Holding)
    case TransferCheck(n) => Checked(b, t, if n == 0 then Holding else TransferAssertCheck(n))
    case TransferAssertCheck(n) => Checked(b, t, TransferLow(n))
    case TransferLow(n) => At(b.(low := b.low + {d}), t, TransferBytes(n))
    case TransferBytes(n) => At(Clocked(b, t, false), t, if n <= 1 then TransferDeassertCheck else TransferBytes(n - 1))
    case TransferDeassertCheck => Checked(b, t, TransferHigh)
    case TransferHigh => At(b.(low := b.low - {d}), t, Holding)
    case ContinuousCheck(n) => Checked(b, t, if n == 0 then Holding else ContinuousBytes(n))
    case ContinuousBytes(n) => At(Clocked(b, t, true), t, if n <= 1 then Holding else ContinuousBytes(n - 1))
    case UnlockCheck => Checked(b, t, UnlockHigh)
    case UnlockHigh => At(b.(low := b.low - {d}), t, ClearOwner)
    case ClearOwner => At(b.(owner := None), t, GiveMutex)
    case GiveMutex => At(b.(mutex := None), t, Outside)
  }

  /** Spi_Init with n tasks about to use the bus. */
  function Initial(n: nat): Bus {
    Bus(None, None, {}, seq(n, _ => Task(Outside, Can)), 0, [], 0)
  }

  datatype Move = Move(task: nat, choice: Choice)

  predicate Possible(b: Bus, ms: seq<Move>)
    decreases |ms|
  {
    ms == [] || (Enabled(b, ms[0].task, ms[0].choice) && Possible(Step(b, ms[0].task, ms[0].choice), ms[1..]))
  }

  function Run(b: Bus, ms: seq<Move>): Bus
    requires Possible(b, ms)
    decreases |ms|
  {
    if ms == [] then b else Run(Step(b, ms[0].task, ms[0].choice), ms[1..])
  }

  // ---------------------------------------------------------------------------------------------
  // Mutual exclusion
  // ---------------------------------------------------------------------------------------------

  predicate Inside(p: Point) {
    !p.Outside? && !p.TakeMutex?
  }

  /** What the bus looks like to whoever holds the mutex. */
  predicate HolderOk(b: Bus, p: Point, d: Device) {
    && b.owner == (if p.SetOwner? || p.GiveMutex? then None else Some(d))
    && b.low <= {d}
    && (p.SetOwner? || p.ClearOwner? || p.GiveMutex? ==> b.low == {})
    && (p.TransferBytes? || p.TransferDeassertCheck? || p.TransferHigh? ==> d in b.low)
  }

  predicate LockOk(b: Bus) {
    && (forall t :: 0 <= t < |b.tasks| ==> (Inside(b.tasks[t].point) <==> b.mutex == Some(t)))
    && (match b.mutex
        case None => b.owner == None && b.low == {}
        case Some(t) => t < |b.tasks| && HolderOk(b, b.tasks[t].point, b.tasks[t].device))
    && b.refused == 0
  }

  /** Each byte reached its own device alone, and the bytes of a bracket are one task's and stand together. */
  predicate WireOk(b: Bus) {
    && (forall i :: 0 <= i < |b.wire| ==>
          var w := b.wire[i];
          && w.bracket <= b.brackets && w.selected <= {w.device} && (!w.manual ==> w.selected == {w.device})
          && (w.bracket == b.brackets && b.mutex.Some? ==>
                w.task == b.mutex.value && w.task < |b.tasks| && w.device == b.tasks[w.task].device))
    && (forall i, j :: 0 <= i < j < |b.wire| ==>
          b.wire[i].bracket <= b.wire[j].bracket &&
          (b.wire[i].bracket == b.wire[j].bracket ==>
             b.wire[i].task == b.wire[j].task && b.wire[i].device == b.wire[j].device))
  }

  lemma StepMovesOne(b: Bus, t: nat, c: Choice)
    requires Enabled(b, t, c)
    ensures var v := Step(b, t, c);
            |v.tasks| == |b.tasks| && forall s :: 0 <= s < |b.tasks| && s != t ==> v.tasks[s] == b.tasks[s]
  {}

  lemma StepKeepsMutex(b: Bus, t: nat, c: Choice)
    requires Enabled(b, t, c) && (Inside(b.tasks[t].point) <==> b.mutex == Some(t))
    requires b.mutex == Some(t) ==> HolderOk(b, b.tasks[t].point, b.tasks[t].device)
    ensures var v := Step(b, t, c);
            && t < |v.tasks| && (Inside(v.tasks[t].point) <==> v.mutex == Some(t))
            && forall s :: s != t ==> (v.mutex == Some(s) <==> b.mutex == Some(s))
  {}

  lemma StepKeepsHolder(b: Bus, t: nat, c: Choice)
    requires LockOk(b) && Enabled(b, t, c)
    ensures var v := Step(b, t, c);
            && v.refused == 0 && |v.tasks| == |b.tasks|
            && (match v.mutex
                case None => v.owner == None && v.low == {}
                case Some(s) => s < |v.tasks| && HolderOk(v, v.tasks[s].point, v.tasks[s].device))
  {
    assert b.mutex == Some(t) <==> Inside(b.tasks[t].point);
  }

  lemma StepKeepsLock(b: Bus, t: nat, c: Choice)
    requires LockOk(b) && Enabled(b, t, c)
    ensures LockOk(Step(b, t, c))
  {
    hide Step, HolderOk;
    StepMovesOne(b, t, c);
    StepKeepsMutex(b, t, c);
    StepKeepsHolder(b, t, c);
  }

  /** What an access does to the wire: open a bracket, clock a byte of the holder's, or leave it alone. */
  ghost predicate OnWire(b: Bus, v: Bus, t: nat)
    requires t < |b.tasks|
  {
    || (v.wire == b.wire && v.brackets == b.brackets + 1 && v.mutex == Some(t))
    || (v.brackets == b.brackets
        && (v.mutex.Some? ==> v.mutex == b.mutex && v.mutex.value < |b.tasks| == |v.tasks| &&
                              v.tasks[v.mutex.value].device == b.tasks[v.mutex.value].device)
        && (v.wire == b.wire ||
            (|v.wire| == |b.wire| + 1 && v.wire[..|b.wire|] == b.wire && v.mutex == Some(t) &&
             var w := v.wire[|b.wire|]; var d := b.tasks[t].device;
             w.bracket == b.brackets && w.task == t && w.device == d && w.selected <= {d} &&
             (!w.manual ==> w.selected == {d}))))
  }

  lemma StepOnWire(b: Bus, t: nat, c: Choice)
    requires LockOk(b) && Enabled(b, t, c)
    ensures OnWire(b, Step(b, t, c), t)
  {
    assert b.mutex == Some(t) <==> Inside(b.tasks[t].point);
  }

  lemma StepKeepsWire(b: Bus, t: nat, c: Choice)
    requires LockOk(b) && WireOk(b) && Enabled(b, t, c)
    ensures WireOk(Step(b, t, c))
  {
    hide Step, LockOk;
    var v := Step(b, t, c);
    StepOnWire(b, t, c);
    assert forall i :: 0 <= i < |b.wire| ==> v.wire[i] == b.wire[i] by {
      if v.wire != b.wire { assert forall i :: 0 <= i < |b.wire| ==> v.wire[i] == v.wire[..|b.wire|][i]; }
    }
  }

  lemma {:induction false} RunKeepsBus(b: Bus, ms: seq<Move>)
    requires LockOk(b) && WireOk(b) && Possible(b, ms)
    ensures LockOk(Run(b, ms)) && WireOk(Run(b, ms))
    decreases |ms|
  {
    hide Step, LockOk, WireOk, Enabled;
    if ms != [] {
      StepKeepsLock(b, ms[0].task, ms[0].choice);
      StepKeepsWire(b, ms[0].task, ms[0].choice);
      RunKeepsBus(Step(b, ms[0].task, ms[0].choice), ms[1..]);
    }
  }

  /**
   * In every interleaving of any number of tasks: a low chip select is the owner's, whose bracket holds the mutex;
   * so two are never low together; a free bus has none low; and no bracketed call is refused.
   */
  lemma ChipSelectsExclude(n: nat, ms: seq<Move>)
    requires Possible(Initial(n), ms)
    ensures var b := Run(Initial(n), ms);
            && (forall d :: d in b.low ==>
                  b.owner == Some(d) && b.mutex.Some? && b.mutex.value < |b.tasks| &&
                  b.tasks[b.mutex.value].device == d)
            && (forall d, e :: d in b.low && e in b.low ==> d == e)
            && (b.mutex.None? ==> b.low == {} && b.owner.None?)
            && b.refused == 0
  {
    hide Run, Possible, WireOk;
    InitialOk(n);
    RunKeepsBus(Initial(n), ms);
  }

  lemma InitialOk(n: nat)
    ensures LockOk(Initial(n)) && WireOk(Initial(n))
  {}

  /** In every interleaving each byte selects at most its own device, and brackets do not mix on the wire. */
  lemma BracketsDoNotMix(n: nat, ms: seq<Move>, i: nat, j: nat)
    requires Possible(Initial(n), ms) && i <= j < |Run(Initial(n), ms).wire|
    ensures var w := Run(Initial(n), ms).wire;
            && w[i].selected <= {w[i].device} && (!w[i].manual ==> w[i].selected == {w[i].device})
            && w[i].bracket <= w[j].bracket
            && (w[i].bracket == w[j].bracket ==> w[i].task == w[j].task && w[i].device == w[j].device)
  {
    hide Run, Possible, LockOk;
    InitialOk(n);
    RunKeepsBus(Initial(n), ms);
  }

  /** Releasing the bus leaves the released chip select high, whatever the bracket did with it. */
  lemma UnlockRaises(b: Bus, t: nat)
    requires LockOk(b) && t < |b.tasks| && b.tasks[t].point == UnlockHigh
    ensures Step(b, t, Proceed).low == {} && Step(b, t, Proceed).tasks[t].point == ClearOwner
  {
    assert b.mutex == Some(t);
  }

  // ---------------------------------------------------------------------------------------------
  // Calls outside a bracket
  // ---------------------------------------------------------------------------------------------

  function Other(d: Device): Device {
    if d == Can then Sd else Can
  }

  /** What a task may lock; `uses[u]` lists the devices task u brackets calls for. */
  predicate Respects(b: Bus, uses: seq<set<Device>>) {
    |uses| == |b.tasks| &&
    forall u :: 0 <= u < |b.tasks| && !b.tasks[u].point.Outside? ==> b.tasks[u].device in uses[u]
  }

  /** A run of the other tasks, each bracketing calls for its own devices, while task t makes no bracketed call. */
  predicate Others(b: Bus, ms: seq<Move>, t: nat, uses: seq<set<Device>>)
    decreases |ms|
  {
    ms == [] ||
    (ms[0].task != t && Enabled(b, ms[0].task, ms[0].choice) && ms[0].task < |uses| &&
     (ms[0].choice.Lock? ==> ms[0].choice.device in uses[ms[0].task]) &&
     Others(Step(b, ms[0].task, ms[0].choice), ms[1..], t, uses))
  }

  lemma {:induction false} OthersPossible(b: Bus, ms: seq<Move>, t: nat, uses: seq<set<Device>>)
    requires Others(b, ms, t, uses)
    ensures Possible(b, ms)
    decreases |ms|
  {
    hide Step, Enabled;
    if ms != [] { OthersPossible(Step(b, ms[0].task, ms[0].choice), ms[1..], t, uses); }
  }

  /**
   * Spi_ChipSelectAssert by a task outside any bracket: the owner check passes when the device owns the bus, whoever
   * holds it, and the write to the chip select comes after whatever the other tasks do in between.
   */
  ghost predicate Collides(b: Bus, t: nat, e: Device, uses: seq<set<Device>>, ms: seq<Move>) {
    b.owner == Some(e) && Others(b, ms, t, uses) && After(b, ms, t, uses).low + {e} == {Can, Sd}
  }

  ghost function After(b: Bus, ms: seq<Move>, t: nat, uses: seq<set<Device>>): Bus
    requires Others(b, ms, t, uses)
  {
    OthersPossible(b, ms, t, uses);
    Run(b, ms)
  }

  // Only another task that uses the other device can make such a call collide.

  lemma StepRespects(b: Bus, u: nat, c: Choice, uses: seq<set<Device>>)
    requires Respects(b, uses) && Enabled(b, u, c) && (c.Lock? ==> c.device in uses[u])
    ensures Respects(Step(b, u, c), uses)
    ensures forall s :: 0 <= s < |b.tasks| && s != u ==> Step(b, u, c).tasks[s] == b.tasks[s]
  {}

  lemma {:induction false} OthersKeep(b: Bus, ms: seq<Move>, t: nat, uses: seq<set<Device>>)
    requires LockOk(b) && Respects(b, uses) && Others(b, ms, t, uses) && t < |b.tasks|
    ensures var v := After(b, ms, t, uses);
            LockOk(v) && Respects(v, uses) && |v.tasks| == |b.tasks| && v.tasks[t] == b.tasks[t]
    decreases |ms|
  {
    hide Step, Enabled, LockOk, Respects;
    if ms != [] {
      var m := ms[0];
      StepKeepsLock(b, m.task, m.choice);
      SizeStays(b, m.task, m.choice);
      RespectsSize(b, uses);
      StepRespects(b, m.task, m.choice, uses);
      OthersKeep(Step(b, m.task, m.choice), ms[1..], t, uses);
    }
  }

  lemma RespectsSize(b: Bus, uses: seq<set<Device>>)
    requires Respects(b, uses)
    ensures |uses| == |b.tasks|
  {}

  lemma SizeStays(b: Bus, u: nat, c: Choice)
    requires Enabled(b, u, c)
    ensures |Step(b, u, c).tasks| == |b.tasks|
  {}

  /** A low chip select belongs to a bracket of a task that uses the device. */
  lemma LowIsUsed(b: Bus, uses: seq<set<Device>>, d: Device, t: nat)
    requires LockOk(b) && Respects(b, uses) && d in b.low && t < |b.tasks| && b.tasks[t].point.Outside?
    ensures exists u :: 0 <= u < |b.tasks| && u != t && d in uses[u]
  {
    var u := b.mutex.value;
    assert Inside(b.tasks[u].point) && d in uses[u];
  }

  // And any such task can.

  ghost predicate Reaches(b: Bus, ms: seq<Move>, t: nat, uses: seq<set<Device>>, v: Bus) {
    Others(b, ms, t, uses) && After(b, ms, t, uses) == v
  }

  lemma ReachesFirst(b: Bus, m: Move, ms: seq<Move>, t: nat, uses: seq<set<Device>>, v: Bus)
    requires m.task != t && Enabled(b, m.task, m.choice) && m.task < |uses|
    requires m.choice.Lock? ==> m.choice.device in uses[m.task]
    requires Reaches(Step(b, m.task, m.choice), ms, t, uses, v)
    ensures Reaches(b, [m] + ms, t, uses, v)
  {
    hide Enabled, Step;
    assert ([m] + ms)[0] == m && ([m] + ms)[1..] == ms;
    OthersPossible(Step(b, m.task, m.choice), ms, t, uses);
    OthersPossible(b, [m] + ms, t, uses);
  }

  lemma {:induction false} ReachesThen(
      b: Bus, a: seq<Move>, c: seq<Move>, t: nat, uses: seq<set<Device>>, v: Bus, w: Bus)
    requires Reaches(b, a, t, uses, v) && Reaches(v, c, t, uses, w)
    ensures Reaches(b, a + c, t, uses, w)
    decreases |a|
  {
    hide Enabled, Step;
    if a == [] {
      assert a + c == c;
    } else {
      var b1 := Step(b, a[0].task, a[0].choice);
      OthersPossible(b1, a[1..], t, uses);
      ReachesThen(b1, a[1..], c, t, uses, v, w);
      ReachesFirst(b, a[0], a[1..] + c, t, uses, w);
      assert a + c == [a[0]] + (a[1..] + c);
    }
  }

  /** Accesses the holder is at most away from having given the mutex back, if it goes straight for it. */
  function Rank(p: Point): nat {
    match p
    case Outside => 0
    case TakeMutex => 0
    case GiveMutex => 1
    case ClearOwner => 2
    case UnlockHigh => 3
    case UnlockCheck => 4
    case Holding => 5
    case SetOwner => 6
    case AssertLow => 6
    case AssertCheck => 7
    case DeassertHigh => 6
    case DeassertCheck => 7
    case TransferHigh => 6
    case TransferDeassertCheck => 7
    case TransferBytes(n) => 8 + n
    case TransferLow(n) => 9 + n
    case TransferAssertCheck(n) => 10 + n
    case TransferCheck(n) => 11 + n
    case ContinuousBytes(n) => 6 + n
    case ContinuousCheck(n) => 7 + n
  }

  function Homeward(p: Point): Choice {
    if p.Holding? then Unlock else Proceed
  }

  lemma HomewardStep(b: Bus, h: nat)
    requires LockOk(b) && b.mutex == Some(h)
    ensures h < |b.tasks| && Enabled(b, h, Homeward(b.tasks[h].point))
    ensures var v := Step(b, h, Homeward(b.tasks[h].point));
            && |v.tasks| == |b.tasks| && Rank(v.tasks[h].point) < Rank(b.tasks[h].point)
            && (v.mutex == Some(h) || v.mutex == None)
  {}

  /** Whoever holds the bus, and wherever in its bracket, it can give it back without anyone else moving. */
  lemma {:induction false} BusComesFree(b: Bus, t: nat, uses: seq<set<Device>>) returns (ms: seq<Move>, v: Bus)
    requires LockOk(b) && Respects(b, uses) && b.mutex.Some? && b.mutex.value != t
    ensures Reaches(b, ms, t, uses, v) && LockOk(v) && Respects(v, uses) && v.mutex == None && |v.tasks| == |b.tasks|
    decreases if b.mutex.value < |b.tasks| then Rank(b.tasks[b.mutex.value].point) else 0
  {
    hide Step, Enabled, LockOk, Respects, Reaches;
    var h := b.mutex.value;
    HomewardStep(b, h);
    RespectsSize(b, uses);
    var c := Homeward(b.tasks[h].point);
    var b1 := Step(b, h, c);
    StepKeepsLock(b, h, c);
    StepRespects(b, h, c, uses);
    if b1.mutex == None {
      NoMoves(b1, t, uses);
      ReachesFirst(b, Move(h, c), [], t, uses, b1);
      ms, v := [Move(h, c)] + [], b1;
    } else {
      var rest, v1 := BusComesFree(b1, t, uses);
      ReachesFirst(b, Move(h, c), rest, t, uses, v1);
      ms, v := [Move(h, c)] + rest, v1;
    }
  }

  lemma NoMoves(b: Bus, t: nat, uses: seq<set<Device>>)
    ensures Reaches(b, [], t, uses, b)
  {}

  /** One move of a task other than t. */
  lemma OneMove(b: Bus, u: nat, c: Choice, t: nat, uses: seq<set<Device>>)
    requires u != t && Enabled(b, u, c) && u < |uses| && (c.Lock? ==> c.device in uses[u])
    ensures Reaches(b, [Move(u, c)] + [], t, uses, Step(b, u, c))
  {
    hide Step, Enabled, Reaches;
    NoMoves(Step(b, u, c), t, uses);
    ReachesFirst(b, Move(u, c), [], t, uses, Step(b, u, c));
  }

  /** From a free bus a task can lock a device of its own and select it. */
  lemma Selects(b: Bus, u: nat, f: Device, t: nat, uses: seq<set<Device>>) returns (ms: seq<Move>, v: Bus)
    requires LockOk(b) && Respects(b, uses) && b.mutex == None && u < |b.tasks| && u != t && f in uses[u]
    ensures Reaches(b, ms, t, uses, v) && v.low == {f} && v.owner == Some(f)
  {
    hide Reaches;
    var b0 := b;
    ms := [];
    NoMoves(b, t, uses);
    assert !Inside(b.tasks[u].point);
    if b.tasks[u].point.TakeMutex? {
      b0 := Step(b, u, TimeOut);
      OneMove(b, u, TimeOut, t, uses);
      ms := [Move(u, TimeOut)] + [];
    }
    var more: seq<Move>;
    more, v := SelectsFromOutside(b0, u, f, t, uses);
    ReachesThen(b, ms, more, t, uses, b0, v);
    ms := ms + more;
  }

  lemma SelectsFromOutside(b: Bus, u: nat, f: Device, t: nat, uses: seq<set<Device>>) returns (ms: seq<Move>, v: Bus)
    requires b.mutex == None && b.low == {} && u < |b.tasks| == |uses| && u != t && f in uses[u]
    requires b.tasks[u].point.Outside?
    ensures Reaches(b, ms, t, uses, v) && v.low == {f} && v.owner == Some(f)
  {
    hide Reaches;
    var b1 := Step(b, u, Lock(f));
    var b2 := Step(b1, u, Proceed);
    var b3 := Step(b2, u, Proceed);
    var b4 := Step(b3, u, Assert);
    var b5 := Step(b4, u, Proceed);
    v := Step(b5, u, Proceed);
    NoMoves(v, t, uses);
    ms := [];
    ReachesFirst(b5, Move(u, Proceed), ms, t, uses, v);
    ms := [Move(u, Proceed)] + ms;
    ReachesFirst(b4, Move(u, Proceed), ms, t, uses, v);
    ms := [Move(u, Proceed)] + ms;
    ReachesFirst(b3, Move(u, Assert), ms, t, uses, v);
    ms := [Move(u, Assert)] + ms;
    ReachesFirst(b2, Move(u, Proceed), ms, t, uses, v);
    ms := [Move(u, Proceed)] + ms;
    ReachesFirst(b1, Move(u, Proceed), ms, t, uses, v);
    ms := [Move(u, Proceed)] + ms;
    ReachesFirst(b, Move(u, Lock(f)), ms, t, uses, v);
    ms := [Move(u, Lock(f))] + ms;
  }

  lemma CanCollide(b: Bus, t: nat, e: Device, uses: seq<set<Device>>, u: nat) returns (ms: seq<Move>)
    requires LockOk(b) && Respects(b, uses) && t < |b.tasks| && b.tasks[t].point.Outside?
    requires b.owner == Some(e) && u < |b.tasks| && u != t && Other(e) in uses[u]
    ensures Collides(b, t, e, uses, ms)
  {
    hide Respects, Others;
    var free, v := BusComesFree(b, t, uses);
    var more, w := Selects(v, u, Other(e), t, uses);
    ReachesThen(b, free, more, t, uses, v, w);
    ms := free + more;
  }

  /**
   * When an unbracketed assert is harmless: for any bus of bracketing tasks, whoever holds it and at whatever point, an
   * assert of device e by task t outside a bracket can end with both chip selects low exactly when e owns the bus at
   * its owner check and some other task uses the other device. When e does not own the bus the call is refused.
   */
  lemma UnbracketedIff(b: Bus, t: nat, e: Device, uses: seq<set<Device>>)
    requires LockOk(b) && Respects(b, uses) && t < |b.tasks| && b.tasks[t].point.Outside?
    ensures (exists ms :: Collides(b, t, e, uses, ms)) <==>
            b.owner == Some(e) && exists u :: 0 <= u < |b.tasks| && u != t && Other(e) in uses[u]
  {
    hide LockOk, Respects, Others, After, Step;
    RespectsSize(b, uses);
    if ms :| Collides(b, t, e, uses, ms) {
      OthersKeep(b, ms, t, uses);
      assert Other(e) in After(b, ms, t, uses).low;
      LowIsUsed(After(b, ms, t, uses), uses, Other(e), t);
    }
    if b.owner == Some(e) {
      if u :| 0 <= u < |b.tasks| && u != t && Other(e) in uses[u] {
        var ms := CanCollide(b, t, e, uses, u);
      }
    }
  }

  /** Such states are reached: from power-on, with any number of tasks of which two others use a device each. */
  lemma UnbracketedCollidesFromStart(n: nat, t: nat, e: Device, uses: seq<set<Device>>, h: nat, u: nat)
    returns (before: seq<Move>, b: Bus, between: seq<Move>)
    requires |uses| == n && t < n && h < n && u < n && h != t && u != t && e in uses[h] && Other(e) in uses[u]
    ensures Reaches(Initial(n), before, t, uses, b) && Collides(b, t, e, uses, between)
  {
    hide Respects, Others, Collides;
    InitialOk(n);
    InitialRespects(n, uses);
    before, b := Selects(Initial(n), h, e, t, uses);
    OthersKeep(Initial(n), before, t, uses);
    between := CanCollide(b, t, e, uses, u);
  }

  /**
   * Spi_ChipSelectDeassert, or Spi_Unlock, by a task outside any bracket: past the owner check both write the chip
   * select high, after whatever the other tasks do in between; here a bracket has it low.
   */
  ghost predicate CutsShort(b: Bus, t: nat, e: Device, uses: seq<set<Device>>, ms: seq<Move>) {
    b.owner == Some(e) && Others(b, ms, t, uses) && e in After(b, ms, t, uses).low
  }

  /** Such a call can raise a select in the middle of a bracket exactly when its device owns the bus at the check. */
  lemma UnbracketedRaiseIff(b: Bus, t: nat, e: Device, uses: seq<set<Device>>)
    requires LockOk(b) && Respects(b, uses) && t < |b.tasks| && b.tasks[t].point.Outside?
    ensures (exists ms :: CutsShort(b, t, e, uses, ms)) <==> b.owner == Some(e)
  {
    hide Others, After, Step;
    RespectsSize(b, uses);
    if b.owner == Some(e) {
      var h := b.mutex.value;
      assert Inside(b.tasks[h].point) && b.tasks[h].device == e && h != t;
      var free, v := BusComesFree(b, t, uses);
      var more, w := Selects(v, h, e, t, uses);
      ReachesThen(b, free, more, t, uses, v, w);
      assert CutsShort(b, t, e, uses, free + more);
    }
  }

  lemma InitialRespects(n: nat, uses: seq<set<Device>>)
    requires |uses| == n
    ensures Respects(Initial(n), uses)
  {}
}
