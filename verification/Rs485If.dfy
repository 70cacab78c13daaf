/**
 * The RS485 battery bus of src/ecuabs/Rs485If: frame codec, validation, transactions, pack discovery and
 * the cached pack readings. The bus is the list of replies the UART will deliver, one per exchange.
 */
module Rs485If {
  import opened Base
  import Crc
  import CrcCheck
  import CrcTable

  const START_BYTE: byte := 0xFF
  const DIR_REQUEST: byte := 0x00
  const DIR_RESPONSE: byte := 0x55
  const TYPE_ADDRESSED: byte := 0x01
  const TYPE_BROADCAST: byte := 0x03
  const CMD_SERIAL_NUMBER: byte := 0x00
  const CMD_BATTERY_PARAMS: byte := 0x01
  const CMD_CELL_PARAMS: byte := 0x05

  const REQUEST_SIZE := 15
  const REQUEST_SIZE_EXT := 17
  const SERIAL_RESPONSE_SIZE := 15
  const BATTERY_RESPONSE_SIZE := 53
  const CELL_RESPONSE_SIZE := 81
  const MAX_FRAME_SIZE := 81
  const PAYLOAD_OFFSET := 13
  const OFF_SERIAL := 5
  const PACK_COUNT := 4
  const CELLS_PER_PACK := 23
  const TEMPS_PER_PACK := 4

  type Frame = seq<byte>

  // ---------------------------------------------------------------------------------------------
  // Byte order
  // ---------------------------------------------------------------------------------------------

  function ReadU16(f: Frame, at: nat): uint16
    requires at + 2 <= |f|
  {
    f[at] as int * 256 + f[at + 1] as int
  }

  function ReadU32(f: Frame, at: nat): uint32
    requires at + 4 <= |f|
  {
    ReadU16(f, at) * U16 + ReadU16(f, at + 2)
  }

  function BytesU16(v: uint16): (b: Frame)
    ensures |b| == 2 && ReadU16(b, 0) == v
  {
    [v / 256, v % 256]
  }

  function BytesU32(v: uint32): (b: Frame)
    ensures |b| == 4 && ReadU32(b, 0) == v
  {
    BytesU16(v / U16) + BytesU16(v % U16)
  }

  /** The unsigned field read as two's complement: the one signed value congruent to it. */
  function ToS16(raw: uint16): (v: sint16)
    ensures (v - raw) % U16 == 0
  {
    if raw <= 0x7FFF then raw else raw - 65536
  }

  function ToS32(raw: uint32): (v: sint32)
    ensures (v - raw) % U32 == 0
  {
    if raw <= 0x7FFF_FFFF then raw else -(0xFFFF_FFFF - raw) - 1
  }

  // ---------------------------------------------------------------------------------------------
  // Frame check
  // ---------------------------------------------------------------------------------------------

  function Crc16(data: Frame): uint16
  {
    Crc.PowersOfTwo();
    Crc.Of(Crc.CRC16, data)
  }

  /** The frame check of the nine characters 123456789 is the check value of CRC-16. */
  lemma FrameCheckValue()
    ensures Crc16(CrcCheck.DIGITS) == 0x29B1
  {
    hide Crc.Of;
    CrcCheck.CheckValues();
  }

  /** The last two bytes hold the CRC of the others. */
  predicate CheckPasses(f: Frame)
    requires |f| >= 2
  {
    ReadU16(f, |f| - 2) == Crc16(f[..|f| - 2])
  }

  function WithCrc(body: Frame): (f: Frame)
    ensures |f| == |body| + 2 && f[..|body|] == body && CheckPasses(f)
  {
    var f := body + BytesU16(Crc16(body));
    assert f[..|f| - 2] == body;
    f
  }

  /** The register after the whole frame, frame check included. */
  function WholeFrame(f: Frame): Crc.Bits {
    Crc.Register(Crc.CRC16, Crc.BitsOf(Crc.CRC16.init, Crc.CRC16.width), f)
  }

  lemma BodyAndCheck(body: Frame, hi: byte, lo: byte)
    ensures WholeFrame(body + [hi, lo]) == Crc.Zeros(16) <==> Crc16(body) == 256 * hi as int + lo as int
  {
    Crc.TableIsValid(2);
    Crc.FrameResidue(Crc.CRC16, body, hi, lo);
  }

  /** A frame carries its own CRC exactly when the register over the whole frame ends at zero. */
  lemma CheckIsZeroRegister(f: Frame)
    requires |f| >= 2
    ensures CheckPasses(f) <==> WholeFrame(f) == Crc.Zeros(16)
  {
    var n := |f| - 2;
    assert f == f[..n] + [f[n], f[n + 1]];
    BodyAndCheck(f[..n], f[n], f[n + 1]);
  }

  lemma CorruptionChangesRegister(a: Frame, b: Frame, from: nat)
    requires Crc.DifferWithin(a, b, from, 2)
    ensures WholeFrame(a) != WholeFrame(b)
  {
    Crc.TableIsValid(2);
    Crc.AdjacentBytesDetected(Crc.CRC16, a, b, from, 2, Crc.BitsOf(Crc.CRC16.init, Crc.CRC16.width));
  }

  // ---------------------------------------------------------------------------------------------
  // Frame codec
  // ---------------------------------------------------------------------------------------------

  /** Start, direction, total length, type, serial number and command. */
  function Header(size: byte, kind: byte, serial: uint32, command: byte): (h: Frame)
    ensures |h| == 10 && h[0] == START_BYTE && h[1] == DIR_REQUEST && ReadU16(h, 2) == size && h[4] == kind
    ensures ReadU32(h, OFF_SERIAL) == serial && h[9] == command
  {
    var h := [START_BYTE, DIR_REQUEST, 0, size, kind] + BytesU32(serial) + [command];
    assert h[5..9] == BytesU32(serial);
    h
  }

  /** An addressed request without payload. */
  function RequestFrame(serial: uint32, command: byte): (f: Frame)
    ensures |f| == REQUEST_SIZE
  {
    WithCrc(Header(15, TYPE_ADDRESSED, serial, command) + [0, 0, 0])
  }

  /** A broadcast request with a two-byte payload. */
  function RequestFrameExt(serial: uint32, command: byte, high: byte, low: byte): (f: Frame)
    ensures |f| == REQUEST_SIZE_EXT
  {
    WithCrc(Header(17, TYPE_BROADCAST, serial, command) + [0, 0, 2, high, low])
  }

  function ParseSerialNumber(f: Frame): uint32
    requires |f| >= OFF_SERIAL + 4
  {
    ReadU32(f, OFF_SERIAL)
  }

  function Validate(f: Frame, frameSize: nat, expectedSize: nat): Status
    requires |f| >= frameSize && expectedSize >= 4
  {
    if frameSize < expectedSize then E_NOT_OK
    else if f[0] != START_BYTE || f[1] != DIR_RESPONSE then E_NOT_OK
    else if ReadU16(f, 2) != expectedSize then E_INVALID_PARAM
    else if !CheckPasses(f[..expectedSize]) then E_CRC_FAIL
    else E_OK
  }

  /** No corruption of an accepted response that stays within two adjacent bytes is accepted. */
  lemma CorruptionRejected(good: Frame, bad: Frame, from: nat)
    requires |good| >= 4 && Validate(good, |good|, |good|) == E_OK
    requires Crc.DifferWithin(good, bad, from, 2)
    ensures Validate(bad, |bad|, |good|) != E_OK
  {
    assert good[..|good|] == good && bad[..|good|] == bad;
    CheckIsZeroRegister(good);
    CheckIsZeroRegister(bad);
    CorruptionChangesRegister(good, bad, from);
  }

  /** Request frames carry their fields, pass the frame check and are never taken for responses. */
  lemma RequestCarriesItsFields(serial: uint32, command: byte)
    ensures var f := RequestFrame(serial, command);
            ParseSerialNumber(f) == serial && f[9] == command && ReadU16(f, 2) == |f| &&
            CheckPasses(f) && Validate(f, |f|, |f|) == E_NOT_OK
  {
    var h, f := Header(15, TYPE_ADDRESSED, serial, command), RequestFrame(serial, command);
    assert f[..10] == f[..13][..10] == h;
    assert forall i :: 0 <= i < 10 ==> f[i] == f[..10][i];
  }

  // ---------------------------------------------------------------------------------------------
  // Transactions
  // ---------------------------------------------------------------------------------------------

  /** What one exchange yields: a UART fault, or the bytes that arrive before the deadline. */
  datatype Reply = TxFailed | RxFailed | Received(bytes: Frame)

  function Next(bus: seq<Reply>): Reply {
    if bus == [] then Received([]) else bus[0]
  }

  function Rest(bus: seq<Reply>): seq<Reply> {
    if bus == [] then [] else bus[1..]
  }

  function Exchanged(reply: Reply, size: nat): Status {
    match reply
    case TxFailed => E_NOT_OK
    case RxFailed => E_NOT_OK
    case Received(bytes) => if |bytes| < size then E_TIMEOUT else E_OK
  }

  /** The verdict on one reply: complete, well formed, and from the addressed pack when that is checked. */
  function Judged(reply: Reply, serial: uint32, size: nat, checkSerial: bool): Status
    requires size >= SERIAL_RESPONSE_SIZE
  {
    var s := Exchanged(reply, size);
    if s != E_OK then s
    else
      var f := reply.bytes[..size];
      var v := Validate(f, size, size);
      if v != E_OK then v
      else if checkSerial && ParseSerialNumber(f) != serial then E_NOT_OK
      else E_OK
  }

  datatype Outcome = Outcome(status: Status, frame: Frame, bus: seq<Reply>)

  /** The first acceptable reply within the allowed attempts, or the verdict on the last. */
  function Transaction(bus: seq<Reply>, serial: uint32, size: nat, checkSerial: bool, attempts: nat): (o: Outcome)
    requires size >= SERIAL_RESPONSE_SIZE && attempts > 0
    ensures o.status == E_OK ==>
              |o.frame| == size && Validate(o.frame, size, size) == E_OK &&
              (checkSerial ==> ParseSerialNumber(o.frame) == serial)
    decreases attempts
  {
    var s := Judged(Next(bus), serial, size, checkSerial);
    if s == E_OK then Outcome(E_OK, Next(bus).bytes[..size], Rest(bus))
    else if attempts == 1 then Outcome(s, [], Rest(bus))
    else Transaction(Rest(bus), serial, size, checkSerial, attempts - 1)
  }

  const ATTEMPTS := 2

  // ---------------------------------------------------------------------------------------------
  // Discovery
  // ---------------------------------------------------------------------------------------------

  datatype Slot = Slot(present: bool, serial: uint32)

  const ABSENT: Slot := Slot(false, 0)

  /** A pack identity an idle or stuck bus cannot produce. */
  predicate Plausible(serial: uint32) {
    serial != 0 && serial != 0xFFFF_FFFF
  }

  predicate Taken(slots: seq<Slot>, serial: uint32) {
    exists j :: 0 <= j < |slots| && slots[j].present && slots[j].serial == serial
  }

  /** What is learnt about the next slot from its serial-number transaction. */
  function Identified(slots: seq<Slot>, o: Outcome): Slot
    requires o.status == E_OK ==> |o.frame| == SERIAL_RESPONSE_SIZE
  {
    if o.status != E_OK then ABSENT
    else
      var serial := ParseSerialNumber(o.frame);
      if Plausible(serial) && !Taken(slots, serial) then Slot(true, serial) else ABSENT
  }

  /** Probe the remaining slots: enable the slot, ask its serial number, disable it again. */
  function Discovery(bus: seq<Reply>, slots: seq<Slot>): (r: (seq<Slot>, seq<Reply>))
    requires |slots| <= PACK_COUNT
    ensures |r.0| == PACK_COUNT
    decreases PACK_COUNT - |slots|
  {
    if |slots| == PACK_COUNT then (slots, bus)
    else
      var o := Transaction(Rest(bus), 0, SERIAL_RESPONSE_SIZE, false, ATTEMPTS);
      Discovery(Rest(o.bus), slots + [Identified(slots, o)])
  }

  ghost predicate SlotOk(s: Slot) {
    if s.present then s.serial != 0 && s.serial != 0xFFFF_FFFF else s.serial == 0
  }

  /** Present packs have plausible, pairwise distinct serial numbers; absent slots have none. */
  ghost predicate Distinct(slots: seq<Slot>) {
    (forall i :: 0 <= i < |slots| ==> SlotOk(slots[i])) &&
    (forall i, j :: 0 <= i < j < |slots| && slots[i].present && slots[j].present ==>
                      slots[i].serial != slots[j].serial)
  }

  /** Whatever the bus replies, discovery attributes no serial number to two slots. */
  lemma {:induction false} DiscoveryIsDistinct(bus: seq<Reply>, slots: seq<Slot>)
    requires |slots| <= PACK_COUNT && Distinct(slots)
    ensures Distinct(Discovery(bus, slots).0)
    decreases PACK_COUNT - |slots|
  {
    if |slots| < PACK_COUNT {
      var o := Transaction(Rest(bus), 0, SERIAL_RESPONSE_SIZE, false, ATTEMPTS);
      var s := Identified(slots, o);
      IdentifiedIsNew(slots, o);
      DiscoveryIsDistinct(Rest(o.bus), slots + [s]);
    }
  }

  lemma IdentifiedIsNew(slots: seq<Slot>, o: Outcome)
    requires Distinct(slots) && (o.status == E_OK ==> |o.frame| == SERIAL_RESPONSE_SIZE)
    ensures Distinct(slots + [Identified(slots, o)])
  {
    var s := Identified(slots, o);
    assert s.present ==> !Taken(slots, s.serial);
  }

  /** The mask bit of a slot, 1 << index. */
  function SlotMask(index: nat): (mask: byte)
    requires index < PACK_COUNT
    ensures mask as int == Pow2(index)
  {
    if index == 0 then 1 else if index == 1 then 2 else if index == 2 then 4 else 8
  }

  /** The switch mask with one bit per present slot. */
  function MaskOf(slots: seq<Slot>): (m: nat)
    requires |slots| <= PACK_COUNT
    ensures m < if |slots| == PACK_COUNT then 16 else SlotMask(|slots|)
  {
    if slots == [] then 0
    else
      var n := |slots| - 1;
      MaskOf(slots[..n]) + (if slots[n].present then SlotMask(n) else 0)
  }

  function BitOf(s: Slot): nat {
    if s.present then 1 else 0
  }

  /** The binary digits of the mask of all four slots are exactly their presence flags. */
  lemma MaskBits(slots: seq<Slot>)
    requires |slots| == PACK_COUNT
    ensures MaskOf(slots) == BitOf(slots[0]) + 2 * BitOf(slots[1]) + 4 * BitOf(slots[2]) + 8 * BitOf(slots[3])
  {
    assert MaskOf(slots[..0]) == 0;
    assert slots[..1][..0] == slots[..0] && slots[..2][..1] == slots[..1] && slots[..3][..2] == slots[..2];
    assert MaskOf(slots[..1]) == BitOf(slots[0]);
    assert MaskOf(slots[..2]) == BitOf(slots[0]) + 2 * BitOf(slots[1]);
    assert MaskOf(slots[..3]) == BitOf(slots[0]) + 2 * BitOf(slots[1]) + 4 * BitOf(slots[2]);
  }

  // ---------------------------------------------------------------------------------------------
  // Measurements
  // ---------------------------------------------------------------------------------------------

  datatype PackData = PackData(
    voltage: uint16, voltageHighest: uint16, voltageLowest: uint16, current: sint32,
    temperature: sint16, temperatureHigh: sint16, temperatureLow: sint16,
    stateOfCharge: byte, stateOfHealth: byte,
    chargeEnergyWh: uint32, dischargeEnergyWh: uint32, chargeTimeSec: uint32, dischargeTimeSec: uint32,
    statusFlags: uint32)

  datatype CellArrays = CellData(
    cellVoltage: seq<uint16>, current: sint32, temperature: seq<sint16>, statusFlags1: uint32, statusFlags2: uint32)

  /** Fixed-size arrays, as the C structure has. */
  type CellData = c: CellArrays | |c.cellVoltage| == CELLS_PER_PACK && |c.temperature| == TEMPS_PER_PACK
    witness NO_CELLS

  const NO_CELLS: CellArrays :=
    CellArrays.CellData([0, 0, 0, 0, 0, 0, 0, 0, 0, 0, 0, 0, 0, 0, 0, 0, 0, 0, 0, 0, 0, 0, 0], 0, [0, 0, 0, 0], 0, 0)

  function ParsePackData(f: Frame): PackData
    requires |f| >= BATTERY_RESPONSE_SIZE
  {
    var p := f[PAYLOAD_OFFSET..];
    PackData(ReadU16(p, 0), ReadU16(p, 2), ReadU16(p, 4), ToS32(ReadU32(p, 6)),
             ToS16(ReadU16(p, 10)), ToS16(ReadU16(p, 12)), ToS16(ReadU16(p, 14)), p[16], p[17],
             ReadU32(p, 18), ReadU32(p, 22), ReadU32(p, 26), ReadU32(p, 30), ReadU32(p, 34))
  }

  function ParseCellData(f: Frame): CellData
    requires |f| >= CELL_RESPONSE_SIZE
  {
    var p := f[PAYLOAD_OFFSET..];
    CellArrays.CellData(seq(CELLS_PER_PACK, i requires 0 <= i < CELLS_PER_PACK => ReadU16(p, 2 * i)),
             ToS32(ReadU32(p, 46)),
             seq(TEMPS_PER_PACK, i requires 0 <= i < TEMPS_PER_PACK => ToS16(ReadU16(p, 50 + 2 * i))),
             ReadU32(p, 58), ReadU32(p, 62))
  }

  datatype PackState = PackState(
    slot: Slot, pack: PackData, cells: CellData, packDataValid: bool, cellDataValid: bool)

  /** A slot before discovery: absent, with no valid reading. */
  function BlankPack(): (p: PackState)
    ensures p.slot == ABSENT && !p.packDataValid && !p.cellDataValid
  {
    PackState(ABSENT, PackData(0, 0, 0, 0, 0, 0, 0, 0, 0, 0, 0, 0, 0, 0), NO_CELLS, false, false)
  }

  /** The frame a cached reading came from and the serial number its slot held when it was read. */
  datatype Origin = Origin(frame: Frame, serial: uint32)

  /** A frame of the right size that passed validation and echoes the serial number it was asked under. */
  ghost predicate Genuine(o: Origin, size: nat) {
    size >= SERIAL_RESPONSE_SIZE && |o.frame| == size && Validate(o.frame, size, size) == E_OK &&
    ParseSerialNumber(o.frame) == o.serial && Plausible(o.serial)
  }

  function SlotsOf(packs: seq<PackState>): (s: seq<Slot>)
    ensures |s| == |packs| && forall i :: 0 <= i < |packs| ==> s[i] == packs[i].slot
  {
    seq(|packs|, i requires 0 <= i < |packs| => packs[i].slot)
  }

  /** A reading marked valid has an origin, and every origin is genuine and decodes to the cached values. */
  ghost predicate PackAttributed(p: PackState, origin: Option<Origin>) {
    (p.packDataValid ==> origin.Some?) &&
    (origin.Some? ==> Genuine(origin.value, BATTERY_RESPONSE_SIZE) && p.pack == ParsePackData(origin.value.frame))
  }

  ghost predicate CellsAttributed(p: PackState, origin: Option<Origin>) {
    (p.cellDataValid ==> origin.Some?) &&
    (origin.Some? ==> Genuine(origin.value, CELL_RESPONSE_SIZE) && p.cells == ParseCellData(origin.value.frame))
  }

  ghost predicate Attributed(packs: seq<PackState>, packOrigin: seq<Option<Origin>>, cellOrigin: seq<Option<Origin>>) {
    |packs| == |packOrigin| == |cellOrigin| == PACK_COUNT &&
    (forall i :: 0 <= i < PACK_COUNT ==> PackAttributed(packs[i], packOrigin[i])) &&
    (forall i :: 0 <= i < PACK_COUNT ==> CellsAttributed(packs[i], cellOrigin[i]))
  }

  /** Distinct slots and attributed readings. */
  ghost predicate Consistent(packs: seq<PackState>, packOrigin: seq<Option<Origin>>, cellOrigin: seq<Option<Origin>>) {
    Distinct(SlotsOf(packs)) && Attributed(packs, packOrigin, cellOrigin)
  }

  /** A slot's state with the reading of an accepted transaction, or with its reading marked invalid. */
  function WithPackData(p: PackState, o: Outcome): PackState
    requires o.status == E_OK ==> |o.frame| == BATTERY_RESPONSE_SIZE
  {
    if o.status == E_OK then p.(pack := ParsePackData(o.frame), packDataValid := true)
    else p.(packDataValid := false)
  }

  function WithCellData(p: PackState, o: Outcome): PackState
    requires o.status == E_OK ==> |o.frame| == CELL_RESPONSE_SIZE
  {
    if o.status == E_OK then p.(cells := ParseCellData(o.frame), cellDataValid := true)
    else p.(cellDataValid := false)
  }

  /** The origin is replaced exactly when the reading is. */
  function OriginAfter(origin: Option<Origin>, p: PackState, o: Outcome): Option<Origin> {
    if o.status == E_OK then Some(Origin(o.frame, p.slot.serial)) else origin
  }

  lemma ReadKeepsConsistent(packs: seq<PackState>, po: seq<Option<Origin>>, co: seq<Option<Origin>>,
                            i: nat, q: PackState, po': Option<Origin>, co': Option<Origin>)
    requires Consistent(packs, po, co) && i < PACK_COUNT && q.slot == packs[i].slot
    requires PackAttributed(q, po') && CellsAttributed(q, co')
    ensures Consistent(packs[i := q], po[i := po'], co[i := co'])
  {
    hide PackAttributed;
    hide CellsAttributed;
    assert SlotsOf(packs[i := q]) == SlotsOf(packs);
  }

  /** A transaction under the slot's own serial number yields a genuine reading, or none. */
  lemma PackReadIsAttributed(p: PackState, po: Option<Origin>, co: Option<Origin>, bus: seq<Reply>)
    requires PackAttributed(p, po) && CellsAttributed(p, co) && Plausible(p.slot.serial)
    ensures var o := Transaction(bus, p.slot.serial, BATTERY_RESPONSE_SIZE, true, ATTEMPTS);
            PackAttributed(WithPackData(p, o), OriginAfter(po, p, o)) && CellsAttributed(WithPackData(p, o), co)
  {
    hide Transaction, Validate, ParsePackData, ParseCellData, ParseSerialNumber;
  }

  lemma CellReadIsAttributed(p: PackState, po: Option<Origin>, co: Option<Origin>, bus: seq<Reply>)
    requires PackAttributed(p, po) && CellsAttributed(p, co) && Plausible(p.slot.serial)
    ensures var o := Transaction(bus, p.slot.serial, CELL_RESPONSE_SIZE, true, ATTEMPTS);
            PackAttributed(WithCellData(p, o), po) && CellsAttributed(WithCellData(p, o), OriginAfter(co, p, o))
  {
    hide Transaction, Validate, ParsePackData, ParseCellData, ParseSerialNumber;
  }

  lemma RelabelKeepsConsistent(packs: seq<PackState>, packs': seq<PackState>,
                               po: seq<Option<Origin>>, co: seq<Option<Origin>>)
    requires Consistent(packs, po, co) && Relabelled(packs, packs') && Distinct(SlotsOf(packs'))
    ensures Consistent(packs', po, co)
  {}

  lemma ConsistentIsComplete(packs: seq<PackState>, po: seq<Option<Origin>>, co: seq<Option<Origin>>)
    requires Consistent(packs, po, co)
    ensures |packs| == PACK_COUNT
  {}

  /** Only the slots differ. */
  ghost predicate Relabelled(packs: seq<PackState>, packs': seq<PackState>) {
    |packs'| == |packs| && forall i :: 0 <= i < |packs| ==> packs'[i] == packs[i].(slot := packs'[i].slot)
  }

  predicate AnyPresent(slots: seq<Slot>) {
    exists i :: 0 <= i < |slots| && slots[i].present
  }

  lemma AnyPresentAppend(slots: seq<Slot>, s: Slot)
    ensures AnyPresent(slots + [s]) == (AnyPresent(slots) || s.present)
  {
    var t := slots + [s];
    assert forall i :: 0 <= i < |slots| ==> t[i] == slots[i];
    assert t[|slots|] == s;
  }

  // ---------------------------------------------------------------------------------------------
  // What is transmitted
  // ---------------------------------------------------------------------------------------------

  /** A transaction sends its request once, or twice when the first reply is not accepted. */
  ghost predicate Asks(frames: seq<Frame>, serial: uint32, command: byte) {
    1 <= |frames| <= 2 && (forall k :: 0 <= k < |frames| ==> frames[k] == RequestFrame(serial, command))
  }

  lemma SentAsks(before: seq<Frame>, after: seq<Frame>, serial: uint32, command: byte)
    requires before < after && |after| <= |before| + 2
    requires forall k :: |before| <= k < |after| ==> after[k] == RequestFrame(serial, command)
    ensures Asks(after[|before|..], serial, command)
  {}

  /** The slots of the mask enabled, an unaddressed serial number request, all slots disabled. */
  ghost predicate Probes(frames: seq<Frame>, mask: byte) {
    && |frames| >= 2
    && frames[0] == RequestFrameExt(0, 1, 0, mask)
    && Asks(frames[1..|frames| - 1], 0, 0)
    && frames[|frames| - 1] == RequestFrameExt(0, 1, 0, 0)
  }

  lemma ProbeIsSent(start: seq<Frame>, enabled: seq<Frame>, asked: seq<Frame>, end: seq<Frame>, mask: byte)
    requires enabled == start + [RequestFrameExt(0, 1, 0, mask)] && enabled <= asked
    requires Asks(asked[|enabled|..], 0, 0) && end == asked + [RequestFrameExt(0, 1, 0, 0)]
    ensures start < end && Probes(end[|start|..], mask)
  {
    hide Asks, RequestFrameExt;
    var frames := end[|start|..];
    assert frames[1..|frames| - 1] == asked[|enabled|..];
    assert asked[|start|] == enabled[|start|];
  }

  /** The first n slots probed one after the other, each enabled alone. */
  ghost predicate ProbesEach(frames: seq<Frame>, n: nat)
    requires n <= 4
    decreases n, 1
  {
    if n == 0 then frames == [] else ProbedLast(frames, n - 1, 3) || ProbedLast(frames, n - 1, 4)
  }

  /** The last `count` of the frames probe slot n, and those before them the slots before it. */
  ghost predicate ProbedLast(frames: seq<Frame>, n: nat, count: nat)
    requires n < 4
    decreases n, 2
  {
    |frames| >= count &&
    ProbesEach(frames[..|frames| - count], n) && Probes(frames[|frames| - count..], SlotMask(n))
  }

  lemma DiscoverySent(start: seq<Frame>, off: seq<Frame>, probed: seq<Frame>, end: seq<Frame>)
    requires |off| == |start| + 1 && start <= off <= probed && |end| == |probed| + 1 && probed <= end
    ensures start <= end && end[|start|] == off[|start|] && end[|start| + 1..|end| - 1] == probed[|off|..]
  {}

  lemma ProbesLength(frames: seq<Frame>, mask: byte)
    requires Probes(frames, mask)
    ensures 3 <= |frames| <= 4
  {
    hide RequestFrame, RequestFrameExt;
  }

  lemma ProbesOneMore(frames: seq<Frame>, more: seq<Frame>, all: seq<Frame>, n: nat)
    requires n < 4 && ProbesEach(frames, n) && Probes(more, SlotMask(n)) && all == frames + more
    ensures ProbesEach(all, n + 1)
  {
    hide Probes, SlotMask;
    ProbesLength(more, SlotMask(n));
    assert all[..|frames|] == frames && all[|frames|..] == more;
    assert ProbedLast(all, n, |more|) by { hide ProbesEach; }
  }

  lemma NothingProbed(start: seq<Frame>)
    ensures ProbesEach(start[|start|..], 0)
  {}

  lemma ProbesFollow(start: seq<Frame>, before: seq<Frame>, after: seq<Frame>, n: nat)
    requires n < 4 && start <= before < after
    requires ProbesEach(before[|start|..], n) && Probes(after[|before|..], SlotMask(n))
    ensures start <= after && ProbesEach(after[|start|..], n + 1)
  {
    hide *;
    assert after[|start|..] == before[|start|..] + after[|before|..];
    ProbesOneMore(before[|start|..], after[|before|..], after[|start|..], n);
  }

  class Bus {
    var packs: seq<PackState>
    const frame: array<byte>
    var replies: seq<Reply>
    ghost var sent: seq<Frame>
    ghost var packOrigin: seq<Option<Origin>>
    ghost var cellOrigin: seq<Option<Origin>>

    ghost predicate Valid()
      reads this
    {
      frame.Length == MAX_FRAME_SIZE && Consistent(packs, packOrigin, cellOrigin)
    }

    constructor (replies: seq<Reply>)
      ensures Valid() && fresh(frame) && this.replies == replies && sent == []
      ensures forall i :: 0 <= i < PACK_COUNT ==>
                packs[i].slot == ABSENT && !packs[i].packDataValid && !packs[i].cellDataValid
    {
      packs := seq(PACK_COUNT, _ => BlankPack());
      frame := new byte[MAX_FRAME_SIZE](_ => 0);
      this.replies := replies;
      sent := [];
      packOrigin := seq(PACK_COUNT, _ => None);
      cellOrigin := seq(PACK_COUNT, _ => None);
      new;
      assert SlotsOf(packs) == seq(PACK_COUNT, _ => ABSENT);
    }

    /** One half-duplex turn: transmit, then read exactly `size` bytes into `response` or time out. */
    method Exchange(request: Frame, response: array<byte>, size: nat) returns (status: Status)
      requires size <= response.Length
      modifies this`replies, this`sent, response
      ensures status == Exchanged(Next(old(replies)), size)
      ensures replies == Rest(old(replies)) && sent == old(sent) + [request]
      ensures status == E_OK ==> response[..size] == Next(old(replies)).bytes[..size]
    {
      var reply := Next(replies);
      replies := Rest(replies);
      sent := sent + [request];
      if reply.TxFailed? || reply.RxFailed? {
        return E_NOT_OK;
      }
      var n := Min(|reply.bytes|, size);
      for i := 0 to n
        modifies response
        invariant response[..i] == reply.bytes[..i]
      {
        response[i] := reply.bytes[i];
      }
      status := if n < size then E_TIMEOUT else E_OK;
    }

    /** One attempt of a transaction, leaving an accepted frame in the shared buffer. */
    method Attempt(request: Frame, serial: uint32, size: nat, checkSerial: bool) returns (status: Status)
      requires SERIAL_RESPONSE_SIZE <= size <= frame.Length
      modifies this`replies, this`sent, frame
      ensures status == Judged(Next(old(replies)), serial, size, checkSerial)
      ensures replies == Rest(old(replies)) && sent == old(sent) + [request]
      ensures status == E_OK ==> frame[..size] == Next(old(replies)).bytes[..size]
    {
      hide CheckPasses;
      status := Exchange(request, frame, size);
      if status != E_OK {
        return;
      }
      status := ValidateResponse(frame[..size], size, size);
      if status != E_OK {
        return;
      }
      if checkSerial && ParseSerialNumber(frame[..size]) != serial {
        status := E_NOT_OK;
      }
    }

    /** Attempts until one is accepted or they are used up. */
    method Transact(serial: uint32, command: byte, size: nat, checkSerial: bool) returns (status: Status)
      requires SERIAL_RESPONSE_SIZE <= size <= frame.Length
      modifies this`replies, this`sent, frame
      ensures var o := Transaction(old(replies), serial, size, checkSerial, ATTEMPTS);
              status == o.status && replies == o.bus && (status == E_OK ==> frame[..size] == o.frame)
      ensures old(sent) < sent && |sent| <= |old(sent)| + ATTEMPTS
      ensures status != E_OK ==> |sent| == |old(sent)| + ATTEMPTS
      ensures forall k :: |old(sent)| <= k < |sent| ==> sent[k] == RequestFrame(serial, command)
    {
      hide Judged;
      hide RequestFrame;
      var request := new byte[REQUEST_SIZE];
      var _ := BuildRequest(request, serial, command);
      var bytes := request[..];
      assert bytes == RequestFrame(serial, command) + [];
      status := E_NOT_OK;
      var attempt := 0;
      while attempt < ATTEMPTS
        invariant attempt <= ATTEMPTS
        invariant attempt < ATTEMPTS ==>
          Transaction(old(replies), serial, size, checkSerial, ATTEMPTS)
          == Transaction(replies, serial, size, checkSerial, ATTEMPTS - attempt)
        invariant attempt == ATTEMPTS ==>
          Transaction(old(replies), serial, size, checkSerial, ATTEMPTS) == Outcome(status, [], replies)
        invariant old(sent) <= sent && |sent| == |old(sent)| + attempt
        invariant forall k :: |old(sent)| <= k < |sent| ==> sent[k] == bytes
        modifies this`replies, this`sent, frame
      {
        status := Attempt(bytes, serial, size, checkSerial);
        if status == E_OK {
          return;
        }
        attempt := attempt + 1;
      }
    }

    /** Enable the packs of the mask; the controller's acknowledgement is validated. */
    method SwitchPacks(high: byte, low: byte) returns (status: Status)
      modifies this`replies, this`sent
      ensures replies == Rest(old(replies))
      ensures sent == old(sent) + [RequestFrameExt(0, CMD_BATTERY_PARAMS, high, low)]
      ensures status == Judged(Next(old(replies)), 0, REQUEST_SIZE_EXT, false)
    {
      hide RequestFrameExt, Validate;
      var request, response := new byte[REQUEST_SIZE_EXT], new byte[REQUEST_SIZE_EXT];
      var _ := BuildRequestExt(request, 0, CMD_BATTERY_PARAMS, high, low);
      ghost var built := RequestFrameExt(0, CMD_BATTERY_PARAMS, high, low);
      assert built + [] == built;
      assert request[..] == built;
      status := Exchange(request[..], response, REQUEST_SIZE_EXT);
      if status == E_OK {
        assert response[..] == response[..REQUEST_SIZE_EXT];
        status := ValidateResponse(response[..], REQUEST_SIZE_EXT, REQUEST_SIZE_EXT);
      }
    }

    /** Enable one slot alone, ask which pack answers, and disable it again. */
    method ProbeSlot(index: nat, mask: byte) returns (slot: Slot)
      requires index < |packs| && frame.Length == MAX_FRAME_SIZE
      modifies this`replies, this`sent, frame
      ensures var o := Transaction(Rest(old(replies)), 0, SERIAL_RESPONSE_SIZE, false, ATTEMPTS);
              replies == Rest(o.bus) && slot == Identified(SlotsOf(packs)[..index], o)
      ensures old(sent) < sent && Probes(sent[|old(sent)|..], mask)
    {
      hide Transaction, Identified, Judged, RequestFrame, RequestFrameExt, Asks, Probes;
      var _ := SwitchPacks(0, mask);
      ghost var enabled := sent;
      slot := IdentifyEnabled(index);
      ghost var asked := sent;
      var _ := SwitchPacks(0, 0);
      ProbeIsSent(old(sent), enabled, asked, sent, mask);
    }

    /** The pack that answers an unaddressed request, unless its serial number is implausible or already taken. */
    method IdentifyEnabled(index: nat) returns (slot: Slot)
      requires index < |packs| && frame.Length == MAX_FRAME_SIZE
      modifies this`replies, this`sent, frame
      ensures var o := Transaction(old(replies), 0, SERIAL_RESPONSE_SIZE, false, ATTEMPTS);
              replies == o.bus && slot == Identified(SlotsOf(packs)[..index], o)
      ensures old(sent) < sent && Asks(sent[|old(sent)|..], 0, 0)
    {
      hide Judged, RequestFrame, Asks;
      slot := ABSENT;
      var s := Transact(0, CMD_SERIAL_NUMBER, SERIAL_RESPONSE_SIZE, false);
      SentAsks(old(sent), sent, 0, CMD_SERIAL_NUMBER);
      if s == E_OK {
        var serial := ParseSerialNumber(frame[..SERIAL_RESPONSE_SIZE]);
        if Plausible(serial) {
          var duplicate := IsTaken(serial, index);
          if !duplicate {
            slot := Slot(true, serial);
          }
        }
      }
    }

    /** Learn which slots are populated, and re-enable exactly those. */
    method DiscoverPacks() returns (status: Status)
      requires Valid()
      modifies this`replies, this`sent, this`packs, frame
      ensures Valid() && Relabelled(old(packs), packs)
      ensures SlotsOf(packs) == Discovery(Rest(old(replies)), []).0
      ensures replies == Rest(Discovery(Rest(old(replies)), []).1)
      ensures |old(sent)| + 2 <= |sent| && old(sent) <= sent
      ensures sent[|old(sent)|] == RequestFrameExt(0, CMD_BATTERY_PARAMS, 0, 0)
      ensures ProbesEach(sent[|old(sent)| + 1..|sent| - 1], PACK_COUNT)
      ensures sent[|sent| - 1] == RequestFrameExt(0, CMD_BATTERY_PARAMS, 0, MaskOf(SlotsOf(packs)))
      ensures status == (if AnyPresent(SlotsOf(packs)) then E_OK else E_NOT_FOUND)
    {
      hide Discovery, RequestFrameExt, ProbesEach, Consistent, Relabelled, Distinct, MaskOf, AnyPresent;
      ConsistentIsComplete(packs, packOrigin, cellOrigin);
      var _ := SwitchPacks(0, 0);
      ghost var start, off := replies, sent;
      var found := ProbeAll();
      ghost var probed := sent;
      DiscoveryIsDistinct(start, []);
      RelabelKeepsConsistent(old(packs), packs, packOrigin, cellOrigin);
      ConsistentIsComplete(packs, packOrigin, cellOrigin);
      EnablePresent();
      DiscoverySent(old(sent), off, probed, sent);
      status := if found then E_OK else E_NOT_FOUND;
    }

    /** The probing loop of discovery. */
    method ProbeAll() returns (found: bool)
      requires |packs| == PACK_COUNT && frame.Length == MAX_FRAME_SIZE
      modifies this`replies, this`sent, this`packs, frame
      ensures Relabelled(old(packs), packs)
      ensures SlotsOf(packs) == Discovery(old(replies), []).0 && replies == Discovery(old(replies), []).1
      ensures found == AnyPresent(SlotsOf(packs))
      ensures old(sent) <= sent && ProbesEach(sent[|old(sent)|..], PACK_COUNT)
    {
      hide Transaction, Identified, Probes, ProbesEach, SlotMask;
      ghost var known: seq<Slot> := [];
      found := false;
      NothingProbed(sent);
      for index := 0 to PACK_COUNT
        invariant Relabelled(old(packs), packs) && SlotsOf(packs)[..index] == known
        invariant Discovery(old(replies), []) == Discovery(replies, known)
        invariant found == AnyPresent(known)
        invariant old(sent) <= sent && ProbesEach(sent[|old(sent)|..], index)
      {
        ghost var before := sent;
        var slot := ProbeSlot(index, SlotMask(index));
        ProbesFollow(old(sent), before, sent, index);
        packs := packs[index := packs[index].(slot := slot)];
        found := found || slot.present;
        assert SlotsOf(packs)[..index + 1] == known + [slot];
        AnyPresentAppend(known, slot);
        known := known + [slot];
      }
      assert SlotsOf(packs)[..PACK_COUNT] == SlotsOf(packs);
    }

    /** Whether an earlier slot already holds the serial number. */
    method IsTaken(serial: uint32, index: nat) returns (taken: bool)
      requires index <= |packs|
      ensures taken == Taken(SlotsOf(packs)[..index], serial)
    {
      for prior := 0 to index
        invariant !Taken(SlotsOf(packs)[..prior], serial)
      {
        if packs[prior].slot.present && packs[prior].slot.serial == serial {
          assert SlotsOf(packs)[..index][prior] == packs[prior].slot;
          return true;
        }
        assert SlotsOf(packs)[..prior + 1] == SlotsOf(packs)[..prior] + [packs[prior].slot];
      }
      taken := false;
    }

    method EnablePresent()
      requires |packs| == PACK_COUNT
      modifies this`replies, this`sent
      ensures replies == Rest(old(replies))
      ensures sent == old(sent) + [RequestFrameExt(0, CMD_BATTERY_PARAMS, 0, MaskOf(SlotsOf(packs)))]
    {
      var mask := PresentMask();
      var _ := SwitchPacks(0, mask);
    }

    method PresentMask() returns (mask: byte)
      requires |packs| == PACK_COUNT
      ensures mask == MaskOf(SlotsOf(packs))
    {
      var m := 0;
      for index := 0 to PACK_COUNT
        invariant m == MaskOf(SlotsOf(packs)[..index])
      {
        assert SlotsOf(packs)[..index + 1][..index] == SlotsOf(packs)[..index];
        if packs[index].slot.present {
          m := m + SlotMask(index) as int;
        }
      }
      assert SlotsOf(packs)[..PACK_COUNT] == SlotsOf(packs);
      MaskBits(SlotsOf(packs));
      mask := m;
    }

    /** A reading is stored only from a genuine frame of whichever battery currently holds the slot. */
    method ReadPackData(slot: nat) returns (status: Status)
      requires Valid()
      modifies this`replies, this`sent, this`packOrigin, this`packs, frame
      ensures Valid()
      ensures !(1 <= slot <= PACK_COUNT) ==> status == E_NOT_OK && unchanged(this)
      ensures 1 <= slot <= PACK_COUNT ==>
        var i, was := slot - 1, old(packs)[slot - 1];
        var o := Transaction(old(replies), was.slot.serial, BATTERY_RESPONSE_SIZE, true, ATTEMPTS);
        if !was.slot.present then status == E_NOT_FOUND && unchanged(this)
        else
          status == o.status && replies == o.bus && packs == old(packs)[i := WithPackData(was, o)] &&
          packOrigin == old(packOrigin)[i := OriginAfter(old(packOrigin)[i], was, o)] &&
          old(sent) < sent && Asks(sent[|old(sent)|..], was.slot.serial, 1)
    {
      hide Validate, Transaction, PackAttributed, CellsAttributed, ParsePackData, Asks, RequestFrame;
      if !(1 <= slot <= PACK_COUNT) {
        return E_NOT_OK;
      }
      var index := slot - 1;
      var was := packs[index];
      if !was.slot.present {
        return E_NOT_FOUND;
      }
      ghost var o := Transaction(replies, was.slot.serial, BATTERY_RESPONSE_SIZE, true, ATTEMPTS);
      status := Transact(was.slot.serial, CMD_BATTERY_PARAMS, BATTERY_RESPONSE_SIZE, true);
      SentAsks(old(sent), sent, was.slot.serial, CMD_BATTERY_PARAMS);
      var now := was;
      if status == E_OK {
        now := now.(pack := ParsePackData(frame[..BATTERY_RESPONSE_SIZE]));
      }
      now := now.(packDataValid := status == E_OK);
      assert was.slot == SlotsOf(packs)[index];
      PackReadIsAttributed(was, packOrigin[index], cellOrigin[index], old(replies));
      ReadKeepsConsistent(packs, packOrigin, cellOrigin, index, now,
                          OriginAfter(packOrigin[index], was, o), cellOrigin[index]);
      packs := packs[index := now];
      packOrigin := packOrigin[index := OriginAfter(packOrigin[index], was, o)];
    }

    /** As ReadPackData, for the per-cell measurements. */
    method ReadCellData(slot: nat) returns (status: Status)
      requires Valid()
      modifies this`replies, this`sent, this`cellOrigin, this`packs, frame
      ensures Valid()
      ensures !(1 <= slot <= PACK_COUNT) ==> status == E_NOT_OK && unchanged(this)
      ensures 1 <= slot <= PACK_COUNT ==>
        var i, was := slot - 1, old(packs)[slot - 1];
        var o := Transaction(old(replies), was.slot.serial, CELL_RESPONSE_SIZE, true, ATTEMPTS);
        if !was.slot.present then status == E_NOT_FOUND && unchanged(this)
        else
          status == o.status && replies == o.bus && packs == old(packs)[i := WithCellData(was, o)] &&
          cellOrigin == old(cellOrigin)[i := OriginAfter(old(cellOrigin)[i], was, o)] &&
          old(sent) < sent && Asks(sent[|old(sent)|..], was.slot.serial, 5)
    {
      hide Validate, Transaction, PackAttributed, CellsAttributed, ParseCellData, Asks, RequestFrame;
      if !(1 <= slot <= PACK_COUNT) {
        return E_NOT_OK;
      }
      var index := slot - 1;
      var was := packs[index];
      if !was.slot.present {
        return E_NOT_FOUND;
      }
      ghost var o := Transaction(replies, was.slot.serial, CELL_RESPONSE_SIZE, true, ATTEMPTS);
      status := Transact(was.slot.serial, CMD_CELL_PARAMS, CELL_RESPONSE_SIZE, true);
      SentAsks(old(sent), sent, was.slot.serial, CMD_CELL_PARAMS);
      var now := was;
      if status == E_OK {
        now := now.(cells := ParseCellData(frame[..CELL_RESPONSE_SIZE]));
      }
      now := now.(cellDataValid := status == E_OK);
      assert was.slot == SlotsOf(packs)[index];
      CellReadIsAttributed(was, packOrigin[index], cellOrigin[index], old(replies));
      ReadKeepsConsistent(packs, packOrigin, cellOrigin, index, now,
                          packOrigin[index], OriginAfter(cellOrigin[index], was, o));
      packs := packs[index := now];
      cellOrigin := cellOrigin[index := OriginAfter(cellOrigin[index], was, o)];
    }
  }

  method Checksum(data: Frame) returns (crc: uint16)
    ensures crc == Crc16(data)
  {
    hide Crc.Of;
    crc := CrcTable.CalculateCRC16(data, 0, true, []);
  }

  /** Rs485If_ValidateResponse: the length that arrived, the header, the declared length, and the check last. */
  method ValidateResponse(f: Frame, frameSize: nat, expectedSize: nat) returns (status: Status)
    requires |f| >= frameSize && expectedSize >= 4
    ensures status == Validate(f, frameSize, expectedSize)
    ensures frameSize < expectedSize ==> status == E_NOT_OK
  {
    hide Crc16;
    if frameSize < expectedSize || f[0] != START_BYTE || f[1] != DIR_RESPONSE {
      return E_NOT_OK;
    }
    if ReadU16(f, 2) != expectedSize {
      return E_INVALID_PARAM;
    }
    var n := expectedSize - 2;
    var received := ReadU16(f, n);
    var computed := Checksum(f[..n]);
    assert f[..expectedSize][..n] == f[..n] && ReadU16(f[..expectedSize], n) == received;
    status := if received != computed then E_CRC_FAIL else E_OK;
  }

  /** Rs485If_BuildRequest: zero the frame, fill in the fields, append the check; a longer buffer keeps its tail. */
  method BuildRequest(frame: array<byte>, serial: uint32, command: byte) returns (status: Status)
    modifies frame
    ensures status == if frame.Length >= REQUEST_SIZE then E_OK else E_NOT_OK
    ensures status == E_OK ==> frame[..] == RequestFrame(serial, command) + old(frame[REQUEST_SIZE..])
    ensures status != E_OK ==> frame[..] == old(frame[..])
  {
    hide Header, WithCrc;
    if frame.Length < REQUEST_SIZE {
      return E_NOT_OK;
    }
    ghost var tail := frame[REQUEST_SIZE..];
    ClearFrame(frame, REQUEST_SIZE);
    FillHeader(frame, 15, TYPE_ADDRESSED, serial, command);
    assert frame[..13] == frame[..10] + [0, 0, 0];
    assert frame[REQUEST_SIZE..] == tail;
    AppendCrc(frame, REQUEST_SIZE);
    status := E_OK;
  }

  method BuildRequestExt(frame: array<byte>, serial: uint32, command: byte, high: byte, low: byte)
    returns (status: Status)
    modifies frame
    ensures status == if frame.Length >= REQUEST_SIZE_EXT then E_OK else E_NOT_OK
    ensures status == E_OK ==>
              frame[..] == RequestFrameExt(serial, command, high, low) + old(frame[REQUEST_SIZE_EXT..])
    ensures status != E_OK ==> frame[..] == old(frame[..])
  {
    hide Header, WithCrc;
    if frame.Length < REQUEST_SIZE_EXT {
      return E_NOT_OK;
    }
    ghost var tail := frame[REQUEST_SIZE_EXT..];
    ClearFrame(frame, REQUEST_SIZE_EXT);
    FillHeader(frame, 17, TYPE_BROADCAST, serial, command);
    frame[12] := 2;
    frame[13] := high;
    frame[14] := low;
    assert frame[..15] == frame[..10] + [0, 0, 2, high, low];
    assert frame[REQUEST_SIZE_EXT..] == tail;
    AppendCrc(frame, REQUEST_SIZE_EXT);
    status := E_OK;
  }

  method ClearFrame(frame: array<byte>, size: nat)
    requires size <= frame.Length
    modifies frame
    ensures forall i :: 0 <= i < size ==> frame[i] == 0
    ensures frame[size..] == old(frame[size..])
  {
    for i := 0 to size
      invariant forall k :: 0 <= k < i ==> frame[k] == 0
      invariant frame[size..] == old(frame[size..])
    {
      frame[i] := 0;
    }
  }

  method FillHeader(frame: array<byte>, size: byte, kind: byte, serial: uint32, command: byte)
    requires frame.Length >= REQUEST_SIZE
    modifies frame
    ensures frame[..10] == Header(size, kind, serial, command)
    ensures forall i :: 10 <= i < frame.Length ==> frame[i] == old(frame[i])
  {
    var bytes := Header(size, kind, serial, command);
    for i := 0 to 10
      invariant frame[..i] == bytes[..i]
      invariant forall k :: 10 <= k < frame.Length ==> frame[k] == old(frame[k])
    {
      frame[i] := bytes[i];
    }
  }

  /** Rs485If_AppendCrc: the CRC of all but the last two of `size` bytes goes into those two, high byte first. */
  method AppendCrc(frame: array<byte>, size: nat)
    requires 2 <= size <= frame.Length
    modifies frame
    ensures frame[..] == WithCrc(old(frame[..size - 2])) + old(frame[size..])
  {
    hide Crc16;
    var n := size - 2;
    var crc := Checksum(frame[..n]);
    frame[n] := crc / 256;
    frame[n + 1] := crc % 256;
    assert frame[..] == frame[..n] + BytesU16(crc) + frame[size..];
  }
}
