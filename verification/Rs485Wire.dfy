/**
 * The battery's side of the RS485 protocol of src/ecuabs/Rs485If: responses as tools/rs485_reference.py builds them,
 * field by field in protocol order, and what the ECU makes of them.
 */
module Rs485Wire {
  import opened Base
  import opened Rs485If

  // ---------------------------------------------------------------------------------------------
  // Payloads
  // ---------------------------------------------------------------------------------------------

  /** Two's complement, high byte first. */
  function BytesS16(v: sint16): (b: Frame)
    ensures |b| == 2
  {
    BytesU16(v % U16)
  }

  function BytesS32(v: sint32): (b: Frame)
    ensures |b| == 4
  {
    BytesU32(v % U32)
  }

  lemma SignedRead(v: sint16, w: sint32)
    ensures ToS16(ReadU16(BytesS16(v), 0)) == v && ToS32(ReadU32(BytesS32(w), 0)) == w
  {}

  function BatteryPayload(d: PackData): (p: Frame)
    ensures |p| == 38
  {
    BytesU16(d.voltage) + BytesU16(d.voltageHighest) + BytesU16(d.voltageLowest) + BytesS32(d.current)
    + BytesS16(d.temperature) + BytesS16(d.temperatureHigh) + BytesS16(d.temperatureLow)
    + [d.stateOfCharge, d.stateOfHealth] + BytesU32(d.chargeEnergyWh) + BytesU32(d.dischargeEnergyWh)
    + BytesU32(d.chargeTimeSec) + BytesU32(d.dischargeTimeSec) + BytesU32(d.statusFlags)
  }

  function Words(vs: seq<uint16>): (b: Frame)
    ensures |b| == 2 * |vs|
  {
    if vs == [] then [] else BytesU16(vs[0]) + Words(vs[1..])
  }

  function CellPayload(c: CellData): (p: Frame)
    ensures |p| == 66
  {
    var t := c.temperature;
    Words(c.cellVoltage) + BytesS32(c.current) + BytesS16(t[0]) + BytesS16(t[1]) + BytesS16(t[2]) + BytesS16(t[3])
    + BytesU32(c.statusFlags1) + BytesU32(c.statusFlags2)
  }

  /** Reading inside a frame depends only on the bytes read. */
  lemma ReadInside(f: Frame, at: nat, b: Frame)
    requires at + |b| <= |f| && f[at..at + |b|] == b
    ensures |b| == 2 ==> ReadU16(f, at) == ReadU16(b, 0)
    ensures |b| == 4 ==> ReadU32(f, at) == ReadU32(b, 0)
  {
    if |b| >= 2 { assert b[0] == f[at] && b[1] == f[at + 1]; }
    if |b| == 4 { assert b[2] == f[at + 2] && b[3] == f[at + 3]; }
  }

  /** A field at its place in a payload at its place in a frame. */
  ghost predicate Holds(f: Frame, at: nat, b: Frame) {
    at + |b| <= |f| && f[at..at + |b|] == b
  }

  lemma SliceOfSlice(f: Frame, from: nat, size: nat, at: nat, n: nat)
    requires from + size <= |f| && at + n <= size
    ensures f[from..from + size][at..at + n] == f[from + at..from + at + n]
  {
    var g, h := f[from..from + size][at..at + n], f[from + at..from + at + n];
    forall i | 0 <= i < n
      ensures g[i] == h[i]
    {
      assert f[from..from + size][at + i] == f[from + at + i];
    }
  }

  lemma HoldsInside(f: Frame, from: nat, p: Frame, at: nat, b: Frame)
    requires Holds(f, from, p) && Holds(p, at, b)
    ensures Holds(f, from + at, b)
  {
    SliceOfSlice(f, from, |p|, at, |b|);
  }

  lemma HoldsAppend(a: Frame, b: Frame, c: Frame)
    ensures Holds(a + b + c, |a|, b)
  {
    assert (a + b + c)[|a|..|a| + |b|] == b;
  }

  lemma {:induction false} WordAt(vs: seq<uint16>, i: nat)
    requires i < |vs|
    ensures Holds(Words(vs), 2 * i, BytesU16(vs[i]))
  {
    hide BytesU16;
    if i == 0 {
      assert Words(vs) == [] + BytesU16(vs[0]) + Words(vs[1..]);
      HoldsAppend([], BytesU16(vs[0]), Words(vs[1..]));
    } else {
      WordAt(vs[1..], i - 1);
      assert Words(vs) == BytesU16(vs[0]) + Words(vs[1..]) + [];
      HoldsAppend(BytesU16(vs[0]), Words(vs[1..]), []);
      HoldsInside(Words(vs), 2, Words(vs[1..]), 2 * (i - 1), BytesU16(vs[i]));
    }
  }

  lemma BatteryLayout(d: PackData)
    ensures var p := BatteryPayload(d);
            && Holds(p, 0, BytesU16(d.voltage)) && Holds(p, 2, BytesU16(d.voltageHighest))
            && Holds(p, 4, BytesU16(d.voltageLowest)) && Holds(p, 6, BytesS32(d.current))
            && Holds(p, 10, BytesS16(d.temperature)) && Holds(p, 12, BytesS16(d.temperatureHigh))
            && Holds(p, 14, BytesS16(d.temperatureLow)) && p[16] == d.stateOfCharge && p[17] == d.stateOfHealth
            && Holds(p, 18, BytesU32(d.chargeEnergyWh)) && Holds(p, 22, BytesU32(d.dischargeEnergyWh))
            && Holds(p, 26, BytesU32(d.chargeTimeSec)) && Holds(p, 30, BytesU32(d.dischargeTimeSec))
            && Holds(p, 34, BytesU32(d.statusFlags))
  {
    hide BytesU16, BytesU32, BytesS16, BytesS32;
  }

  /** Whatever a battery measures, the ECU decodes: every field of every reading, negative ones included. */
  lemma BatteryRoundTrip(f: Frame, d: PackData)
    requires |f| >= BATTERY_RESPONSE_SIZE && Holds(f, 13, BatteryPayload(d))
    ensures ParsePackData(f) == d
  {
    hide BytesU16, BytesU32, BytesS16, BytesS32, ToS16, ToS32, ReadU16, ReadU32, BatteryPayload, Holds;
    BatteryLayout(d);
    PayloadAt(f, BatteryPayload(d));
    var p := f[13..];
    Field16(p, BatteryPayload(d), 0, d.voltage);
    Field16(p, BatteryPayload(d), 2, d.voltageHighest);
    Field16(p, BatteryPayload(d), 4, d.voltageLowest);
    FieldS32(p, BatteryPayload(d), 6, d.current);
    FieldS16(p, BatteryPayload(d), 10, d.temperature);
    FieldS16(p, BatteryPayload(d), 12, d.temperatureHigh);
    FieldS16(p, BatteryPayload(d), 14, d.temperatureLow);
    ByteAt(p, BatteryPayload(d), 16);
    ByteAt(p, BatteryPayload(d), 17);
    Field32(p, BatteryPayload(d), 18, d.chargeEnergyWh);
    Field32(p, BatteryPayload(d), 22, d.dischargeEnergyWh);
    Field32(p, BatteryPayload(d), 26, d.chargeTimeSec);
    Field32(p, BatteryPayload(d), 30, d.dischargeTimeSec);
    Field32(p, BatteryPayload(d), 34, d.statusFlags);
  }

  lemma PayloadAt(f: Frame, q: Frame)
    requires |f| >= 13 && Holds(f, 13, q)
    ensures Holds(f[13..], 0, q)
  {
    assert f[13..][0..|q|] == f[13..13 + |q|];
  }

  lemma ByteAt(p: Frame, q: Frame, at: nat)
    requires Holds(p, 0, q) && at < |q|
    ensures at < |p| && p[at] == q[at]
  {
    assert p[..|q|][at] == p[at];
  }

  lemma Field16(p: Frame, q: Frame, at: nat, v: uint16)
    requires Holds(p, 0, q) && Holds(q, at, BytesU16(v))
    ensures at + 2 <= |p| && ReadU16(p, at) == v
  {
    HoldsInside(p, 0, q, at, BytesU16(v));
    ReadInside(p, at, BytesU16(v));
  }

  lemma Field32(p: Frame, q: Frame, at: nat, v: uint32)
    requires Holds(p, 0, q) && Holds(q, at, BytesU32(v))
    ensures at + 4 <= |p| && ReadU32(p, at) == v
  {
    HoldsInside(p, 0, q, at, BytesU32(v));
    ReadInside(p, at, BytesU32(v));
  }

  lemma FieldS16(p: Frame, q: Frame, at: nat, v: sint16)
    requires Holds(p, 0, q) && Holds(q, at, BytesS16(v))
    ensures at + 2 <= |p| && ToS16(ReadU16(p, at)) == v
  {
    Field16(p, q, at, v % U16);
    SignedRead(v, 0);
  }

  lemma FieldS32(p: Frame, q: Frame, at: nat, v: sint32)
    requires Holds(p, 0, q) && Holds(q, at, BytesS32(v))
    ensures at + 4 <= |p| && ToS32(ReadU32(p, at)) == v
  {
    Field32(p, q, at, v % U32);
    SignedRead(0, v);
  }

  lemma CellLayout(c: CellData)
    ensures var p := CellPayload(c);
            && Holds(p, 0, Words(c.cellVoltage)) && Holds(p, 46, BytesS32(c.current))
            && Holds(p, 50, BytesS16(c.temperature[0])) && Holds(p, 52, BytesS16(c.temperature[1]))
            && Holds(p, 54, BytesS16(c.temperature[2])) && Holds(p, 56, BytesS16(c.temperature[3]))
            && Holds(p, 58, BytesU32(c.statusFlags1)) && Holds(p, 62, BytesU32(c.statusFlags2))
  {
    hide BytesU16, BytesU32, BytesS16, BytesS32, Words;
  }

  lemma CellRoundTrip(f: Frame, c: CellData)
    requires |f| >= CELL_RESPONSE_SIZE && Holds(f, 13, CellPayload(c))
    ensures ParseCellData(f) == c
  {
    hide BytesU16, BytesU32, BytesS16, BytesS32, ToS16, ToS32, ReadU16, ReadU32, CellPayload, Holds, Words;
    var q, p := CellPayload(c), f[13..];
    CellLayout(c);
    PayloadAt(f, q);
    forall i | 0 <= i < CELLS_PER_PACK
      ensures 2 * i + 2 <= |p| && ReadU16(p, 2 * i) == c.cellVoltage[i]
    {
      VoltageAt(p, q, c.cellVoltage, i);
    }
    FieldS32(p, q, 46, c.current);
    forall i | 0 <= i < TEMPS_PER_PACK
      ensures 52 + 2 * i <= |p| && ToS16(ReadU16(p, 50 + 2 * i)) == c.temperature[i]
    {
      FieldS16(p, q, 50 + 2 * i, c.temperature[i]);
    }
    Field32(p, q, 58, c.statusFlags1);
    Field32(p, q, 62, c.statusFlags2);
    var d := ParseCellData(f);
    assert d.cellVoltage == c.cellVoltage && d.temperature == c.temperature;
  }

  lemma VoltageAt(p: Frame, q: Frame, vs: seq<uint16>, i: nat)
    requires Holds(p, 0, q) && Holds(q, 0, Words(vs)) && i < |vs|
    ensures 2 * i + 2 <= |p| && ReadU16(p, 2 * i) == vs[i]
  {
    hide BytesU16, ReadU16, Holds, Words;
    WordAt(vs, i);
    HoldsInside(q, 0, Words(vs), 2 * i, BytesU16(vs[i]));
    Field16(p, q, 2 * i, vs[i]);
  }

  // ---------------------------------------------------------------------------------------------
  // Frames
  // ---------------------------------------------------------------------------------------------

  /** A response: header, three bytes the ECU does not look at, payload and frame check. */
  function Response(kind: byte, serial: uint32, command: byte, filler: Frame, payload: Frame): (f: Frame)
    requires |filler| == 3 && |payload| <= 66
    ensures |f| == 15 + |payload|
  {
    WithCrc(ResponseHead(kind, serial, command, 15 + |payload|) + filler + payload)
  }

  function ResponseHead(kind: byte, serial: uint32, command: byte, size: uint16): (h: Frame)
    ensures |h| == 10
  {
    [0xFF, 0x55] + BytesU16(size) + [kind] + BytesU32(serial) + [command]
  }

  lemma HeadLayout(kind: byte, serial: uint32, command: byte, size: uint16)
    ensures var h := ResponseHead(kind, serial, command, size);
            && h[0] == 0xFF && h[1] == 0x55 && Holds(h, 2, BytesU16(size)) && h[4] == kind
            && Holds(h, 5, BytesU32(serial)) && h[9] == command
  {
    hide BytesU16, BytesU32;
  }

  lemma ResponseLayout(kind: byte, serial: uint32, command: byte, filler: Frame, payload: Frame)
    requires |filler| == 3 && |payload| <= 66
    ensures var f := Response(kind, serial, command, filler, payload);
            Holds(f, 0, ResponseHead(kind, serial, command, 15 + |payload|)) &&
            Holds(f, 10, filler) && Holds(f, 13, payload)
  {
    hide WithCrc, ResponseHead, Holds;
    var h := ResponseHead(kind, serial, command, 15 + |payload|);
    var body := h + filler + payload;
    var f := WithCrc(body);
    StartHolds(f, body);
    InThree(h, filler, payload);
    HoldsInside(f, 0, body, 0, h);
    HoldsInside(f, 0, body, 10, filler);
    HoldsInside(f, 0, body, 13, payload);
  }

  lemma StartHolds(f: Frame, body: Frame)
    requires |body| <= |f| && f[..|body|] == body
    ensures Holds(f, 0, body)
  {}

  lemma InThree(a: Frame, b: Frame, c: Frame)
    ensures Holds(a + b + c, 0, a) && Holds(a + b + c, |a|, b) && Holds(a + b + c, |a| + |b|, c)
  {
    var f := a + b + c;
    assert f[0..|a|] == a && f[|a|..|a| + |b|] == b && f[|a| + |b|..|f|] == c;
  }

  /** Every well-formed response is accepted and names its battery. */
  lemma ResponsesAreAccepted(kind: byte, serial: uint32, command: byte, filler: Frame, payload: Frame)
    requires |filler| == 3 && |payload| <= 66
    ensures var f := Response(kind, serial, command, filler, payload);
            Validate(f, |f|, |f|) == E_OK && ParseSerialNumber(f) == serial
  {
    hide WithCrc, BytesU16, BytesU32, CheckPasses, ResponseHead, Holds;
    var f, h := Response(kind, serial, command, filler, payload), ResponseHead(kind, serial, command, 15 + |payload|);
    ResponseLayout(kind, serial, command, filler, payload);
    HeadLayout(kind, serial, command, 15 + |payload|);
    ByteAt(f, h, 0);
    ByteAt(f, h, 1);
    Field16(f, h, 2, 15 + |payload|);
    Field32(f, h, 5, serial);
    assert f[..|f|] == f;
  }

  /** And nothing else is. */
  lemma OnlyResponsesAreAccepted(f: Frame)
    requires 15 <= |f| <= MAX_FRAME_SIZE && Validate(f, |f|, |f|) == E_OK
    ensures f == Response(f[4], ParseSerialNumber(f), f[9], f[10..13], f[13..|f| - 2])
  {
    hide Crc16;
    var n := |f| - 2;
    var body := f[..n];
    assert f[..|f|] == f;
    BytesOfRead(f, 2);
    BytesOfRead32(f, 5);
    assert f[2..4] == BytesU16(|f|) && f[5..9] == BytesU32(ParseSerialNumber(f));
    assert body == ([0xFF, 0x55] + f[2..4] + [f[4]] + f[5..9] + [f[9]]) + f[10..13] + f[13..n];
    BytesOfRead(f, n);
    assert f == body + f[n..n + 2];
  }

  lemma BytesOfRead(f: Frame, at: nat)
    requires at + 2 <= |f|
    ensures f[at..at + 2] == BytesU16(ReadU16(f, at))
  {}

  lemma BytesOfRead32(f: Frame, at: nat)
    requires at + 4 <= |f|
    ensures f[at..at + 4] == BytesU32(ReadU32(f, at))
  {
    BytesOfRead(f, at);
    BytesOfRead(f, at + 2);
    assert f[at..at + 4] == f[at..at + 2] + f[at + 2..at + 4];
  }

  /** The verdict on a frame of the expected size, byte by byte: a foreign header is never a frame check failure. */
  lemma VerdictIff(f: Frame)
    requires 15 <= |f| <= MAX_FRAME_SIZE
    ensures var v := Validate(f, |f|, |f|); var ours := f[0] == 0xFF && f[1] == 0x55;
            var sized := 256 * f[2] as int + f[3] as int == |f|;
            && (v == E_NOT_OK <==> !ours)
            && (v == E_INVALID_PARAM <==> ours && !sized)
            && (v == E_CRC_FAIL || v == E_OK <==> ours && sized)
  {
    hide CheckPasses;
  }

  /** The bytes of a request, one by one. */
  lemma RequestBytes(serial: uint32, command: byte)
    ensures var f := RequestFrame(serial, command);
            && |f| == 15 && f[..5] == [0xFF, 0x00, 0, 15, 0x01] && Holds(f, 5, BytesU32(serial))
            && f[9..13] == [command, 0, 0, 0] && CheckPasses(f)
  {
    hide WithCrc, BytesU32, CheckPasses;
    var body := [0xFF, 0x00, 0, 15, 0x01] + BytesU32(serial) + [command, 0, 0, 0];
    assert Header(15, TYPE_ADDRESSED, serial, command) + [0, 0, 0] == body;
    var f := WithCrc(body);
    assert f[..5] == f[..13][..5] && f[9..13] == f[..13][9..13] && f[5..9] == f[..13][5..9];
  }

  /** The bytes of a request to the pack controller, one by one. */
  lemma RequestExtBytes(serial: uint32, command: byte, high: byte, low: byte)
    ensures var f := RequestFrameExt(serial, command, high, low);
            && |f| == 17 && f[..5] == [0xFF, 0x00, 0, 17, 0x03] && Holds(f, 5, BytesU32(serial))
            && f[9..15] == [command, 0, 0, 2, high, low] && CheckPasses(f)
  {
    hide WithCrc, BytesU32, CheckPasses;
    var body := [0xFF, 0x00, 0, 17, 0x03] + BytesU32(serial) + [command, 0, 0, 2, high, low];
    assert Header(17, TYPE_BROADCAST, serial, command) + [0, 0, 2, high, low] == body;
    var f := WithCrc(body);
    assert f[..5] == f[..15][..5] && f[9..15] == f[..15][9..15] && f[5..9] == f[..15][5..9];
  }

  // ---------------------------------------------------------------------------------------------
  // From the battery to the cache
  // ---------------------------------------------------------------------------------------------

  /** When a slot's battery answers, at once or at the second attempt, its reading is what the cache holds. */
  lemma ReadingArrives(p: PackState, d: PackData, kind: byte, filler: Frame, late: Option<Reply>, rest: seq<Reply>)
    requires |filler| == 3
    requires late.Some? ==> Judged(late.value, p.slot.serial, BATTERY_RESPONSE_SIZE, true) != E_OK
    ensures var answer := Received(Response(kind, p.slot.serial, 0x01, filler, BatteryPayload(d)));
            var bus := (if late.Some? then [late.value] else []) + [answer] + rest;
            var o := Transaction(bus, p.slot.serial, BATTERY_RESPONSE_SIZE, true, ATTEMPTS);
            && o.status == E_OK && o.bus == rest
            && WithPackData(p, o) == p.(pack := d, packDataValid := true)
  {
    hide BatteryPayload, Validate, ParsePackData, Response, ParseSerialNumber;
    var f := Response(kind, p.slot.serial, 0x01, filler, BatteryPayload(d));
    ResponsesAreAccepted(kind, p.slot.serial, 0x01, filler, BatteryPayload(d));
    ResponseLayout(kind, p.slot.serial, 0x01, filler, BatteryPayload(d));
    BatteryRoundTrip(f, d);
    AnswerIsTaken(p.slot.serial, BATTERY_RESPONSE_SIZE, true, f, late, rest);
  }

  lemma CellsArrive(p: PackState, c: CellData, kind: byte, filler: Frame, late: Option<Reply>, rest: seq<Reply>)
    requires |filler| == 3
    requires late.Some? ==> Judged(late.value, p.slot.serial, CELL_RESPONSE_SIZE, true) != E_OK
    ensures var answer := Received(Response(kind, p.slot.serial, 0x05, filler, CellPayload(c)));
            var bus := (if late.Some? then [late.value] else []) + [answer] + rest;
            var o := Transaction(bus, p.slot.serial, CELL_RESPONSE_SIZE, true, ATTEMPTS);
            && o.status == E_OK && o.bus == rest
            && WithCellData(p, o) == p.(cells := c, cellDataValid := true)
  {
    hide CellPayload, Validate, ParseCellData, Response, ParseSerialNumber;
    var f := Response(kind, p.slot.serial, 0x05, filler, CellPayload(c));
    ResponsesAreAccepted(kind, p.slot.serial, 0x05, filler, CellPayload(c));
    ResponseLayout(kind, p.slot.serial, 0x05, filler, CellPayload(c));
    CellRoundTrip(f, c);
    AnswerIsTaken(p.slot.serial, CELL_RESPONSE_SIZE, true, f, late, rest);
  }

  lemma AnswerIsTaken(serial: uint32, size: nat, check: bool, f: Frame, late: Option<Reply>, rest: seq<Reply>)
    requires SERIAL_RESPONSE_SIZE <= size == |f| && Validate(f, size, size) == E_OK
    requires check ==> ParseSerialNumber(f) == serial
    requires late.Some? ==> Judged(late.value, serial, size, check) != E_OK
    ensures var bus := (if late.Some? then [late.value] else []) + [Received(f)] + rest;
            Transaction(bus, serial, size, check, ATTEMPTS) == Outcome(E_OK, f, rest)
  {
    hide Validate, ParseSerialNumber;
    assert f[..size] == f;
    assert Judged(Received(f), serial, size, check) == E_OK;
    var tail := [Received(f)] + rest;
    assert Next(tail) == Received(f) && Rest(tail) == rest;
    if late.Some? {
      var bus := [late.value] + [Received(f)] + rest;
      assert bus == [late.value] + tail && Rest(bus) == tail && Next(bus) == late.value;
    } else {
      assert [] + [Received(f)] + rest == tail;
    }
  }

  // ---------------------------------------------------------------------------------------------
  // When nothing acceptable comes
  // ---------------------------------------------------------------------------------------------

  /** A UART fault, too few bytes, a frame of another protocol or length, a damaged one, or another battery's. */
  datatype Failure = Fault | Silence | Foreign | Missized | Damaged | Stranger

  /** How a reply of the expected size fails, if it does, told by its bytes. */
  function FailureOf(reply: Reply, serial: uint32, size: nat): Option<Failure>
    requires 15 <= size <= MAX_FRAME_SIZE
  {
    if !reply.Received? then Some(Fault)
    else if |reply.bytes| < size then Some(Silence)
    else
      var f := reply.bytes[..size];
      if f[0] != 0xFF || f[1] != 0x55 then Some(Foreign)
      else if 256 * f[2] as int + f[3] as int != size then Some(Missized)
      else if 256 * f[size - 2] as int + f[size - 1] as int != Crc16(f[..size - 2]) then Some(Damaged)
      else if f[5..9] != BytesU32(serial) then Some(Stranger)
      else None
  }

  function StatusOf(failure: Option<Failure>): Status {
    match failure
    case None => E_OK
    case Some(Silence) => E_TIMEOUT
    case Some(Missized) => E_INVALID_PARAM
    case Some(Damaged) => E_CRC_FAIL
    case Some(_) => E_NOT_OK
  }

  /** The verdict on a reply to an addressed request tells its failure; header first, frame check after length. */
  lemma VerdictTellsFailure(reply: Reply, serial: uint32, size: nat)
    requires 15 <= size <= MAX_FRAME_SIZE
    ensures Judged(reply, serial, size, true) == StatusOf(FailureOf(reply, serial, size))
  {
    hide Crc16;
    if reply.Received? && |reply.bytes| >= size {
      var f := reply.bytes[..size];
      assert f[..size] == f;
      BytesOfRead32(f, 5);
      if f[5..9] == BytesU32(serial) { SerialIs(f, serial); }
    }
  }

  lemma SerialIs(f: Frame, serial: uint32)
    requires |f| >= 9 && f[5..9] == BytesU32(serial)
    ensures ParseSerialNumber(f) == serial
  {
    assert f[5] == f[5..9][0] && f[6] == f[5..9][1] && f[7] == f[5..9][2] && f[8] == f[5..9][3];
  }

  /**
   * When both replies to a read fail, the slot's reading is no longer valid, the status is the second's, and nothing
   * else changes; the same of the cells.
   */
  lemma FailedReadInvalidates(p: PackState, first: Reply, second: Reply, rest: seq<Reply>)
    requires FailureOf(first, p.slot.serial, 53).Some? && FailureOf(second, p.slot.serial, 53).Some?
    ensures var o := Transaction([first, second] + rest, p.slot.serial, 53, true, 2);
            && o.status == StatusOf(FailureOf(second, p.slot.serial, 53)) != E_OK && o.bus == rest
            && WithPackData(p, o) == p.(packDataValid := false)
  {
    TwoFailures(p.slot.serial, 53, first, second, rest);
  }

  lemma FailedCellReadInvalidates(p: PackState, first: Reply, second: Reply, rest: seq<Reply>)
    requires FailureOf(first, p.slot.serial, 81).Some? && FailureOf(second, p.slot.serial, 81).Some?
    ensures var o := Transaction([first, second] + rest, p.slot.serial, 81, true, 2);
            && o.status == StatusOf(FailureOf(second, p.slot.serial, 81)) != E_OK && o.bus == rest
            && WithCellData(p, o) == p.(cellDataValid := false)
  {
    TwoFailures(p.slot.serial, 81, first, second, rest);
  }

  lemma TwoFailures(serial: uint32, size: nat, first: Reply, second: Reply, rest: seq<Reply>)
    requires 15 <= size <= MAX_FRAME_SIZE
    requires FailureOf(first, serial, size).Some? && FailureOf(second, serial, size).Some?
    ensures var o := Transaction([first, second] + rest, serial, size, true, 2);
            o.status == StatusOf(FailureOf(second, serial, size)) != E_OK && o.bus == rest
  {
    hide Judged, FailureOf;
    VerdictTellsFailure(first, serial, size);
    VerdictTellsFailure(second, serial, size);
    QueueOfTwo(first, second, rest);
    hide Next, Rest, StatusOf;
    FailureShows(FailureOf(first, serial, size));
    FailureShows(FailureOf(second, serial, size));
  }

  lemma QueueOfTwo(first: Reply, second: Reply, rest: seq<Reply>)
    ensures Next([first, second] + rest) == first && Rest([first, second] + rest) == [second] + rest
    ensures Next([second] + rest) == second && Rest([second] + rest) == rest
  {
    assert ([first, second] + rest)[1..] == [second] + rest;
  }

  lemma FailureShows(f: Option<Failure>)
    requires f.Some?
    ensures StatusOf(f) != E_OK
  {}

  /** The replies to the probe of one slot: two acknowledgements around an answer, or around two silences. */
  function Probed(pack: Option<uint32>, ack: Reply, off: Reply): seq<Reply> {
    match pack
    case Some(serial) => [ack, Received(Response(0x01, serial, 0x00, [0, 0, 0], [])), off]
    case None => [ack, Received([]), Received([]), off]
  }

  function AllProbed(packs: seq<Option<uint32>>, ack: Reply, off: Reply): seq<Reply> {
    if packs == [] then [] else Probed(packs[0], ack, off) + AllProbed(packs[1..], ack, off)
  }

  function Found(packs: seq<Option<uint32>>): (s: seq<Slot>)
    ensures |s| == |packs|
  {
    seq(|packs|, i requires 0 <= i < |packs| => if packs[i].Some? then Slot(true, packs[i].value) else ABSENT)
  }

  ghost predicate Genuinely(packs: seq<Option<uint32>>) {
    (forall i :: 0 <= i < |packs| && packs[i].Some? ==> packs[i].value != 0 && packs[i].value != 0xFFFF_FFFF) &&
    (forall i, j :: 0 <= i < j < |packs| && packs[i].Some? ==> packs[i] != packs[j])
  }

  /** Discovery finds exactly the batteries that are there, each in its slot. */
  lemma {:induction false} DiscoveryFinds(packs: seq<Option<uint32>>, n: nat, ack: Reply, off: Reply)
    requires |packs| == PACK_COUNT && Genuinely(packs) && n <= PACK_COUNT
    ensures Discovery(AllProbed(packs[n..], ack, off), Found(packs[..n])) == (Found(packs), [])
    decreases PACK_COUNT - n
  {
    hide Plausible, Discovery, Transaction, Identified, Probed, Genuinely, Found;
    if n == PACK_COUNT {
      assert packs[..n] == packs && packs[n..] == [];
      DiscoveryDone([], Found(packs));
    } else {
      var bus := AllProbed(packs[n..], ack, off);
      var rest := AllProbed(packs[n + 1..], ack, off);
      assert packs[n..][0] == packs[n] && packs[n..][1..] == packs[n + 1..];
      assert bus == Probed(packs[n], ack, off) + rest;
      ProbeAnswers(packs[n], ack, off, rest);
      ProbeIdentifies(packs, n, ack, off, rest);
      DiscoveryStep(bus, Found(packs[..n]));
      FoundSnoc(packs, n);
      DiscoveryFinds(packs, n + 1, ack, off);
    }
  }

  lemma DiscoveryDone(bus: seq<Reply>, slots: seq<Slot>)
    requires |slots| == PACK_COUNT
    ensures Discovery(bus, slots) == (slots, bus)
  {}

  lemma DiscoveryStep(bus: seq<Reply>, slots: seq<Slot>)
    requires |slots| < PACK_COUNT
    ensures var o := Transaction(Rest(bus), 0, SERIAL_RESPONSE_SIZE, false, ATTEMPTS);
            Discovery(bus, slots) == Discovery(Rest(o.bus), slots + [Identified(slots, o)])
  {
    hide Transaction, Identified;
  }

  lemma FoundSnoc(packs: seq<Option<uint32>>, n: nat)
    requires n < |packs|
    ensures Found(packs[..n + 1]) == Found(packs[..n]) + [Found(packs)[n]]
  {}

  lemma ProbeAnswers(pack: Option<uint32>, ack: Reply, off: Reply, rest: seq<Reply>)
    ensures var o := Transaction(Rest(Probed(pack, ack, off) + rest), 0, SERIAL_RESPONSE_SIZE, false, ATTEMPTS);
            && Rest(o.bus) == rest
            && (o.status == E_OK <==> pack.Some?)
            && (pack.Some? ==> |o.frame| == SERIAL_RESPONSE_SIZE && ParseSerialNumber(o.frame) == pack.value)
  {
    hide Validate, ParseSerialNumber, Response;
    var bus := Rest(Probed(pack, ack, off) + rest);
    if pack.Some? {
      var f := Response(0x01, pack.value, 0x00, [0, 0, 0], []);
      ResponsesAreAccepted(0x01, pack.value, 0x00, [0, 0, 0], []);
      assert bus == [] + [Received(f)] + ([off] + rest);
      AnswerIsTaken(0, SERIAL_RESPONSE_SIZE, false, f, None, [off] + rest);
    } else {
      assert bus == [Received([]), Received([]), off] + rest;
      assert Rest(bus) == [Received([]), off] + rest && Rest(Rest(bus)) == [off] + rest;
      assert Next(bus) == Next(Rest(bus)) == Received([]);
    }
    assert Rest([off] + rest) == rest;
  }

  lemma ProbeIdentifies(packs: seq<Option<uint32>>, n: nat, ack: Reply, off: Reply, rest: seq<Reply>)
    requires |packs| == PACK_COUNT && Genuinely(packs) && n < PACK_COUNT
    ensures var o := Transaction(Rest(Probed(packs[n], ack, off) + rest), 0, SERIAL_RESPONSE_SIZE, false, ATTEMPTS);
            Identified(Found(packs[..n]), o) == Found(packs)[n]
  {
    hide Transaction, ParseSerialNumber, Probed, Taken, Genuinely;
    ProbeAnswers(packs[n], ack, off, rest);
    if packs[n].Some? { FoundIsNew(packs, n); }
  }

  lemma FoundIsNew(packs: seq<Option<uint32>>, n: nat)
    requires Genuinely(packs) && n < |packs| && packs[n].Some?
    ensures Plausible(packs[n].value) && !Taken(Found(packs[..n]), packs[n].value)
  {}
}
