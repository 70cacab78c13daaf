/** The CSV header and record of src/services/Com. */
module ComCsv {
  import opened Base
  import opened ComText
  import opened ComWriter
  import Rs485If

  const PACK_COUNT := 4
  const VEHICLE_FIELDS := 23
  const PACK_FIELDS := 44
  const FIELD_COUNT := 199
  const RECORD_BUFFER_SIZE := 2304
  const HEADER_BUFFER_SIZE := 3072
  const DEVICE_ID_LENGTH := 23

  // ---------------------------------------------------------------------------------------------
  // Fields
  // ---------------------------------------------------------------------------------------------

  /** The C type a numeric field is held in. */
  datatype Kind = U8 | U16 | U32 | U64 | S16 | S32

  /** A numeric field, blank unless valid, or text. */
  datatype Field = Num(kind: Kind, value: int, valid: bool) | Text(chars: string)

  predicate InRange(k: Kind, v: int) {
    match k
    case U8 => 0 <= v < 0x100
    case U16 => 0 <= v < 0x1_0000
    case U32 => 0 <= v < 0x1_0000_0000
    case U64 => 0 <= v < 0x1_0000_0000_0000_0000
    case S16 => -0x8000 <= v < 0x8000
    case S32 => -0x8000_0000 <= v < 0x8000_0000
  }

  /** The longest decimal a value of the type can take. */
  function Width(k: Kind): nat {
    match k
    case U8 => 3
    case U16 => 5
    case U32 => 10
    case U64 => 20
    case S16 => 6
    case S32 => 11
  }

  function FieldText(f: Field): string {
    match f
    case Num(_, v, valid) => if valid then Signed(v) else ""
    case Text(s) => s
  }

  predicate FieldOk(f: Field) {
    match f
    case Num(k, v, _) => InRange(k, v)
    case Text(s) => |s| <= DEVICE_ID_LENGTH && SEPARATOR !in s
  }

  function FieldWidth(f: Field): nat {
    match f
    case Num(k, _, _) => Width(k)
    case Text(_) => DEVICE_ID_LENGTH
  }

  /** The digits a value of the type needs, its sign apart. */
  lemma DigitsFit(k: Kind, v: int)
    requires InRange(k, v)
    ensures |Decimal(if v < 0 then -v else v)| <= (if k.S16? then 5 else if k.S32? then 10 else Width(k))
  {
    hide Digits, Pow10;
    PowersOfTen();
    var w: nat := if k.S16? then 5 else if k.S32? then 10 else Width(k);
    DigitsLength(if v < 0 then -v else v, w);
  }

  lemma SignedIsPlain(v: int)
    ensures SEPARATOR !in Signed(v)
    ensures |Signed(v)| == |Decimal(if v < 0 then -v else v)| + (if v < 0 then 1 else 0)
  {
    hide Decimal;
    var digits := Decimal(if v < 0 then -v else v);
    assert AllDigits(digits);
    assert SEPARATOR !in digits;
  }

  /** A printed field fits its type's width and never contains a separator. */
  lemma FieldFits(f: Field)
    requires FieldOk(f)
    ensures |FieldText(f)| <= FieldWidth(f) && SEPARATOR !in FieldText(f)
  {
    hide Signed, Decimal;
    if f.Num? && f.valid {
      DigitsFit(f.kind, f.value);
      SignedIsPlain(f.value);
    }
  }

  lemma PowersOfTen()
    ensures Pow10(3) == 1000 && Pow10(5) == 1_0000_0 && Pow10(10) == 1_0000_0000_00
    ensures Pow10(20) == 1_0000_0000_0000_0000_0000
  {
    assert Pow10(8) == 1_0000_0000;
    assert Pow10(13) == 1_0000_0000_0000_0;
    assert Pow10(17) == 1_0000_0000_0000_0000_0;
  }

  /** What a reader makes of a numeric field: blank is absent, anything else must be a number. */
  function Decode(s: string): Option<int> {
    if s == "" then None else SignedValue(s)
  }

  /** Every numeric field decodes to its value when valid, and is blank exactly when it is not. */
  lemma FieldRoundTrip(f: Field)
    requires f.Num?
    ensures Decode(FieldText(f)) == if f.valid then Some(f.value) else None
    ensures FieldText(f) == "" <==> !f.valid
  {
    SignedRoundTrip(f.value);
  }

  // ---------------------------------------------------------------------------------------------
  // Records
  // ---------------------------------------------------------------------------------------------

  datatype Position = Position(
    latitudeE7: sint32, longitudeE7: sint32, altitudeMm: sint32, speedMmPerSec: uint32, headingDeciDeg: uint16,
    satellitesUsed: byte, fixQuality: byte, hdopCentiUnits: uint16, valid: bool)

  datatype Record = Record(
    sequenceNumber: uint32, unixTime: uint32, uptimeMs: uint32, deviceId: string,
    auxVoltageMilliVolts: uint16, auxVoltageValid: bool,
    motorRpm: uint16, dcVoltageDeciVolt: uint16, dcCurrentDeciAmp: uint16, speedMmPerSec: uint32, mcuFaultCode: byte,
    driveDataValid: bool,
    totalDistanceMm: uint64, tripDistanceMm: uint64,
    packs: Option<seq<Rs485If.PackState>>, position: Option<Position>,
    confirmedDtcCount: uint16, heapFreeBytes: uint32, bearerState: byte)

  /** An array of battery packs, when there is one, has its four entries. */
  predicate FourPacks(r: Record) {
    r.packs.Some? ==> |r.packs.value| == PACK_COUNT
  }

  /** Moreover the device identifier fits its field and cannot be taken for several. */
  predicate Printable(r: Record) {
    FourPacks(r) && |r.deviceId| <= DEVICE_ID_LENGTH && SEPARATOR !in r.deviceId
  }

  const NO_POSITION: Position := Position(0, 0, 0, 0, 0, 0, 0, 0, false)
  function Fix(r: Record): Position {
    if r.position.Some? && r.position.value.valid then r.position.value else NO_POSITION
  }

  /** The vehicle-level fields in the order they are written. */
  function VehicleFields(r: Record): (fs: seq<Field>)
    ensures |fs| == VEHICLE_FIELDS
  {
    var d, p := r.driveDataValid, Fix(r);
    [Num(U32, r.sequenceNumber, true), Num(U32, r.unixTime, r.unixTime > 0), Num(U32, r.uptimeMs, true),
     Text(r.deviceId), Num(U16, r.auxVoltageMilliVolts, r.auxVoltageValid),
     Num(U16, r.motorRpm, d), Num(U16, r.dcVoltageDeciVolt, d), Num(U16, r.dcCurrentDeciAmp, d),
     Num(U32, r.speedMmPerSec, d), Num(U8, r.mcuFaultCode, d),
     Num(U64, r.totalDistanceMm as int, true), Num(U64, r.tripDistanceMm as int, true),
     Num(S32, p.latitudeE7, p.valid), Num(S32, p.longitudeE7, p.valid), Num(S32, p.altitudeMm, p.valid),
     Num(U32, p.speedMmPerSec, p.valid), Num(U16, p.headingDeciDeg, p.valid),
     Num(U8, p.satellitesUsed, p.valid), Num(U8, p.fixQuality, p.valid), Num(U16, p.hdopCentiUnits, p.valid),
     Num(U16, r.confirmedDtcCount, true), Num(U32, r.heapFreeBytes, true), Num(U8, r.bearerState, true)]
  }

  function PackLevelFields(s: Rs485If.PackState): (fs: seq<Field>)
    ensures |fs| == 14
  {
    var p, v := s.pack, s.packDataValid;
    [Num(U16, p.voltage, v), Num(U16, p.voltageHighest, v), Num(U16, p.voltageLowest, v),
     Num(S32, p.current, v), Num(S16, p.temperature, v), Num(S16, p.temperatureHigh, v),
     Num(S16, p.temperatureLow, v), Num(U8, p.stateOfCharge, v), Num(U8, p.stateOfHealth, v),
     Num(U32, p.chargeEnergyWh, v), Num(U32, p.dischargeEnergyWh, v), Num(U32, p.chargeTimeSec, v),
     Num(U32, p.dischargeTimeSec, v), Num(U32, p.statusFlags, v)]
  }

  function CellVoltageFields(s: Rs485If.PackState): (fs: seq<Field>)
    ensures |fs| == 23
  {
    seq(23, i requires 0 <= i < 23 => Num(U16, s.cells.cellVoltage[i], s.cellDataValid))
  }

  function CellTailFields(s: Rs485If.PackState): (fs: seq<Field>)
    ensures |fs| == 7
  {
    var c, v := s.cells, s.cellDataValid;
    [Num(S32, c.current, v), Num(S16, c.temperature[0], v), Num(S16, c.temperature[1], v),
     Num(S16, c.temperature[2], v), Num(S16, c.temperature[3], v),
     Num(U32, c.statusFlags1, v), Num(U32, c.statusFlags2, v)]
  }

  function PackFields(s: Rs485If.PackState): (fs: seq<Field>)
    ensures |fs| == PACK_FIELDS
  {
    PackLevelFields(s) + CellVoltageFields(s) + CellTailFields(s)
  }

  /** A slot's battery pack; without an array every field is blank. */
  function PackAt(r: Record, i: nat): Rs485If.PackState
    requires FourPacks(r) && i < PACK_COUNT
  {
    if r.packs.Some? then r.packs.value[i] else Rs485If.BlankPack()
  }

  function Fields(r: Record): (fs: seq<Field>)
    requires FourPacks(r)
    ensures |fs| == 199
  {
    VehicleFields(r) + PackFields(PackAt(r, 0)) + PackFields(PackAt(r, 1)) + PackFields(PackAt(r, 2))
    + PackFields(PackAt(r, 3))
  }

  function Texts(fs: seq<Field>): (ts: seq<string>)
    ensures |ts| == |fs| && forall i :: 0 <= i < |fs| ==> ts[i] == FieldText(fs[i])
  {
    seq(|fs|, i requires 0 <= i < |fs| => FieldText(fs[i]))
  }

  function RecordText(r: Record): string
    requires FourPacks(r)
  {
    Join(Texts(Fields(r)))
  }

  // ---------------------------------------------------------------------------------------------
  // Lengths
  // ---------------------------------------------------------------------------------------------

  /** The widths of the fields, in order. */
  const VEHICLE_WIDTHS: seq<nat> :=
    [10, 10, 10, 23, 5, 5, 5, 5, 10, 3, 20, 20, 11, 11, 11, 10, 5, 3, 3, 5, 5, 10, 3]
  const PACK_LEVEL_WIDTHS: seq<nat> := [5, 5, 5, 11, 6, 6, 6, 3, 3, 10, 10, 10, 10, 10]
  const CELL_TAIL_WIDTHS: seq<nat> := [11, 6, 6, 6, 6, 10, 10]

  function Sum(ws: seq<nat>, from: nat): nat
    decreases |ws| - from
  {
    if from >= |ws| then 0 else ws[from] + Sum(ws, from + 1)
  }

  /** Acceptable fields, the i-th no wider than ws[i]. */
  ghost predicate Bounded(fs: seq<Field>, ws: seq<nat>) {
    |fs| == |ws| && forall i :: 0 <= i < |fs| ==> FieldOk(fs[i]) && FieldWidth(fs[i]) <= ws[i]
  }

  lemma {:induction false} TextsAreBounded(fs: seq<Field>, ws: seq<nat>, from: nat)
    requires Bounded(fs, ws) && from <= |fs|
    ensures TotalLength(Texts(fs[from..])) <= Sum(ws, from)
    decreases |fs| - from
  {
    if from < |fs| {
      FieldFits(fs[from]);
      TextsAreBounded(fs, ws, from + 1);
      assert Texts(fs[from..])[1..] == Texts(fs[from + 1..]);
    }
  }

  lemma BoundedFits(fs: seq<Field>, ws: seq<nat>)
    requires Bounded(fs, ws)
    ensures Fits(fs, Sum(ws, 0))
  {
    TextsAreBounded(fs, ws, 0);
    assert fs[0..] == fs;
    forall i | 0 <= i < |fs|
      ensures SEPARATOR !in FieldText(fs[i])
    {
      FieldFits(fs[i]);
    }
  }

  lemma {:induction false} TotalLengthAppend(a: seq<string>, b: seq<string>)
    ensures TotalLength(a + b) == TotalLength(a) + TotalLength(b)
  {
    if a == [] {
      assert a + b == b;
    } else {
      assert (a + b)[1..] == a[1..] + b;
      TotalLengthAppend(a[1..], b);
    }
  }

  lemma TextsAppend(a: seq<Field>, b: seq<Field>)
    ensures Texts(a + b) == Texts(a) + Texts(b)
    ensures TotalLength(Texts(a + b)) == TotalLength(Texts(a)) + TotalLength(Texts(b))
  {
    assert Texts(a + b) == Texts(a) + Texts(b);
    TotalLengthAppend(Texts(a), Texts(b));
  }

  /** No field holds a separator and their lengths add up to at most n. */
  ghost predicate Fits(fs: seq<Field>, n: nat) {
    TotalLength(Texts(fs)) <= n && forall i :: 0 <= i < |fs| ==> SEPARATOR !in FieldText(fs[i])
  }

  lemma FitsAppend(a: seq<Field>, b: seq<Field>, m: nat, n: nat)
    requires Fits(a, m) && Fits(b, n)
    ensures Fits(a + b, m + n)
  {
    TextsAppend(a, b);
  }

  lemma VehicleFits(r: Record)
    requires Printable(r)
    ensures Fits(VehicleFields(r), 203)
  {
    assert Bounded(VehicleFields(r), VEHICLE_WIDTHS);
    BoundedFits(VehicleFields(r), VEHICLE_WIDTHS);
    VehicleSum();
  }

  lemma VehicleSum()
    ensures Sum(VEHICLE_WIDTHS, 0) == 203
  {
    var w := VEHICLE_WIDTHS;
    assert Sum(w, 21) == 13 && Sum(w, 19) == 23;
    assert Sum(w, 17) == 29 && Sum(w, 15) == 44;
    assert Sum(w, 13) == 66 && Sum(w, 11) == 97;
    assert Sum(w, 9) == 120 && Sum(w, 7) == 135;
    assert Sum(w, 5) == 145 && Sum(w, 3) == 173;
    assert Sum(w, 1) == 193;
  }

  lemma PackSums()
    ensures Sum(PACK_LEVEL_WIDTHS, 0) == 100 && Sum(CELL_TAIL_WIDTHS, 0) == 55
  {
    var w, t := PACK_LEVEL_WIDTHS, CELL_TAIL_WIDTHS;
    assert Sum(w, 12) == 20 && Sum(w, 10) == 40;
    assert Sum(w, 8) == 53 && Sum(w, 6) == 62;
    assert Sum(w, 4) == 74 && Sum(w, 2) == 90;
    assert Sum(t, 5) == 20 && Sum(t, 3) == 32;
    assert Sum(t, 1) == 44;
  }

  lemma PackFits(s: Rs485If.PackState)
    ensures Fits(PackFields(s), 270)
  {
    PackSums();
    LevelFits(s);
    VoltagesFit(s);
    TailFits(s);
    FitsAppend(PackLevelFields(s), CellVoltageFields(s), 100, 115);
    FitsAppend(PackLevelFields(s) + CellVoltageFields(s), CellTailFields(s), 215, 55);
  }

  lemma LevelFits(s: Rs485If.PackState)
    ensures Fits(PackLevelFields(s), Sum(PACK_LEVEL_WIDTHS, 0))
  {
    assert Bounded(PackLevelFields(s), PACK_LEVEL_WIDTHS);
    BoundedFits(PackLevelFields(s), PACK_LEVEL_WIDTHS);
  }

  lemma VoltagesFit(s: Rs485If.PackState)
    ensures Fits(CellVoltageFields(s), 115)
  {
    var ws := seq(23, _ => 5);
    assert Bounded(CellVoltageFields(s), ws);
    BoundedFits(CellVoltageFields(s), ws);
    SumOfEqual(ws, 5, 0);
  }

  lemma TailFits(s: Rs485If.PackState)
    ensures Fits(CellTailFields(s), Sum(CELL_TAIL_WIDTHS, 0))
  {
    assert Bounded(CellTailFields(s), CELL_TAIL_WIDTHS);
    BoundedFits(CellTailFields(s), CELL_TAIL_WIDTHS);
  }

  lemma {:induction false} SumOfEqual(ws: seq<nat>, w: nat, from: nat)
    requires from <= |ws| && forall i :: 0 <= i < |ws| ==> ws[i] == w
    ensures Sum(ws, from) == (|ws| - from) * w
    decreases |ws| - from
  {
    if from < |ws| { SumOfEqual(ws, w, from + 1); }
  }

  /** Every record splits back into exactly its 199 fields and is at most 1481 characters long. */
  lemma RecordRoundTrip(r: Record)
    requires Printable(r)
    ensures Split(RecordText(r)) == Texts(Fields(r)) && |Split(RecordText(r))| == 199
    ensures |RecordText(r)| <= 1481
  {
    var v, a, b, c, d := VehicleFields(r), PackFields(PackAt(r, 0)), PackFields(PackAt(r, 1)),
                         PackFields(PackAt(r, 2)), PackFields(PackAt(r, 3));
    VehicleFits(r);
    PackFits(PackAt(r, 0));
    PackFits(PackAt(r, 1));
    PackFits(PackAt(r, 2));
    PackFits(PackAt(r, 3));
    FitsAppend(v, a, 203, 270);
    FitsAppend(v + a, b, 473, 270);
    FitsAppend(v + a + b, c, 743, 270);
    FitsAppend(v + a + b + c, d, 1013, 270);
    SplitJoin(Texts(Fields(r)));
    JoinLength(Texts(Fields(r)));
  }

  /** Column i of the printed record decodes to the field's value when it is valid, and is blank exactly when not. */
  lemma ColumnRoundTrip(r: Record, i: nat)
    requires Printable(r) && i < FIELD_COUNT && Fields(r)[i].Num?
    ensures |Split(RecordText(r))| == 199
    ensures var f := Fields(r)[i];
            && Decode(Split(RecordText(r))[i]) == (if f.valid then Some(f.value) else None)
            && (Split(RecordText(r))[i] == "" <==> !f.valid)
  {
    RecordRoundTrip(r);
    FieldRoundTrip(Fields(r)[i]);
  }

  /** The only characters of a printed record are digits, minus signs, separators and the device identifier's. */
  lemma RecordCharacters(r: Record, c: char)
    requires FourPacks(r) && c !in r.deviceId && !IsDigit(c) && c != '-' && c != SEPARATOR
    ensures c !in RecordText(r)
  {
    var fs := Fields(r);
    forall i | 0 <= i < |fs|
      ensures c !in Texts(fs)[i]
    {
      OnlyTheDeviceIdIsText(r, i);
      if fs[i].Num? {
        NumberCharacters(fs[i], c);
      }
    }
    JoinCharacters(Texts(fs), c);
  }

  lemma NumberCharacters(f: Field, c: char)
    requires f.Num? && !IsDigit(c) && c != '-'
    ensures c !in FieldText(f)
  {
    var v: nat := if f.value < 0 then -f.value else f.value;
    assert c !in Decimal(v);
  }

  /** Column 3 is the device identifier; every other column is a number. */
  lemma OnlyTheDeviceIdIsText(r: Record, i: nat)
    requires FourPacks(r) && i < FIELD_COUNT
    ensures if i == 3 then Fields(r)[i] == Text(r.deviceId) else Fields(r)[i].Num?
  {
    hide PackFields;
    hide VehicleFields;
    if i < VEHICLE_FIELDS {
      assert Fields(r)[i] == VehicleFields(r)[i];
      VehicleFieldsAreNumbers(r, i);
    } else {
      var k, j := (i - VEHICLE_FIELDS) / PACK_FIELDS, (i - VEHICLE_FIELDS) % PACK_FIELDS;
      assert Fields(r)[i] == PackFields(PackAt(r, k))[j];
      PackFieldsAreNumbers(PackAt(r, k), j);
    }
  }

  lemma VehicleFieldsAreNumbers(r: Record, i: nat)
    requires i < VEHICLE_FIELDS
    ensures if i == 3 then VehicleFields(r)[i] == Text(r.deviceId)
            else VehicleFields(r)[i].Num? && FieldOk(VehicleFields(r)[i])
  {}

  lemma PackFieldsAreNumbers(s: Rs485If.PackState, j: nat)
    requires j < PACK_FIELDS
    ensures PackFields(s)[j].Num? && FieldOk(PackFields(s)[j])
  {
    if j < 14 {
      assert PackFields(s)[j] == PackLevelFields(s)[j];
    } else if j < 37 {
      assert PackFields(s)[j] == CellVoltageFields(s)[j - 14];
    } else {
      assert PackFields(s)[j] == CellTailFields(s)[j - 37];
    }
  }

  // ---------------------------------------------------------------------------------------------
  // Serialisation
  // ---------------------------------------------------------------------------------------------

  method WriteField(w: Writer, f: Field)
    requires w.Valid() && (f.Num? ==> InRange(f.kind, f.value))
    modifies w, w.buffer
    ensures w.Valid() && w.text == old(w.text) + FieldText(f)
  {
    match f
    case Num(kind, value, valid) =>
      if valid {
        if kind.S16? || kind.S32? {
          w.WriteS32(value);
        } else {
          w.WriteU64(value);
        }
      }
    case Text(chars) =>
      w.WriteString(chars);
  }

  /** Separators between the fields, and nothing left out when a field is blank. */
  method SerialiseCsvRecord(r: Record, buffer: array<char>) returns (status: Status, written: nat)
    requires FourPacks(r)
    modifies buffer
    ensures status == if |RecordText(r)| < buffer.Length then E_OK else E_NO_SPACE
    ensures buffer.Length > 0 ==>
              written == Min(|RecordText(r)|, buffer.Length - 1) &&
              buffer[..written] == RecordText(r)[..written] && buffer[written] == NUL
  {
    var writer := new Writer(buffer);
    var fields := Fields(r);
    for i := 0 to |fields|
      invariant writer.Valid() && writer.buffer == buffer && fresh(writer)
      invariant writer.text == Join(Texts(fields[..i]))
    {
      if i > 0 {
        writer.WriteChar(SEPARATOR);
      }
      FieldsAreInRange(r, i);
      WriteField(writer, fields[i]);
      TextsSnoc(fields, i);
    }
    assert fields[..|fields|] == fields;
    written := writer.length;
    status := if !writer.overflow then E_OK else E_NO_SPACE;
  }

  lemma TextsSnoc(fs: seq<Field>, i: nat)
    requires i < |fs|
    ensures Join(Texts(fs[..i + 1]))
         == Join(Texts(fs[..i])) + (if i > 0 then [SEPARATOR] else "") + FieldText(fs[i])
  {
    var ts := Texts(fs[..i]);
    assert Texts(fs[..i + 1]) == ts + [FieldText(fs[i])];
    if i > 0 {
      JoinSnoc(ts, FieldText(fs[i]));
    }
  }

  lemma FieldsAreInRange(r: Record, i: nat)
    requires FourPacks(r) && i < FIELD_COUNT
    ensures Fields(r)[i].Num? ==> InRange(Fields(r)[i].kind, Fields(r)[i].value)
  {
    hide PackFields;
    hide VehicleFields;
    if i < VEHICLE_FIELDS {
      assert Fields(r)[i] == VehicleFields(r)[i];
      VehicleFieldsAreNumbers(r, i);
    } else {
      var k, j := (i - VEHICLE_FIELDS) / PACK_FIELDS, (i - VEHICLE_FIELDS) % PACK_FIELDS;
      assert Fields(r)[i] == PackFields(PackAt(r, k))[j];
      PackFieldsAreNumbers(PackAt(r, k), j);
    }
  }

  /** A printable record always fits the record buffer, with room to spare. */
  lemma RecordAlwaysFits(r: Record)
    requires Printable(r)
    ensures |RecordText(r)| < 2304
  {
    RecordRoundTrip(r);
  }

  // ---------------------------------------------------------------------------------------------
  // The header
  // ---------------------------------------------------------------------------------------------

  const VEHICLE_NAMES: seq<string> :=
    ["SEQ", "UNIX_TIME", "UPTIME_MS", "DEVICE_ID", "AUX_MV", "RPM", "DC_DV", "DC_DA", "SPEED_MMPS", "MCU_FAULT",
     "ODO_MM", "TRIP_MM", "LAT_E7", "LON_E7", "ALT_MM", "GNSS_SPEED_MMPS", "GNSS_HDG_DDEG", "GNSS_SATS",
     "GNSS_FIX", "GNSS_HDOP", "DTC_COUNT", "HEAP_FREE", "BEARER"]

  const PACK_NAMES: seq<string> :=
    ["V", "V_HI", "V_LO", "I", "T", "T_HI", "T_LO", "SOC", "SOH", "CHG_WH", "DIS_WH", "CHG_S", "DIS_S", "FLAGS"]

  const CELL_TAIL_NAMES: seq<string> := ["C_I", "C_T1", "C_T2", "C_T3", "C_T4", "C_F1", "C_F2"]

  /** The names of a pack's columns after its prefix. */
  function Suffix(i: nat): string
    requires i < PACK_FIELDS
  {
    if i < 14 then "_" + PACK_NAMES[i]
    else if i < 37 then "_CV" + Decimal(i - 13)
    else "_" + CELL_TAIL_NAMES[i - 37]
  }

  /** The 44 column names of pack `index`. */
  function PackHeader(index: nat): (names: seq<string>)
    ensures |names| == PACK_FIELDS
  {
    seq(PACK_FIELDS, i requires 0 <= i < PACK_FIELDS => "P" + Decimal(index) + Suffix(i))
  }

  function HeaderNames(): (names: seq<string>)
    ensures |names| == 199
  {
    VEHICLE_NAMES + PackHeader(1) + PackHeader(2) + PackHeader(3) + PackHeader(4)
  }

  function Header(): string {
    Join(HeaderNames())
  }

  predicate NameChar(c: char) {
    'A' <= c <= 'Z' || c == '_' || IsDigit(c)
  }

  /** Upper-case letters, digits and underscores, at most n of them. */
  predicate PlainName(s: string, n: nat) {
    |s| <= n && forall i :: 0 <= i < |s| ==> NameChar(s[i])
  }

  lemma VehicleNamesArePlain(i: nat)
    requires i < VEHICLE_FIELDS
    ensures PlainName(VEHICLE_NAMES[i], 15)
  {}

  lemma PlainAppend(a: string, b: string, m: nat, n: nat)
    requires PlainName(a, m) && PlainName(b, n)
    ensures PlainName(a + b, m + n)
  {}

  lemma DecimalIsPlain(v: nat, n: nat)
    requires 0 < v < Pow10(n)
    ensures PlainName(Decimal(v), n)
  {
    DigitsLength(v, n);
  }

  lemma PackPrefixIsPlain(index: nat)
    requires 1 <= index <= PACK_COUNT
    ensures PlainName("P" + Decimal(index), 2)
  {
    assert Pow10(1) == 10;
    DecimalIsPlain(index, 1);
    PlainAppend("P", Decimal(index), 1, 1);
  }

  lemma SuffixIsPlain(i: nat)
    requires i < PACK_FIELDS
    ensures PlainName(Suffix(i), 7)
  {
    if 14 <= i < 37 {
      CellSuffixIsPlain(i - 13);
    } else {
      hide Decimal;
    }
  }

  lemma CellSuffixIsPlain(cell: nat)
    requires 1 <= cell <= 23
    ensures PlainName("_CV" + Decimal(cell), 5)
  {
    hide Decimal;
    assert Pow10(1) == 10 && Pow10(2) == 100;
    DecimalIsPlain(cell, 2);
    PlainAppend("_CV", Decimal(cell), 3, 2);
  }

  lemma PackNamesArePlain(index: nat, i: nat)
    requires 1 <= index <= PACK_COUNT && i < PACK_FIELDS
    ensures PlainName(PackHeader(index)[i], 9)
  {
    hide Suffix;
    PackPrefixIsPlain(index);
    SuffixIsPlain(i);
    PlainAppend("P" + Decimal(index), Suffix(i), 2, 7);
  }

  lemma {:induction false} PlainLength(names: seq<string>, n: nat)
    requires forall i :: 0 <= i < |names| ==> PlainName(names[i], n)
    ensures TotalLength(names) <= |names| * n
  {
    if names != [] { PlainLength(names[1..], n); }
  }

  ghost predicate AllPlain(names: seq<string>, n: nat) {
    forall i :: 0 <= i < |names| ==> PlainName(names[i], n)
  }

  lemma AllPlainAppend(a: seq<string>, b: seq<string>, m: nat, n: nat)
    requires AllPlain(a, m) && AllPlain(b, n) && n <= m
    ensures AllPlain(a + b, m)
  {}

  lemma VehicleHeaderIsPlain()
    ensures AllPlain(VEHICLE_NAMES, 15)
  {
    forall i | 0 <= i < VEHICLE_FIELDS
      ensures PlainName(VEHICLE_NAMES[i], 15)
    {
      VehicleNamesArePlain(i);
    }
  }

  lemma PackHeaderIsPlain(index: nat)
    requires 1 <= index <= PACK_COUNT
    ensures AllPlain(PackHeader(index), 9)
  {
    forall i | 0 <= i < PACK_FIELDS
      ensures PlainName(PackHeader(index)[i], 9)
    {
      PackNamesArePlain(index, i);
    }
  }

  /** Plain names, no more than n characters in all. */
  ghost predicate Compact(names: seq<string>, n: nat) {
    AllPlain(names, 15) && TotalLength(names) <= n
  }

  lemma AddPackHeader(names: seq<string>, index: nat, n: nat)
    requires 1 <= index <= PACK_COUNT && Compact(names, n)
    ensures Compact(names + PackHeader(index), n + 396)
  {
    hide PackHeader;
    PackHeaderIsPlain(index);
    PlainLength(PackHeader(index), 9);
    AllPlainAppend(names, PackHeader(index), 15, 9);
    TotalLengthAppend(names, PackHeader(index));
  }

  lemma AddFourPackHeaders(names: seq<string>, n: nat)
    requires Compact(names, n)
    ensures Compact(names + PackHeader(1) + PackHeader(2) + PackHeader(3) + PackHeader(4), n + 1584)
  {
    hide PackHeader;
    hide Compact;
    AddPackHeader(names, 1, n);
    AddPackHeader(names + PackHeader(1), 2, n + 396);
    AddPackHeader(names + PackHeader(1) + PackHeader(2), 3, n + 792);
    AddPackHeader(names + PackHeader(1) + PackHeader(2) + PackHeader(3), 4, n + 1188);
  }

  lemma HeaderIsCompact()
    ensures Compact(HeaderNames(), 1929)
  {
    hide PackHeader;
    VehicleHeaderIsPlain();
    PlainLength(VEHICLE_NAMES, 15);
    AddFourPackHeaders(VEHICLE_NAMES, 345);
  }

  /**
   * The header names as many columns as a record has fields, fits the header buffer, and contains neither a
   * line end nor the CRC separator of the log.
   */
  lemma HeaderMatchesRecords()
    ensures Split(Header()) == HeaderNames() && |Split(Header())| == 199
    ensures 0 < |Header()| <= 2127 < 3071
    ensures '\n' !in Header() && '|' !in Header() && NUL !in Header()
  {
    hide HeaderNames;
    HeaderIsCompact();
    JoinLength(HeaderNames());
    PlainSplit(HeaderNames());
    PlainLacks(HeaderNames(), '\n');
    PlainLacks(HeaderNames(), '|');
    PlainLacks(HeaderNames(), NUL);
  }

  lemma PlainSplit(names: seq<string>)
    requires names != [] && AllPlain(names, 15)
    ensures Split(Join(names)) == names
  {
    SplitJoin(names);
  }

  lemma PlainLacks(names: seq<string>, c: char)
    requires AllPlain(names, 15) && !NameChar(c) && c != SEPARATOR
    ensures c !in Join(names)
  {
    JoinCharacters(names, c);
  }

  /** Com_FormatCsvHeader: the whole header or an empty buffer. */
  method FormatCsvHeader(buffer: array<char>) returns (status: Status, written: nat)
    modifies buffer
    ensures status == if |Header()| < buffer.Length then E_OK else E_NO_SPACE
    ensures status == E_OK ==> written == |Header()| && buffer[..written] == Header() && buffer[written] == NUL
    ensures status != E_OK ==> written == 0 && (buffer.Length > 0 ==> buffer[0] == NUL)
  {
    written := 0;
    var writer := new Writer(buffer);
    var names := HeaderNames();
    for i := 0 to |names|
      invariant writer.Valid() && writer.buffer == buffer && fresh(writer)
      invariant writer.text == Join(names[..i])
    {
      if i > 0 {
        writer.WriteChar(SEPARATOR);
      }
      writer.WriteString(names[i]);
      NamesSnoc(names, i);
    }
    assert names[..|names|] == names;
    if writer.overflow {
      if buffer.Length > 0 {
        buffer[0] := NUL;
      }
      return E_NO_SPACE, 0;
    }
    written := writer.length;
    status := E_OK;
  }

  lemma NamesSnoc(names: seq<string>, i: nat)
    requires i < |names|
    ensures Join(names[..i + 1]) == Join(names[..i]) + (if i > 0 then [SEPARATOR] else "") + names[i]
  {
    assert names[..i + 1] == names[..i] + [names[i]];
    if i > 0 {
      JoinSnoc(names[..i], names[i]);
    }
  }
}
