/**
 * What a consumer of the CSV log reads: the column under each name of the header carries that quantity of the
 * record. Nothing here depends on how the fields of src/services/Com are listed.
 */
module ComColumns {
  import opened Base
  import opened ComText
  import opened ComCsv
  import Rs485If

  /** The column under a name, of which there is one, decodes to the value when it is valid, and is blank when not. */
  ghost predicate ReadsAs(r: Record, name: string, value: int, valid: bool)
    requires FourPacks(r)
  {
    var names, texts := Split(Header()), Split(RecordText(r));
    && |names| == |texts| && name in names
    && forall k :: 0 <= k < |names| && names[k] == name ==>
         Decode(texts[k]) == (if valid then Some(value) else None) && (texts[k] == "" <==> !valid)
  }

  // ---------------------------------------------------------------------------------------------
  // The names are distinct
  // ---------------------------------------------------------------------------------------------

  lemma VehicleNamesDiffer(i: nat, j: nat)
    requires i < j < VEHICLE_FIELDS
    ensures VEHICLE_NAMES[i] != VEHICLE_NAMES[j]
  {}

  lemma VehicleNamesAreNoPacks(i: nat)
    requires i < VEHICLE_FIELDS
    ensures VEHICLE_NAMES[i] != "" && VEHICLE_NAMES[i][0] != 'P'
  {}

  lemma PackNamesDiffer(i: nat, j: nat)
    requires i < j < 14
    ensures PACK_NAMES[i] != PACK_NAMES[j]
  {}

  lemma TailNamesDiffer(i: nat, j: nat)
    requires i < j < 7
    ensures CELL_TAIL_NAMES[i] != CELL_TAIL_NAMES[j]
  {}

  lemma PackNamesAreNoCells(i: nat)
    requires i < 14
    ensures PACK_NAMES[i] != "" && (|PACK_NAMES[i]| > 1 ==> !(PACK_NAMES[i][0] == 'C' && PACK_NAMES[i][1] in "V_"))
  {}

  lemma TailNamesAreTails(i: nat)
    requires i < 7
    ensures |CELL_TAIL_NAMES[i]| > 1 && CELL_TAIL_NAMES[i][0] == 'C' && CELL_TAIL_NAMES[i][1] == '_'
  {}

  lemma CellNamesDiffer(i: nat, j: nat)
    requires i < j
    ensures "_CV" + Decimal(i) != "_CV" + Decimal(j)
  {
    hide Decimal;
    DecimalValue(i);
    DecimalValue(j);
    assert ("_CV" + Decimal(i))[3..] == Decimal(i) && ("_CV" + Decimal(j))[3..] == Decimal(j);
  }

  /** The part of a suffix after its underscore. */
  lemma SuffixTail(i: nat)
    requires i < PACK_FIELDS
    ensures Suffix(i) == "_" + Suffix(i)[1..]
    ensures i < 14 ==> Suffix(i)[1..] == PACK_NAMES[i]
    ensures 14 <= i < 37 ==> Suffix(i) == "_CV" + Decimal(i - 13) && Suffix(i)[1] == 'C' && Suffix(i)[2] == 'V'
    ensures i >= 37 ==> Suffix(i)[1..] == CELL_TAIL_NAMES[i - 37]
  {
    hide Decimal;
  }

  lemma SuffixesDiffer(i: nat, j: nat)
    requires i < j < PACK_FIELDS
    ensures Suffix(i) != Suffix(j)
  {
    hide Decimal, Suffix;
    SuffixTail(i);
    SuffixTail(j);
    if j < 14 {
      PackNamesDiffer(i, j);
    } else if i < 14 {
      PackNamesAreNoCells(i);
      if j >= 37 { TailNamesAreTails(j - 37); }
    } else if j < 37 {
      CellNamesDiffer(i - 13, j - 13);
    } else if i < 37 {
      TailNamesAreTails(j - 37);
    } else {
      TailNamesDiffer(i - 37, j - 37);
    }
  }

  /** A pack's number is one digit, so its prefix has two characters. */
  lemma PackPrefix(index: nat)
    requires 1 <= index <= PACK_COUNT
    ensures Decimal(index) == [DigitChar(index)] && |"P" + Decimal(index)| == 2
  {
    assert Digits(index) == Digits(0) + [DigitChar(index)];
  }

  lemma PackColumnsDiffer(a: nat, i: nat, b: nat, j: nat)
    requires 1 <= a <= PACK_COUNT && 1 <= b <= PACK_COUNT && i < PACK_FIELDS && j < PACK_FIELDS && (a, i) != (b, j)
    ensures PackHeader(a)[i] != PackHeader(b)[j]
  {
    hide Suffix, Decimal;
    PackPrefix(a);
    PackPrefix(b);
    var x, y := PackHeader(a)[i], PackHeader(b)[j];
    assert x[2..] == Suffix(i) && y[2..] == Suffix(j);
    assert x[1] == DigitChar(a) && y[1] == DigitChar(b);
    if i < j { SuffixesDiffer(i, j); }
    if j < i { SuffixesDiffer(j, i); }
  }

  /** Column k of the header, by the pack it belongs to. */
  lemma HeaderAt(k: nat)
    requires k < FIELD_COUNT
    ensures k < VEHICLE_FIELDS ==> HeaderNames()[k] == VEHICLE_NAMES[k]
    ensures k >= VEHICLE_FIELDS ==>
              HeaderNames()[k] == PackHeader(1 + (k - VEHICLE_FIELDS) / PACK_FIELDS)[(k - VEHICLE_FIELDS) % PACK_FIELDS]
  {
    hide PackHeader;
  }

  lemma NamesDiffer(k: nat, l: nat)
    requires k < FIELD_COUNT && l < FIELD_COUNT && k != l
    ensures HeaderNames()[k] != HeaderNames()[l]
  {
    hide HeaderNames, PackHeader;
    HeaderAt(k);
    HeaderAt(l);
    if k < VEHICLE_FIELDS && l < VEHICLE_FIELDS {
      if k < l { VehicleNamesDiffer(k, l); } else { VehicleNamesDiffer(l, k); }
    } else if k < VEHICLE_FIELDS {
      VehicleNamesAreNoPacks(k);
      PackColumnStartsWithP(1 + (l - VEHICLE_FIELDS) / PACK_FIELDS, (l - VEHICLE_FIELDS) % PACK_FIELDS);
    } else if l < VEHICLE_FIELDS {
      VehicleNamesAreNoPacks(l);
      PackColumnStartsWithP(1 + (k - VEHICLE_FIELDS) / PACK_FIELDS, (k - VEHICLE_FIELDS) % PACK_FIELDS);
    } else {
      PackColumnsDiffer(1 + (k - VEHICLE_FIELDS) / PACK_FIELDS, (k - VEHICLE_FIELDS) % PACK_FIELDS,
                        1 + (l - VEHICLE_FIELDS) / PACK_FIELDS, (l - VEHICLE_FIELDS) % PACK_FIELDS);
    }
  }

  lemma PackColumnStartsWithP(a: nat, i: nat)
    requires i < PACK_FIELDS
    ensures PackHeader(a)[i] != "" && PackHeader(a)[i][0] == 'P'
  {
    hide Suffix, Decimal;
  }

  // ---------------------------------------------------------------------------------------------
  // What each column carries
  // ---------------------------------------------------------------------------------------------

  lemma Named(r: Record, k: nat, name: string, value: int, valid: bool)
    requires Printable(r) && k < FIELD_COUNT && HeaderNames()[k] == name
    requires var f := Fields(r)[k]; f.Num? && f.value == value && f.valid == valid
    ensures ReadsAs(r, name, value, valid)
  {
    hide HeaderNames, Header, Fields, RecordText, Split, Decode;
    HeaderMatchesRecords();
    ColumnRoundTrip(r, k);
    var names := Split(Header());
    forall l | 0 <= l < |names| && names[l] == name
      ensures l == k
    {
      if l != k { NamesDiffer(k, l); }
    }
    assert names[k] == name;
  }

  lemma NamedVehicle(r: Record, k: nat, name: string, value: int, valid: bool)
    requires Printable(r) && k < VEHICLE_FIELDS && VEHICLE_NAMES[k] == name
    requires var f := VehicleFields(r)[k]; f.Num? && f.value == value && f.valid == valid
    ensures ReadsAs(r, name, value, valid)
  {
    hide HeaderNames, VehicleFields, PackFields, ReadsAs;
    HeaderAt(k);
    FieldAt(r, k);
    Named(r, k, name, value, valid);
  }

  /** The counter and the clocks; a clock that is not trusted is blank. */
  lemma ClockColumns(r: Record)
    requires Printable(r)
    ensures ReadsAs(r, "SEQ", r.sequenceNumber, true)
    ensures ReadsAs(r, "UNIX_TIME", r.unixTime, r.unixTime > 0)
    ensures ReadsAs(r, "UPTIME_MS", r.uptimeMs, true)
  {
    hide ReadsAs;
    NamedVehicle(r, 0, "SEQ", r.sequenceNumber, true);
    NamedVehicle(r, 1, "UNIX_TIME", r.unixTime, r.unixTime > 0);
    NamedVehicle(r, 2, "UPTIME_MS", r.uptimeMs, true);
  }

  /** The odometer, which is never blank. */
  lemma DistanceColumns(r: Record)
    requires Printable(r)
    ensures ReadsAs(r, "ODO_MM", r.totalDistanceMm as int, true)
    ensures ReadsAs(r, "TRIP_MM", r.tripDistanceMm as int, true)
  {
    hide ReadsAs;
    NamedVehicle(r, 10, "ODO_MM", r.totalDistanceMm as int, true);
    NamedVehicle(r, 11, "TRIP_MM", r.tripDistanceMm as int, true);
  }

  /** The unit's own state. */
  lemma StatusColumns(r: Record)
    requires Printable(r)
    ensures ReadsAs(r, "DTC_COUNT", r.confirmedDtcCount, true)
    ensures ReadsAs(r, "HEAP_FREE", r.heapFreeBytes, true)
    ensures ReadsAs(r, "BEARER", r.bearerState, true)
  {
    hide ReadsAs;
    NamedVehicle(r, 20, "DTC_COUNT", r.confirmedDtcCount, true);
    NamedVehicle(r, 21, "HEAP_FREE", r.heapFreeBytes, true);
    NamedVehicle(r, 22, "BEARER", r.bearerState, true);
  }

  /** Supply and traction voltage and current. */
  lemma SupplyColumns(r: Record)
    requires Printable(r)
    ensures ReadsAs(r, "AUX_MV", r.auxVoltageMilliVolts, r.auxVoltageValid)
    ensures ReadsAs(r, "DC_DV", r.dcVoltageDeciVolt, r.driveDataValid)
    ensures ReadsAs(r, "DC_DA", r.dcCurrentDeciAmp, r.driveDataValid)
  {
    hide ReadsAs;
    NamedVehicle(r, 4, "AUX_MV", r.auxVoltageMilliVolts, r.auxVoltageValid);
    NamedVehicle(r, 6, "DC_DV", r.dcVoltageDeciVolt, r.driveDataValid);
    NamedVehicle(r, 7, "DC_DA", r.dcCurrentDeciAmp, r.driveDataValid);
  }

  /** Motor speed, road speed and the controller's fault. */
  lemma MotorColumns(r: Record)
    requires Printable(r)
    ensures ReadsAs(r, "RPM", r.motorRpm, r.driveDataValid)
    ensures ReadsAs(r, "SPEED_MMPS", r.speedMmPerSec, r.driveDataValid)
    ensures ReadsAs(r, "MCU_FAULT", r.mcuFaultCode, r.driveDataValid)
  {
    hide ReadsAs;
    NamedVehicle(r, 5, "RPM", r.motorRpm, r.driveDataValid);
    NamedVehicle(r, 8, "SPEED_MMPS", r.speedMmPerSec, r.driveDataValid);
    NamedVehicle(r, 9, "MCU_FAULT", r.mcuFaultCode, r.driveDataValid);
  }

  /** The position columns: blank without a valid fix. */
  lemma PositionColumns(r: Record)
    requires Printable(r) && r.position.Some?
    ensures ReadsAs(r, "LAT_E7", r.position.value.latitudeE7, r.position.value.valid)
    ensures ReadsAs(r, "LON_E7", r.position.value.longitudeE7, r.position.value.valid)
    ensures ReadsAs(r, "ALT_MM", r.position.value.altitudeMm, r.position.value.valid)
    ensures ReadsAs(r, "GNSS_SPEED_MMPS", r.position.value.speedMmPerSec, r.position.value.valid)
    ensures ReadsAs(r, "GNSS_HDG_DDEG", r.position.value.headingDeciDeg, r.position.value.valid)
    ensures ReadsAs(r, "GNSS_SATS", r.position.value.satellitesUsed, r.position.value.valid)
    ensures ReadsAs(r, "GNSS_FIX", r.position.value.fixQuality, r.position.value.valid)
    ensures ReadsAs(r, "GNSS_HDOP", r.position.value.hdopCentiUnits, r.position.value.valid)
  {
    hide ReadsAs;
    if r.position.value.valid {
      NamedVehicle(r, 12, "LAT_E7", r.position.value.latitudeE7, true);
      NamedVehicle(r, 13, "LON_E7", r.position.value.longitudeE7, true);
      NamedVehicle(r, 14, "ALT_MM", r.position.value.altitudeMm, true);
      NamedVehicle(r, 15, "GNSS_SPEED_MMPS", r.position.value.speedMmPerSec, true);
      NamedVehicle(r, 16, "GNSS_HDG_DDEG", r.position.value.headingDeciDeg, true);
      NamedVehicle(r, 17, "GNSS_SATS", r.position.value.satellitesUsed, true);
      NamedVehicle(r, 18, "GNSS_FIX", r.position.value.fixQuality, true);
      NamedVehicle(r, 19, "GNSS_HDOP", r.position.value.hdopCentiUnits, true);
    } else {
      NoPositionColumns(r);
      BlankAlike(r, "LAT_E7", 0, r.position.value.latitudeE7);
      BlankAlike(r, "LON_E7", 0, r.position.value.longitudeE7);
      BlankAlike(r, "ALT_MM", 0, r.position.value.altitudeMm);
      BlankAlike(r, "GNSS_SPEED_MMPS", 0, r.position.value.speedMmPerSec);
      BlankAlike(r, "GNSS_HDG_DDEG", 0, r.position.value.headingDeciDeg);
      BlankAlike(r, "GNSS_SATS", 0, r.position.value.satellitesUsed);
      BlankAlike(r, "GNSS_FIX", 0, r.position.value.fixQuality);
      BlankAlike(r, "GNSS_HDOP", 0, r.position.value.hdopCentiUnits);
    }
  }

  lemma NoPositionColumns(r: Record)
    requires Printable(r) && (r.position.Some? ==> !r.position.value.valid)
    ensures ReadsAs(r, "LAT_E7", 0, false)
    ensures ReadsAs(r, "LON_E7", 0, false)
    ensures ReadsAs(r, "ALT_MM", 0, false)
    ensures ReadsAs(r, "GNSS_SPEED_MMPS", 0, false)
    ensures ReadsAs(r, "GNSS_HDG_DDEG", 0, false)
    ensures ReadsAs(r, "GNSS_SATS", 0, false)
    ensures ReadsAs(r, "GNSS_FIX", 0, false)
    ensures ReadsAs(r, "GNSS_HDOP", 0, false)
  {
    hide ReadsAs;
    NamedVehicle(r, 12, "LAT_E7", 0, false);
    NamedVehicle(r, 13, "LON_E7", 0, false);
    NamedVehicle(r, 14, "ALT_MM", 0, false);
    NamedVehicle(r, 15, "GNSS_SPEED_MMPS", 0, false);
    NamedVehicle(r, 16, "GNSS_HDG_DDEG", 0, false);
    NamedVehicle(r, 17, "GNSS_SATS", 0, false);
    NamedVehicle(r, 18, "GNSS_FIX", 0, false);
    NamedVehicle(r, 19, "GNSS_HDOP", 0, false);
  }

  /** Of a blank column the value does not matter. */
  lemma BlankAlike(r: Record, name: string, a: int, b: int)
    requires FourPacks(r) && ReadsAs(r, name, a, false)
    ensures ReadsAs(r, name, b, false)
  {
    hide Header, RecordText, Split, Decode;
  }

  /** Column k of the printed record. */
  lemma TextAt(r: Record, k: nat)
    requires Printable(r) && k < FIELD_COUNT
    ensures |Split(RecordText(r))| == |Split(Header())| == FIELD_COUNT
    ensures Split(RecordText(r))[k] == FieldText(Fields(r)[k]) && Split(Header())[k] == HeaderNames()[k]
  {
    hide HeaderNames, Header, Fields, RecordText, FieldText;
    HeaderMatchesRecords();
    RecordRoundTrip(r);
  }

  lemma FieldAt(r: Record, k: nat)
    requires FourPacks(r) && k < FIELD_COUNT
    ensures k < VEHICLE_FIELDS ==> Fields(r)[k] == VehicleFields(r)[k]
    ensures k >= VEHICLE_FIELDS ==>
              var i, j := (k - VEHICLE_FIELDS) / PACK_FIELDS, (k - VEHICLE_FIELDS) % PACK_FIELDS;
              Fields(r)[k] == PackFields(PackAt(r, i))[j]
  {
    hide PackFields, VehicleFields, PackAt;
  }

  /** The device identifier is printed as it is. */
  lemma DeviceColumn(r: Record, k: nat)
    requires Printable(r) && k < |Split(Header())| && Split(Header())[k] == "DEVICE_ID"
    ensures k < |Split(RecordText(r))| && Split(RecordText(r))[k] == r.deviceId
  {
    hide HeaderNames, Header, Fields, RecordText, Split;
    TextAt(r, 3);
    HeaderAt(3);
    FieldAt(r, 3);
    TextAt(r, k);
    if k != 3 { NamesDiffer(k, 3); }
  }

  function PackName(pack: nat, quantity: string): string {
    "P" + Decimal(pack) + "_" + quantity
  }

  lemma NamedPack(r: Record, pack: nat, j: nat, quantity: string, value: int, valid: bool)
    requires Printable(r) && 1 <= pack <= PACK_COUNT && j < PACK_FIELDS && Suffix(j) == "_" + quantity
    requires var f := PackFields(PackAt(r, pack - 1))[j]; f.Num? && f.value == value && f.valid == valid
    ensures ReadsAs(r, PackName(pack, quantity), value, valid)
  {
    hide HeaderNames, VehicleFields, PackFields, Decimal, Suffix, ReadsAs, PackAt;
    var k := VEHICLE_FIELDS + (pack - 1) * PACK_FIELDS + j;
    HeaderAt(k);
    assert (k - VEHICLE_FIELDS) / PACK_FIELDS == pack - 1 && (k - VEHICLE_FIELDS) % PACK_FIELDS == j;
    assert PackHeader(pack)[j] == PackName(pack, quantity);
    FieldAt(r, k);
    Named(r, k, PackName(pack, quantity), value, valid);
  }

  /** The electrical and thermal columns of each battery. */
  lemma PackColumns(r: Record, pack: nat)
    requires Printable(r) && r.packs.Some? && 1 <= pack <= PACK_COUNT
    ensures var s := r.packs.value[pack - 1]; var p, v := s.pack, s.packDataValid;
            && ReadsAs(r, PackName(pack, "V"), p.voltage, v)
            && ReadsAs(r, PackName(pack, "V_HI"), p.voltageHighest, v)
            && ReadsAs(r, PackName(pack, "V_LO"), p.voltageLowest, v)
            && ReadsAs(r, PackName(pack, "I"), p.current, v)
            && ReadsAs(r, PackName(pack, "T"), p.temperature, v)
            && ReadsAs(r, PackName(pack, "T_HI"), p.temperatureHigh, v)
            && ReadsAs(r, PackName(pack, "T_LO"), p.temperatureLow, v)
  {
    hide ReadsAs, PackName;
    var s := r.packs.value[pack - 1];
    var p, v := s.pack, s.packDataValid;
    NamedPack(r, pack, 0, "V", p.voltage, v);
    NamedPack(r, pack, 1, "V_HI", p.voltageHighest, v);
    NamedPack(r, pack, 2, "V_LO", p.voltageLowest, v);
    NamedPack(r, pack, 3, "I", p.current, v);
    NamedPack(r, pack, 4, "T", p.temperature, v);
    NamedPack(r, pack, 5, "T_HI", p.temperatureHigh, v);
    NamedPack(r, pack, 6, "T_LO", p.temperatureLow, v);
  }

  /** The charge, energy and status columns of each battery. */
  lemma PackChargeColumns(r: Record, pack: nat)
    requires Printable(r) && r.packs.Some? && 1 <= pack <= PACK_COUNT
    ensures var s := r.packs.value[pack - 1]; var p, v := s.pack, s.packDataValid;
            && ReadsAs(r, PackName(pack, "SOC"), p.stateOfCharge, v)
            && ReadsAs(r, PackName(pack, "SOH"), p.stateOfHealth, v)
            && ReadsAs(r, PackName(pack, "CHG_WH"), p.chargeEnergyWh, v)
            && ReadsAs(r, PackName(pack, "DIS_WH"), p.dischargeEnergyWh, v)
            && ReadsAs(r, PackName(pack, "CHG_S"), p.chargeTimeSec, v)
            && ReadsAs(r, PackName(pack, "DIS_S"), p.dischargeTimeSec, v)
            && ReadsAs(r, PackName(pack, "FLAGS"), p.statusFlags, v)
  {
    hide ReadsAs, PackName;
    var s := r.packs.value[pack - 1];
    var p, v := s.pack, s.packDataValid;
    NamedPack(r, pack, 7, "SOC", p.stateOfCharge, v);
    NamedPack(r, pack, 8, "SOH", p.stateOfHealth, v);
    NamedPack(r, pack, 9, "CHG_WH", p.chargeEnergyWh, v);
    NamedPack(r, pack, 10, "DIS_WH", p.dischargeEnergyWh, v);
    NamedPack(r, pack, 11, "CHG_S", p.chargeTimeSec, v);
    NamedPack(r, pack, 12, "DIS_S", p.dischargeTimeSec, v);
    NamedPack(r, pack, 13, "FLAGS", p.statusFlags, v);
  }

  /** The voltage of each cell of each battery. */
  lemma CellVoltageColumns(r: Record, pack: nat, cell: nat)
    requires Printable(r) && r.packs.Some? && 1 <= pack <= PACK_COUNT && 1 <= cell <= 23
    ensures var s := r.packs.value[pack - 1];
            ReadsAs(r, PackName(pack, "CV" + Decimal(cell)), s.cells.cellVoltage[cell - 1], s.cellDataValid)
  {
    hide ReadsAs, PackName, Decimal, PackLevelFields, CellTailFields;
    var s := r.packs.value[pack - 1];
    assert Suffix(13 + cell) == "_" + ("CV" + Decimal(cell));
    assert PackFields(s)[13 + cell] == CellVoltageFields(s)[cell - 1];
    NamedPack(r, pack, 13 + cell, "CV" + Decimal(cell), s.cells.cellVoltage[cell - 1], s.cellDataValid);
  }

  /** The other cell-level columns of each battery. */
  lemma CellColumns(r: Record, pack: nat)
    requires Printable(r) && r.packs.Some? && 1 <= pack <= PACK_COUNT
    ensures var s := r.packs.value[pack - 1]; var c, v := s.cells, s.cellDataValid;
            && ReadsAs(r, PackName(pack, "C_I"), c.current, v)
            && ReadsAs(r, PackName(pack, "C_T1"), c.temperature[0], v)
            && ReadsAs(r, PackName(pack, "C_T2"), c.temperature[1], v)
            && ReadsAs(r, PackName(pack, "C_T3"), c.temperature[2], v)
            && ReadsAs(r, PackName(pack, "C_T4"), c.temperature[3], v)
            && ReadsAs(r, PackName(pack, "C_F1"), c.statusFlags1, v)
            && ReadsAs(r, PackName(pack, "C_F2"), c.statusFlags2, v)
  {
    hide ReadsAs, PackName, Decimal, PackLevelFields, CellVoltageFields;
    var s := r.packs.value[pack - 1];
    var c, v := s.cells, s.cellDataValid;
    assert forall j :: 37 <= j < 44 ==> PackFields(s)[j] == CellTailFields(s)[j - 37];
    NamedPack(r, pack, 37, "C_I", c.current, v);
    NamedPack(r, pack, 38, "C_T1", c.temperature[0], v);
    NamedPack(r, pack, 39, "C_T2", c.temperature[1], v);
    NamedPack(r, pack, 40, "C_T3", c.temperature[2], v);
    NamedPack(r, pack, 41, "C_T4", c.temperature[3], v);
    NamedPack(r, pack, 42, "C_F1", c.statusFlags1, v);
    NamedPack(r, pack, 43, "C_F2", c.statusFlags2, v);
  }

  /** Without an array of packs every column of a pack is blank. */
  lemma NoPackColumns(r: Record, k: nat)
    requires Printable(r) && r.packs.None? && k < |Split(Header())| && "P" <= Split(Header())[k]
    ensures k < |Split(RecordText(r))| && Split(RecordText(r))[k] == ""
  {
    hide HeaderNames, Header, Fields, RecordText, Split, PackHeader, PackFields;
    TextAt(r, 0);
    TextAt(r, k);
    HeaderAt(k);
    FieldAt(r, k);
    if k < VEHICLE_FIELDS {
      VehicleNamesAreNoPacks(k);
    } else {
      BlankPackIsBlank((k - VEHICLE_FIELDS) % PACK_FIELDS);
    }
  }

  lemma BlankPackIsBlank(j: nat)
    requires j < PACK_FIELDS
    ensures FieldText(PackFields(Rs485If.BlankPack())[j]) == ""
  {
    PackFieldsAreNumbers(Rs485If.BlankPack(), j);
  }
}
