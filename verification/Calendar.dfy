/** Reference laws of the calendar that the conversions of src/ecuabs/TimeAbs and src/ecuabs/GnssIf follow. */
module Calendar {
  import opened Base
  import opened TimeAbs

  // ---------------------------------------------------------------------------------------------
  // Weekdays
  // ---------------------------------------------------------------------------------------------

  /** Zeller's congruence, which counts January and February as months 13 and 14 of the year before; Sunday is 0. */
  function ZellerWeekday(year: nat, month: nat, day: nat): nat
    requires year >= 1 && 1 <= month <= 12
  {
    var (y, m) := if month <= 2 then (year - 1, month + 12) else (year, month);
    (day + 13 * (m + 1) / 5 + y + y / 4 - y / 100 + y / 400 + 6) % 7
  }

  /** The weekday of any second is the one Zeller's congruence gives for its date. */
  lemma WeekdayIsZeller(unixTime: nat)
    ensures var t := ToCivil(unixTime);
            && ValidDateTime(t) && SecondsOf(t) == unixTime
            && Weekday(unixTime) == ZellerWeekday(t.year, t.month, t.day)
  {
    hide ToCivil, DaysBeforeYear, DaysBeforeMonth;
    var t := ToCivil(unixTime);
    ToCivilSound(unixTime);
    DayOfSecond(t);
    DayIsZeller(t.year, t.month, t.day);
  }

  lemma DayOfSecond(t: DateTime)
    requires ValidDateTime(t)
    ensures SecondsOf(t) / 86400 == DayNumber(t.year, t.month, t.day)
  {
    hide DayNumber;
  }

  /** The leap days up to and including a year. */
  function LeapsUpTo(year: nat): int {
    year / 4 - year / 100 + year / 400
  }

  lemma LeapDaysAre(year: nat)
    requires year >= 1970
    ensures LeapDays(year) == LeapsUpTo(year - 1) - 477
  {
    var z := year - 1;
    assert (z - 1968) / 4 == z / 4 - 492 && (z - 1900) / 100 == z / 100 - 19 && (z - 1600) / 400 == z / 400 - 4;
  }

  lemma LeapsGrow(year: nat)
    requires year >= 1970
    ensures LeapsUpTo(year) == LeapsUpTo(year - 1) + (if IsLeapYear(year) then 1 else 0)
  {
    hide LeapDays, LeapsUpTo;
    LeapDaysAre(year);
    LeapDaysAre(year + 1);
    LeapDaysStep(year);
  }

  /** Zeller's month term follows the lengths of the months: both leave the same remainder by 7. */
  lemma MonthCongruence(month: nat, m: nat)
    requires 1 <= month <= 12 && m == if month <= 2 then month + 12 else month
    ensures var d := DAYS_BEFORE_MONTH[month - 1] - 13 * (m + 1) / 5 + (if month <= 2 then 1 else 0);
            d == 7 * (d / 7)
  {
    var d := DAYS_BEFORE_MONTH[month - 1] - 13 * (m + 1) / 5 + (if month <= 2 then 1 else 0);
    if month <= 6 {
      assert d == [-35, -7, 49, 77, 105, 133][month - 1];
    } else {
      assert d == [161, 189, 217, 245, 273, 301][month - 7];
    }
  }

  lemma SevensDrop(a: int, k: int)
    ensures (a + 7 * k) % 7 == a % 7
  {}

  lemma DayIsZeller(year: nat, month: nat, day: nat)
    requires ValidDate(year, month, day)
    ensures (DayNumber(year, month, day) + 4) % 7 == ZellerWeekday(year, month, day)
  {
    hide DaysBeforeYear, DaysBeforeMonth, IsLeapYear, LeapDays, DaysInMonth;
    var y := if month <= 2 then year - 1 else year;
    var m := if month <= 2 then month + 12 else month;
    PrefixTable(year, month);
    DaysBeforeYearClosed(year);
    LeapDaysAre(year);
    LeapsGrow(year);
    MonthCongruence(month, m);
    var d := DAYS_BEFORE_MONTH[month - 1] - 13 * (m + 1) / 5 + (if month <= 2 then 1 else 0);
    var zeller := day + 13 * (m + 1) / 5 + y + LeapsUpTo(y) + 6;
    var k := 52 * (year - 1970) - 350 + d / 7;
    assert DayNumber(year, month, day) + 4 == zeller + 7 * k;
    SevensDrop(zeller, k);
  }

  // ---------------------------------------------------------------------------------------------
  // GNSS dates
  // ---------------------------------------------------------------------------------------------

  /** The fields a conversion of ddmmyy and hhmmss accepts: any month's day up to 31, and a leap second. */
  predicate Accepted(month: nat, day: nat, hour: nat, minute: nat, second: nat) {
    1 <= month <= 12 && 1 <= day <= 31 && hour <= 23 && minute <= 59 && second <= 60
  }

  /**
   * The GNSS conversion is zero exactly when a field is out of range, and otherwise counts the days and the time of
   * day on from the first of the month, a day past the month's end and a leap second included.
   */
  lemma GnssCountsFromMonthStart(yy: nat, month: nat, day: nat, hour: nat, minute: nat, second: nat)
    requires yy <= 99 && month <= 99 && day <= 99 && hour <= 99 && minute <= 99 && second <= 99
    ensures var g := GnssSeconds(day * 10000 + month * 100 + yy, hour * 10000 + minute * 100 + second);
            && (g == 0 <==> !Accepted(month, day, hour, minute, second))
            && (g != 0 ==> g == SecondsOf(DateTime(2000 + yy, month, 1, 0, 0, 0)) + (day - 1) * 86400
                                + hour * 3600 + minute * 60 + second)
  {
    hide IsLeapYear, DaysBeforeYear, DaysBeforeMonth;
    DecimalFields(day, month, yy);
    DecimalFields(hour, minute, second);
    YearsGrow(1970, 1971);
    YearsGrow(1971, 2000 + yy);
    if Accepted(month, day, hour, minute, second) {
      PrefixTable(2000 + yy, month);
    }
  }
}
