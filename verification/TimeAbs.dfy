/**
 * Calendar arithmetic of src/ecuabs/TimeAbs and the GNSS date conversion of src/ecuabs/GnssIf.
 */
module TimeAbs {
  import opened Base

  const SECONDS_PER_DAY := 86400
  const MIN_PLAUSIBLE_UNIX := 1704067200
  const MAX_PLAUSIBLE_UNIX := 4102444799

  const MONTH_DAYS: seq<nat> := [31, 28, 31, 30, 31, 30, 31, 31, 30, 31, 30, 31]

  predicate IsLeapYear(year: nat) {
    year % 4 == 0 && (year % 100 != 0 || year % 400 == 0)
  }

  function DaysInMonth(year: nat, month: nat): (d: nat)
    ensures 1 <= month <= 12 ==> 28 <= d <= 31
  {
    if month < 1 || month > 12 then 0
    else if month == 2 && IsLeapYear(year) then 29
    else MONTH_DAYS[month - 1]
  }

  function YearDays(year: nat): nat {
    if IsLeapYear(year) then 366 else 365
  }

  predicate IsPlausible(unixTime: uint32) {
    MIN_PLAUSIBLE_UNIX <= unixTime <= MAX_PLAUSIBLE_UNIX
  }

  datatype DateTime = DateTime(year: nat, month: nat, day: nat, hour: nat, minute: nat, second: nat)

  predicate ValidDate(year: nat, month: nat, day: nat) {
    year >= 1970 && 1 <= month <= 12 && 1 <= day <= DaysInMonth(year, month)
  }

  predicate ValidDateTime(t: DateTime) {
    ValidDate(t.year, t.month, t.day) && t.hour <= 23 && t.minute <= 59 && t.second <= 59
  }

  // ---------------------------------------------------------------------------------------------
  // Dates to days
  // ---------------------------------------------------------------------------------------------

  /** Days from 1 January 1970 to 1 January of the year. */
  function DaysBeforeYear(year: nat): nat
    requires year >= 1970
  {
    if year == 1970 then 0 else DaysBeforeYear(year - 1) + YearDays(year - 1)
  }

  /** Days from 1 January to the first of the month. */
  function DaysBeforeMonth(year: nat, month: nat): nat
    requires 1 <= month <= 13
  {
    if month == 1 then 0 else DaysBeforeMonth(year, month - 1) + DaysInMonth(year, month - 1)
  }

  function DayNumber(year: nat, month: nat, day: nat): nat
    requires ValidDate(year, month, day)
  {
    DaysBeforeYear(year) + DaysBeforeMonth(year, month) + day - 1
  }

  function SecondsOf(t: DateTime): nat
    requires ValidDateTime(t)
  {
    DayNumber(t.year, t.month, t.day) * SECONDS_PER_DAY + t.hour * 3600 + t.minute * 60 + t.second
  }

  /** "Seconds Since the Epoch" as section 4.16 of POSIX.1-2017 Base Definitions defines it. */
  function PosixSeconds(tmYear: int, tmYday: nat, hour: nat, minute: nat, second: nat): int {
    second + minute * 60 + hour * 3600 + tmYday * 86400 + (tmYear - 70) * 31536000
    + ((tmYear - 69) / 4) * 86400 - ((tmYear - 1) / 100) * 86400 + ((tmYear + 299) / 400) * 86400
  }

  /** The leap days before a year, counted from 1970. */
  function LeapDays(year: nat): int {
    (year - 1969) / 4 - (year - 1901) / 100 + (year - 1601) / 400
  }

  lemma {:induction false} DaysBeforeYearClosed(year: nat)
    requires year >= 1970
    ensures DaysBeforeYear(year) == (year - 1970) * 365 + LeapDays(year)
  {
    if year == 1970 {
      assert LeapDays(1970) == 0;
    } else {
      hide YearDays, LeapDays;
      DaysBeforeYearClosed(year - 1);
      LeapDaysStep(year - 1);
    }
  }

  lemma YearDaysClosed(y: nat)
    ensures YearDays(y) == 365 + (if y % 4 == 0 then 1 else 0) - (if y % 100 == 0 then 1 else 0)
                               + (if y % 400 == 0 then 1 else 0)
  {
    HundredIsFours(y);
    FourHundredIsHundreds(y);
  }

  lemma HundredIsFours(y: nat)
    ensures y % 100 == 0 ==> y % 4 == 0
  {
    if y % 100 == 0 { Fours(25 * (y / 100)); }
  }

  lemma Fours(m: nat)
    ensures 4 * m % 4 == 0
  {}

  lemma FourHundredIsHundreds(y: nat)
    ensures y % 400 == 0 ==> y % 100 == 0
  {
    if y % 400 == 0 { Hundreds(4 * (y / 400)); }
  }

  lemma Hundreds(m: nat)
    ensures 100 * m % 100 == 0
  {}

  lemma LeapStep(y: nat)
    requires y >= 1970
    ensures (y - 1968) / 4 - (y - 1969) / 4 == (if y % 4 == 0 then 1 else 0)
    ensures (y - 1900) / 100 - (y - 1901) / 100 == (if y % 100 == 0 then 1 else 0)
    ensures (y - 1600) / 400 - (y - 1601) / 400 == (if y % 400 == 0 then 1 else 0)
  {
    var q, c, g := y / 4, y / 100, y / 400;
    assert (y - 1968) / 4 == q - 492 && (y - 1900) / 100 == c - 19 && (y - 1600) / 400 == g - 4;
  }

  lemma LeapDaysStep(y: nat)
    requires y >= 1970
    ensures YearDays(y) == 365 + LeapDays(y + 1) - LeapDays(y)
  {
    hide YearDays;
    YearDaysClosed(y);
    LeapStep(y);
  }

  /** The loops over years and months compute the POSIX formula. */
  lemma SecondsArePosix(t: DateTime)
    requires ValidDateTime(t)
    ensures SecondsOf(t) ==
            PosixSeconds(t.year - 1900, DaysBeforeMonth(t.year, t.month) + t.day - 1, t.hour, t.minute, t.second)
  {
    DaysBeforeYearClosed(t.year);
  }

  const DAYS_BEFORE_MONTH: seq<nat> := [0, 31, 59, 90, 120, 151, 181, 212, 243, 273, 304, 334]

  /** The month loop agrees with the prefix table of the GNSS conversion. */
  lemma {:induction false} PrefixTable(year: nat, month: nat)
    requires 1 <= month <= 12
    ensures DaysBeforeMonth(year, month)
         == DAYS_BEFORE_MONTH[month - 1] + (if month > 2 && IsLeapYear(year) then 1 else 0)
  {
    if month > 1 { PrefixTable(year, month - 1); }
  }

  lemma MonthsFillYear(year: nat, month: nat)
    requires 1 <= month <= 13
    ensures DaysBeforeMonth(year, month) + (if month == 13 then 0 else DaysInMonth(year, month)) <= YearDays(year)
    ensures DaysBeforeMonth(year, 13) == YearDays(year)
  {
    PrefixTable(year, 12);
    MonthsGrow(year, month, 13);
  }

  lemma {:induction false} MonthsGrow(year: nat, a: nat, b: nat)
    requires 1 <= a <= b <= 13
    ensures a < b ==> DaysBeforeMonth(year, a) + DaysInMonth(year, a) <= DaysBeforeMonth(year, b)
  {
    if a + 1 < b {
      MonthsGrow(year, a, b - 1);
    }
  }

  lemma {:induction false} YearsGrow(a: nat, b: nat)
    requires 1970 <= a <= b
    ensures a < b ==> DaysBeforeYear(a) + YearDays(a) <= DaysBeforeYear(b)
    ensures DaysBeforeYear(a) <= DaysBeforeYear(b)
  {
    if a < b {
      YearsGrow(a, b - 1);
    }
  }

  // ---------------------------------------------------------------------------------------------
  // Days to dates
  // ---------------------------------------------------------------------------------------------

  /** The year loop of TimeAbs_ToDateTime: the year and the days left in it. */
  function YearFrom(days: nat, year: nat): (nat, nat)
    decreases days
  {
    if days < YearDays(year) then (year, days) else YearFrom(days - YearDays(year), year + 1)
  }

  function MonthFrom(days: nat, year: nat, month: nat): (nat, nat)
    requires month <= 13
    decreases 13 - month
  {
    if month > 12 || days < DaysInMonth(year, month) then (month, days)
    else MonthFrom(days - DaysInMonth(year, month), year, month + 1)
  }

  function Weekday(unixTime: nat): nat {
    (unixTime / SECONDS_PER_DAY + 4) % 7
  }

  function ToCivil(unixTime: nat): DateTime {
    var (year, yday) := YearFrom(unixTime / SECONDS_PER_DAY, 1970);
    var (month, mday) := MonthFrom(yday, year, 1);
    var s := unixTime % SECONDS_PER_DAY;
    DateTime(year, month, mday + 1, s / 3600, s % 3600 / 60, s % 60)
  }

  lemma {:induction false} YearFromSound(days: nat, year: nat)
    requires year >= 1970
    ensures var (y, rest) := YearFrom(days, year);
            y >= year && rest < YearDays(y) && DaysBeforeYear(year) + days == DaysBeforeYear(y) + rest
    decreases days
  {
    if days >= YearDays(year) {
      YearFromSound(days - YearDays(year), year + 1);
    }
  }

  lemma {:induction false} MonthFromSound(days: nat, year: nat, month: nat)
    requires 1 <= month <= 13 && DaysBeforeMonth(year, month) + days < YearDays(year)
    ensures var (m, rest) := MonthFrom(days, year, month);
            month <= m <= 12 && rest < DaysInMonth(year, m) &&
            DaysBeforeMonth(year, month) + days == DaysBeforeMonth(year, m) + rest
    decreases 13 - month
  {
    MonthsFillYear(year, month);
    if month <= 12 && days >= DaysInMonth(year, month) {
      MonthFromSound(days - DaysInMonth(year, month), year, month + 1);
    }
  }

  lemma DaySound(days: nat)
    ensures var (year, yday) := YearFrom(days, 1970);
            var (month, mday) := MonthFrom(yday, year, 1);
            ValidDate(year, month, mday + 1) && DayNumber(year, month, mday + 1) == days
  {
    hide DaysInMonth, YearDays, IsLeapYear;
    YearFromSound(days, 1970);
    var (year, yday) := YearFrom(days, 1970);
    MonthFromSound(yday, year, 1);
  }

  /** Every second count has a valid calendar form that converts back to it. */
  lemma ToCivilSound(unixTime: nat)
    ensures ValidDateTime(ToCivil(unixTime)) && SecondsOf(ToCivil(unixTime)) == unixTime
  {
    hide ValidDate, DayNumber, YearFrom, MonthFrom;
    DaySound(unixTime / SECONDS_PER_DAY);
    ClockSplits(unixTime % SECONDS_PER_DAY);
  }

  lemma ClockSplits(s: nat)
    requires s < SECONDS_PER_DAY
    ensures s / 3600 <= 23 && s % 3600 / 60 <= 59 && s == s / 3600 * 3600 + s % 3600 / 60 * 60 + s % 60
  {
    var h, rest := s / 3600, s % 3600;
    assert s == 3600 * h + rest && rest == 60 * (rest / 60) + rest % 60;
    assert s % 60 == rest % 60;
  }

  /** Chronological order of calendar forms. */
  predicate Before(a: DateTime, b: DateTime) {
    a.year < b.year || (a.year == b.year && (a.month < b.month || (a.month == b.month &&
    (a.day < b.day || (a.day == b.day && (a.hour < b.hour || (a.hour == b.hour &&
    (a.minute < b.minute || (a.minute == b.minute && a.second < b.second)))))))))
  }

  lemma DayOrder(a: DateTime, b: DateTime)
    requires ValidDateTime(a) && ValidDateTime(b)
    requires a.year < b.year || (a.year == b.year && (a.month < b.month || (a.month == b.month && a.day < b.day)))
    ensures DayNumber(a.year, a.month, a.day) < DayNumber(b.year, b.month, b.day)
  {
    MonthsFillYear(a.year, a.month);
    if a.year < b.year {
      YearsGrow(a.year, b.year);
    } else if a.month < b.month {
      MonthsGrow(a.year, a.month, b.month);
    }
  }

  lemma BeforeIsLess(a: DateTime, b: DateTime)
    requires ValidDateTime(a) && ValidDateTime(b) && Before(a, b)
    ensures SecondsOf(a) < SecondsOf(b)
  {
    if a.year < b.year || (a.year == b.year && (a.month < b.month || (a.month == b.month && a.day < b.day))) {
      DayOrder(a, b);
    }
  }

  /** Conversion preserves chronological order, both ways. */
  lemma OrderPreserved(a: DateTime, b: DateTime)
    requires ValidDateTime(a) && ValidDateTime(b)
    ensures Before(a, b) <==> SecondsOf(a) < SecondsOf(b)
  {
    if Before(a, b) {
      BeforeIsLess(a, b);
    } else if a != b {
      BeforeIsLess(b, a);
    }
  }

  /** Every valid calendar form is the one its second count converts to. */
  lemma ToCivilComplete(t: DateTime)
    requires ValidDateTime(t)
    ensures ToCivil(SecondsOf(t)) == t
  {
    var c := ToCivil(SecondsOf(t));
    ToCivilSound(SecondsOf(t));
    OrderPreserved(c, t);
    OrderPreserved(t, c);
  }

  // ---------------------------------------------------------------------------------------------
  // The conversion routines
  // ---------------------------------------------------------------------------------------------

  method ToDateTime(unixTime: uint32) returns (t: DateTime, weekday: nat)
    ensures t == ToCivil(unixTime) && weekday == Weekday(unixTime)
    ensures ValidDateTime(t) && SecondsOf(t) == unixTime
  {
    ToCivilSound(unixTime);
    var days: nat, secondsOfDay: nat := unixTime / SECONDS_PER_DAY, unixTime % SECONDS_PER_DAY;
    weekday := (days + 4) % 7;
    var year: nat, month: nat := 1970, 1;
    while days >= YearDays(year)
      invariant YearFrom(days, year) == YearFrom(unixTime / SECONDS_PER_DAY, 1970)
      decreases days
    {
      days := days - YearDays(year);
      year := year + 1;
    }
    ghost var yday := days;
    while month <= 12 && days >= DaysInMonth(year, month)
      invariant 1 <= month <= 13 && MonthFrom(days, year, month) == MonthFrom(yday, year, 1)
      decreases 13 - month
    {
      days := days - DaysInMonth(year, month);
      month := month + 1;
    }
    t := DateTime(year, month, days + 1, secondsOfDay / 3600, secondsOfDay % 3600 / 60, secondsOfDay % 60);
  }

  /** Rejects what is not a calendar form; the result wraps at 2^32 as the C arithmetic does. */
  method FromDateTime(t: DateTime) returns (status: Status, unixTime: uint32)
    ensures status == (if ValidDateTime(t) then E_OK else E_NOT_OK)
    ensures status == E_OK ==> unixTime == SecondsOf(t) % U32
  {
    unixTime := 0;
    if t.year < 1970 || t.month < 1 || t.month > 12 || t.day < 1 || t.day > DaysInMonth(t.year, t.month)
       || t.hour > 23 || t.minute > 59 || t.second > 59 {
      return E_NOT_OK, unixTime;
    }
    var days: nat := 0;
    for y := 1970 to t.year
      invariant days == DaysBeforeYear(y)
    {
      days := days + YearDays(y);
    }
    for m := 1 to t.month
      invariant days == DaysBeforeYear(t.year) + DaysBeforeMonth(t.year, m)
    {
      days := days + DaysInMonth(t.year, m);
    }
    days := days + (t.day - 1);
    unixTime := (days * SECONDS_PER_DAY + t.hour * 3600 + t.minute * 60 + t.second) % U32;
    status := E_OK;
  }

  // ---------------------------------------------------------------------------------------------
  // The plausible window
  // ---------------------------------------------------------------------------------------------

  lemma YearFromDays(unixTime: nat, year: nat)
    requires year >= 1970
    ensures ToCivil(unixTime).year >= year <==> unixTime >= DaysBeforeYear(year) * SECONDS_PER_DAY
  {
    hide ToCivil;
    hide DaysBeforeMonth;
    hide YearDays;
    var t := ToCivil(unixTime);
    ToCivilSound(unixTime);
    var days := DayNumber(t.year, t.month, t.day);
    MonthsFillYear(t.year, t.month);
    assert DaysBeforeYear(t.year) <= days < DaysBeforeYear(t.year) + YearDays(t.year);
    if t.year < year { YearsGrow(t.year, year); } else { YearsGrow(year, t.year); }
  }

  lemma YearStarts()
    ensures DaysBeforeYear(2024) * SECONDS_PER_DAY == MIN_PLAUSIBLE_UNIX
    ensures DaysBeforeYear(2100) * SECONDS_PER_DAY == MAX_PLAUSIBLE_UNIX + 1
    ensures DaysBeforeYear(2107) * SECONDS_PER_DAY > U32
  {
    hide DaysBeforeYear;
    DaysBeforeYearClosed(2024);
    DaysBeforeYearClosed(2100);
    DaysBeforeYearClosed(2107);
  }

  /** The plausible window is the years 2024 to 2099, and no 32-bit time lies beyond 2106. */
  lemma YearBounds(unixTime: uint32)
    ensures ToCivil(unixTime).year <= 2106
    ensures IsPlausible(unixTime) <==> 2024 <= ToCivil(unixTime).year <= 2099
  {
    YearStarts();
    YearFromDays(unixTime, 2024);
    YearFromDays(unixTime, 2100);
    YearFromDays(unixTime, 2107);
  }

  // ---------------------------------------------------------------------------------------------
  // The GNSS conversion
  // ---------------------------------------------------------------------------------------------

  /** Prefix-table conversion of NMEA ddmmyy and hhmmss; zero for a field out of range. */
  method GnssToUnixTime(ddmmyy: uint32, hhmmss: uint32) returns (unixTime: uint32)
    ensures unixTime == GnssSeconds(ddmmyy, hhmmss) % U32
  {
    var day, month, year: nat := ddmmyy / 10000, ddmmyy / 100 % 100, 2000 + ddmmyy % 100;
    var hour, minute, second := hhmmss / 10000, hhmmss / 100 % 100, hhmmss % 100;
    if month < 1 || month > 12 || day < 1 || day > 31 || hour > 23 || minute > 59 || second > 60 {
      return 0;
    }
    var days: nat := 0;
    for y := 1970 to year
      invariant days == DaysBeforeYear(y)
    {
      days := days + (if IsLeapYear(y) then 366 else 365);
    }
    days := days + DAYS_BEFORE_MONTH[month - 1];
    if month > 2 {
      if IsLeapYear(year) {
        days := days + 1;
      }
    }
    days := days + (day - 1);
    unixTime := ((days * 24 + hour) * 3600 + minute * 60 + second) % U32;
  }

  function GnssSeconds(ddmmyy: uint32, hhmmss: uint32): nat {
    var day, month, year: nat := ddmmyy / 10000, ddmmyy / 100 % 100, 2000 + ddmmyy % 100;
    var hour, minute, second: nat := hhmmss / 10000, hhmmss / 100 % 100, hhmmss % 100;
    if month < 1 || month > 12 || day < 1 || day > 31 || hour > 23 || minute > 59 || second > 60 then 0
    else
      var days := DaysBeforeYear(year) + DAYS_BEFORE_MONTH[month - 1]
                  + (if month > 2 && IsLeapYear(year) then 1 else 0) + day - 1;
      (days * 24 + hour) * 3600 + minute * 60 + second
  }

  lemma DecimalFields(a: nat, b: nat, c: nat)
    requires b < 100 && c < 100
    ensures var n := a * 10000 + b * 100 + c; n / 10000 == a && n / 100 % 100 == b && n % 100 == c
  {
    var n := a * 10000 + b * 100 + c;
    assert n / 100 == a * 100 + b;
  }

  /** The two date conversions of the firmware agree on every real calendar date of 2000 to 2099. */
  lemma ConversionsAgree(t: DateTime)
    requires ValidDateTime(t) && 2000 <= t.year <= 2099
    ensures GnssSeconds(t.day * 10000 + t.month * 100 + (t.year - 2000), t.hour * 10000 + t.minute * 100 + t.second)
         == SecondsOf(t) < U32
  {
    hide DaysInMonth;
    hide IsLeapYear;
    hide ToCivil;
    hide DaysBeforeYear;
    hide DaysBeforeMonth;
    assert t.day <= 31 by { DayFits(t.year, t.month); }
    DecimalFields(t.day, t.month, t.year - 2000);
    DecimalFields(t.hour, t.minute, t.second);
    PrefixTable(t.year, t.month);
    ToCivilComplete(t);
    YearStarts();
    YearFromDays(SecondsOf(t), 2100);
  }

  lemma DayFits(year: nat, month: nat)
    ensures DaysInMonth(year, month) <= 31
  {}
}
