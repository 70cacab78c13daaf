/** Dates and log file names of src/services/Com. */
module ComDate {
  import opened Base
  import opened ComText
  import opened ComWriter
  import TimeAbs

  const DATE_LENGTH := 8

  /** The decimal value of the digits from index i up to j. */
  function Part(date: string, i: nat, j: nat): nat
    requires AllDigits(date) && i <= j <= |date|
  {
    Number(date[i..j])
  }

  /** A real calendar date of 2024 to 2099 written YYYYMMDD. */
  predicate ValidStamp(date: string) {
    |date| == DATE_LENGTH && AllDigits(date) &&
    2024 <= Part(date, 0, 4) <= 2099 &&
    1 <= Part(date, 6, 8) <= TimeAbs.DaysInMonth(Part(date, 0, 4), Part(date, 4, 6))
  }

  lemma NumberOfTwo(s: string)
    requires |s| == 2 && AllDigits(s)
    ensures Number(s) == 10 * DigitValue(s[0]) + DigitValue(s[1])
  {
    assert s[..1][..0] == "" && Number(s[..1]) == DigitValue(s[0]);
  }

  lemma NumberOfFour(s: string)
    requires |s| == 4 && AllDigits(s)
    ensures Number(s) == 1000 * DigitValue(s[0]) + 100 * DigitValue(s[1]) + 10 * DigitValue(s[2]) + DigitValue(s[3])
  {
    assert s[..3][..2] == s[..2];
    NumberOfTwo(s[..2]);
  }

  /** Com_IsValidDate: digits first, then the fields, then the day against its month. */
  method IsValidDate(date: string) returns (valid: bool)
    ensures valid == ValidStamp(date)
  {
    var i := 0;
    while i < DATE_LENGTH
      invariant 0 <= i <= DATE_LENGTH && i <= |date| && AllDigits(date[..i])
    {
      if i == |date| || !IsDigit(date[i]) {
        return false;
      }
      i := i + 1;
    }
    if |date| != DATE_LENGTH {
      return false;
    }
    assert AllDigits(date) by { assert date == date[..i]; }
    NumberOfFour(date[0..4]);
    NumberOfTwo(date[4..6]);
    NumberOfTwo(date[6..8]);
    var year := DigitValue(date[0]) * 1000 + DigitValue(date[1]) * 100 + DigitValue(date[2]) * 10 + DigitValue(date[3]);
    var month := DigitValue(date[4]) * 10 + DigitValue(date[5]);
    var day := DigitValue(date[6]) * 10 + DigitValue(date[7]);
    if year < 2024 || year > 2099 {
      return false;
    }
    if day < 1 || day > TimeAbs.DaysInMonth(year, month) {
      return false;
    }
    valid := true;
  }

  // ---------------------------------------------------------------------------------------------
  // Stamps and days
  // ---------------------------------------------------------------------------------------------

  /** "YYYYMMDD" of a calendar form, the year modulo 10000, as TimeAbs_FormatDateStamp writes it. */
  function Stamp(t: TimeAbs.DateTime): (s: string)
    requires t.month <= 12 && t.day <= 31
    ensures |s| == DATE_LENGTH && AllDigits(s)
  {
    [DigitChar(t.year / 1000 % 10), DigitChar(t.year / 100 % 10), DigitChar(t.year / 10 % 10),
     DigitChar(t.year % 10), DigitChar(t.month / 10), DigitChar(t.month % 10),
     DigitChar(t.day / 10), DigitChar(t.day % 10)]
  }

  /** The number that orders dates: YYYYMMDD read as one decimal number. */
  function Key(date: string): nat
    requires AllDigits(date)
  {
    Number(date)
  }

  lemma StampParts(t: TimeAbs.DateTime)
    requires t.year <= 9999 && t.month <= 12 && t.day <= 31
    ensures var s := Stamp(t); Part(s, 0, 4) == t.year && Part(s, 4, 6) == t.month && Part(s, 6, 8) == t.day
  {
    var s := Stamp(t);
    FourDigits(t.year);
    YearDigits(t.year / 1000 % 10, t.year / 100 % 10, t.year / 10 % 10, t.year % 10, s[0..4]);
    TwoDigits(t.month, s[4..6]);
    TwoDigits(t.day, s[6..8]);
  }

  lemma FourDigits(n: nat)
    requires n <= 9999
    ensures n == 1000 * (n / 1000 % 10) + 100 * (n / 100 % 10) + 10 * (n / 10 % 10) + n % 10
  {
    assert n / 100 == n / 10 / 10 && n / 1000 == n / 10 / 10 / 10;
  }

  lemma YearDigits(a: nat, b: nat, c: nat, d: nat, s: string)
    requires a < 10 && b < 10 && c < 10 && d < 10
    requires s == [DigitChar(a), DigitChar(b), DigitChar(c), DigitChar(d)]
    ensures AllDigits(s) && Number(s) == 1000 * a + 100 * b + 10 * c + d
  {
    NumberOfFour(s);
  }

  lemma TwoDigits(n: nat, s: string)
    requires n < 100 && s == [DigitChar(n / 10), DigitChar(n % 10)]
    ensures AllDigits(s) && Number(s) == n
  {
    NumberOfTwo(s);
  }

  lemma KeyOfParts(s: string)
    requires |s| == DATE_LENGTH && AllDigits(s)
    ensures Key(s) == 10000 * Part(s, 0, 4) + 100 * Part(s, 4, 6) + Part(s, 6, 8)
  {
    AppendTwo(s[..4], s[4..6]);
    AppendTwo(s[..6], s[6..8]);
    assert s[..4] + s[4..6] == s[..6] && s[..6] + s[6..8] == s && s[0..4] == s[..4];
  }

  lemma AppendTwo(a: string, b: string)
    requires AllDigits(a) && AllDigits(b) && |b| == 2
    ensures AllDigits(a + b) && Number(a + b) == 100 * Number(a) + Number(b)
  {
    var s := a + b;
    assert s[..|s| - 1] == a + [b[0]] && (a + [b[0]])[..|a|] == a;
    NumberOfTwo(b);
  }

  function StampOf(unixTime: uint32): (s: string)
    ensures |s| == DATE_LENGTH && AllDigits(s)
  {
    TimeAbs.ToCivilSound(unixTime);
    TimeAbs.DayFits(TimeAbs.ToCivil(unixTime).year, TimeAbs.ToCivil(unixTime).month);
    Stamp(TimeAbs.ToCivil(unixTime))
  }

  /** The stamp of a clock reading is a valid date exactly when the reading is in the plausible window. */
  lemma StampIsValid(unixTime: uint32)
    ensures ValidStamp(StampOf(unixTime)) <==> 1704067200 <= unixTime <= 4102444799
  {
    hide TimeAbs.ToCivil;
    hide Stamp;
    var t := TimeAbs.ToCivil(unixTime);
    TimeAbs.ToCivilSound(unixTime);
    TimeAbs.DayFits(t.year, t.month);
    TimeAbs.YearBounds(unixTime);
    StampParts(t);
  }

  /** The second the date of a valid stamp begins. */
  lemma ValidStampIsDate(date: string) returns (u: uint32)
    requires ValidStamp(date)
    ensures 1704067200 <= u <= 4102444799 && StampOf(u) == date
  {
    hide TimeAbs.ToCivil, TimeAbs.DayNumber, Stamp, TimeAbs.DaysInMonth;
    var year, month, day := Part(date, 0, 4), Part(date, 4, 6), Part(date, 6, 8);
    var t := TimeAbs.DateTime(year, month, day, 0, 0, 0);
    MonthIsReal(year, month, day);
    PlausibleStart(t);
    u := TimeAbs.SecondsOf(t);
    TimeAbs.ToCivilComplete(t);
    KeyOfDay(u);
    KeyOfParts(date);
    NumberInjective(StampOf(u), date);
  }

  lemma MonthIsReal(year: nat, month: nat, day: nat)
    requires 1 <= day <= TimeAbs.DaysInMonth(year, month)
    ensures 1 <= month <= 12 && day <= 31
  {}

  lemma PlausibleStart(t: TimeAbs.DateTime)
    requires TimeAbs.ValidDateTime(t) && 2024 <= t.year <= 2099
    ensures 1704067200 <= TimeAbs.SecondsOf(t) <= 4102444799
  {
    hide TimeAbs.ToCivil, TimeAbs.DaysInMonth;
    var first, next := TimeAbs.DateTime(2024, 1, 1, 0, 0, 0), TimeAbs.DateTime(2100, 1, 1, 0, 0, 0);
    CenturyEnds(first, next);
    if t != first { TimeAbs.OrderPreserved(first, t); }
    TimeAbs.OrderPreserved(t, next);
  }

  lemma CenturyEnds(first: TimeAbs.DateTime, next: TimeAbs.DateTime)
    requires first == TimeAbs.DateTime(2024, 1, 1, 0, 0, 0) && next == TimeAbs.DateTime(2100, 1, 1, 0, 0, 0)
    ensures TimeAbs.ValidDateTime(first) && TimeAbs.ValidDateTime(next)
    ensures TimeAbs.SecondsOf(first) == 1704067200 && TimeAbs.SecondsOf(next) == 4102444800
  {
    YearStarts(2024, first);
    YearStarts(2100, next);
  }

  lemma YearStarts(year: nat, t: TimeAbs.DateTime)
    requires year >= 1970 && t == TimeAbs.DateTime(year, 1, 1, 0, 0, 0)
    ensures TimeAbs.ValidDateTime(t)
    ensures TimeAbs.SecondsOf(t) == ((year - 1970) * 365 + TimeAbs.LeapDays(year)) * 86400
  {
    hide TimeAbs.DaysBeforeYear, TimeAbs.LeapDays, TimeAbs.IsLeapYear;
    TimeAbs.DaysBeforeYearClosed(year);
  }

  /** The dates accepted are exactly the stamps of clock readings in the plausible window. */
  lemma ValidStampIff(date: string)
    ensures ValidStamp(date) <==> exists u: uint32 :: 1704067200 <= u <= 4102444799 && StampOf(u) == date
  {
    hide StampOf, ValidStamp;
    if ValidStamp(date) {
      var u := ValidStampIsDate(date);
    }
    forall u: uint32 | 1704067200 <= u <= 4102444799 && StampOf(u) == date
      ensures ValidStamp(date)
    {
      StampIsValid(u);
    }
  }

  /** A stamp's key is its calendar day's, so keys increase exactly with the day number. */
  lemma KeysFollowDays(u: uint32, v: uint32)
    ensures Key(StampOf(u)) < Key(StampOf(v)) <==> u / TimeAbs.SECONDS_PER_DAY < v / TimeAbs.SECONDS_PER_DAY
  {
    hide TimeAbs.ToCivil;
    hide TimeAbs.DayNumber;
    KeyOfDay(u);
    KeyOfDay(v);
    DayNumberOrder(TimeAbs.ToCivil(u), TimeAbs.ToCivil(v));
  }

  lemma KeyOfDay(u: uint32)
    ensures var t := TimeAbs.ToCivil(u);
            TimeAbs.ValidDateTime(t) && t.day <= 31 && Key(StampOf(u)) == 10000 * t.year + 100 * t.month + t.day &&
            TimeAbs.DayNumber(t.year, t.month, t.day) == u / TimeAbs.SECONDS_PER_DAY
  {
    hide TimeAbs.ToCivil;
    hide Stamp;
    hide TimeAbs.DayNumber;
    var t := TimeAbs.ToCivil(u);
    TimeAbs.ToCivilSound(u);
    TimeAbs.DayFits(t.year, t.month);
    TimeAbs.YearBounds(u);
    StampParts(t);
    KeyOfParts(Stamp(t));
  }

  lemma DayNumberOrder(a: TimeAbs.DateTime, b: TimeAbs.DateTime)
    requires TimeAbs.ValidDateTime(a) && TimeAbs.ValidDateTime(b) && a.day <= 31 && b.day <= 31
    ensures 10000 * a.year + 100 * a.month + a.day < 10000 * b.year + 100 * b.month + b.day
       <==> TimeAbs.DayNumber(a.year, a.month, a.day) < TimeAbs.DayNumber(b.year, b.month, b.day)
  {
    hide TimeAbs.DayNumber;
    if 10000 * a.year + 100 * a.month + a.day < 10000 * b.year + 100 * b.month + b.day {
      TimeAbs.DayOrder(a, b);
    } else if (a.year, a.month, a.day) != (b.year, b.month, b.day) {
      TimeAbs.DayOrder(b, a);
    }
  }

  // ---------------------------------------------------------------------------------------------
  // File names
  // ---------------------------------------------------------------------------------------------

  function FileName(date: string): string {
    "/" + date + ".csv"
  }

  /** Log file names sort under strcmp exactly as their keys do. */
  lemma NamesSortAsKeys(a: string, b: string)
    requires |a| == |b| && AllDigits(a) && AllDigits(b)
    ensures Less(FileName(a), FileName(b)) <==> Key(a) < Key(b)
    ensures FileName(a) == FileName(b) <==> Key(a) == Key(b)
  {
    assert FileName(a) == "/" + (a + ".csv") && FileName(b) == "/" + (b + ".csv");
    LessAppend("/", a + ".csv", b + ".csv");
    LessBeforeTail(a, b, ".csv");
    DigitsSortAsNumbers(a, b);
    if Key(a) == Key(b) { NumberInjective(a, b); }
    assert FileName(a)[1..|a| + 1] == a && FileName(b)[1..|b| + 1] == b;
  }

  /** The files of two clock readings compare as the days they were taken on. */
  lemma FilesSortChronologically(u: uint32, v: uint32)
    ensures Less(FileName(StampOf(u)), FileName(StampOf(v)))
       <==> u / TimeAbs.SECONDS_PER_DAY < v / TimeAbs.SECONDS_PER_DAY
  {
    NamesSortAsKeys(StampOf(u), StampOf(v));
    KeysFollowDays(u, v);
  }

  /** The file of a clock reading is named after its day: a slash, four digits of year, two of month, two of day. */
  lemma NameSpellsTheDay(u: uint32, t: TimeAbs.DateTime, name: string)
    requires t == TimeAbs.ToCivil(u) && name == FileName(StampOf(u))
    ensures |name| == 13 && name[0] == '/' && AllDigits(name[1..9]) && name[9..] == ".csv"
    ensures TimeAbs.ValidDateTime(t) && TimeAbs.DayNumber(t.year, t.month, t.day) == u / 86400
    ensures t.month <= 12 && t.day <= 31 && Number(name[1..9]) == 10000 * t.year + 100 * t.month + t.day
  {
    hide TimeAbs.ToCivil, TimeAbs.DayNumber, StampOf;
    KeyOfDay(u);
    TimeAbs.DayFits(t.year, t.month);
    assert name[1..9] == StampOf(u);
  }

  /** Com_FormatLogFileName: refuses an invalid date, and reports a buffer that is too small. */
  method FormatLogFileName(buffer: array<char>, date: string) returns (status: Status)
    modifies buffer
    ensures status == E_OK <==> ValidStamp(date) && buffer.Length > 13
    ensures status == E_OK ==>
              buffer[0] == '/' && buffer[1..9] == date && buffer[9..13] == ".csv" && buffer[13] == NUL
    ensures status == E_OK ==> buffer[..13] == FileName(date)
    ensures status == E_OK || status == E_NOT_OK
  {
    var valid := IsValidDate(date);
    if !valid {
      return E_NOT_OK;
    }
    var writer := new Writer(buffer);
    writer.WriteChar('/');
    writer.WriteString(date);
    writer.WriteString(".csv");
    assert writer.text == FileName(date);
    if !writer.overflow {
      assert buffer[..13] == "/" + date + ".csv";
      assert buffer[1..9] == buffer[..13][1..9] && buffer[9..13] == buffer[..13][9..];
    }
    status := if !writer.overflow then E_OK else E_NOT_OK;
  }

  /** TimeAbs_FormatDateStamp: no name is invented from an invalid clock. */
  method FormatDateStamp(now: uint32, clockValid: bool, buffer: array<char>) returns (status: Status)
    modifies buffer
    ensures status == (if clockValid && buffer.Length >= 9 then E_OK else E_NOT_OK)
    ensures status == E_OK ==> buffer[..8] == StampOf(now) && buffer[8] == NUL
    ensures status != E_OK ==> buffer[..] == old(buffer[..])
  {
    if buffer.Length < 9 || !clockValid {
      return E_NOT_OK;
    }
    var t, _ := TimeAbs.ToDateTime(now);
    TimeAbs.DayFits(t.year, t.month);
    buffer[0] := DigitChar(t.year / 1000 % 10);
    buffer[1] := DigitChar(t.year / 100 % 10);
    buffer[2] := DigitChar(t.year / 10 % 10);
    buffer[3] := DigitChar(t.year % 10);
    buffer[4] := DigitChar(t.month / 10);
    buffer[5] := DigitChar(t.month % 10);
    buffer[6] := DigitChar(t.day / 10);
    buffer[7] := DigitChar(t.day % 10);
    buffer[8] := NUL;
    status := E_OK;
  }
}
