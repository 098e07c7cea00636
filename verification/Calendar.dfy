/** Civil dates: the era-based conversions between day numbers and calendar dates. */
module Calendar {

  import opened Wrappers
  import opened Arithmetic

  datatype Date = Date(year: int, month: int, day: int)

  // ----- the source's two conversions -----

  /** Year within an era of a day of that era. */
  function YearOfEra(doe: int): int {
    (doe - doe / 1_460 + doe / 36_524 - doe / 146_096) / 365
  }

  /** First day, within an era, of a year of that era. */
  function YearStart(yoe: int): int {
    365 * yoe + yoe / 4 - yoe / 100
  }

  /** The civil date of a day of a year that starts in March. */
  function MarchDate(year: int, doy: int): Date {
    var monthPart := (5 * doy + 2) / 153;
    var day := doy - (153 * monthPart + 2) / 5 + 1;
    var month := monthPart + if monthPart < 10 then 3 else -9;
    Date(year + if month <= 2 then 1 else 0, month, day)
  }

  /** The civil date of a day counted from 1970-01-01. */
  function CivilFromDays(days: int): Date {
    var z := days + 719_468;
    var era := (if z >= 0 then z else z - 146_096) / 146_097;
    var doe := z - era * 146_097;
    var yoe := YearOfEra(doe);
    MarchDate(yoe + era * 400, doe - YearStart(yoe))
  }

  /** Gregorian leap rule (RFC 3339, appendix C). */
  predicate IsLeap(year: int) {
    year % 4 == 0 && (year % 100 != 0 || year % 400 == 0)
  }

  const MONTH_DAYS: seq<int> := [31, 28, 31, 30, 31, 30, 31, 31, 30, 31, 30, 31]

  function DaysInMonth(year: int, month: int): int
    requires 1 <= month <= 12
  {
    MONTH_DAYS[month - 1] + if month == 2 && IsLeap(year) then 1 else 0
  }

  predicate ValidDate(d: Date) {
    1 <= d.month <= 12 && 1 <= d.day <= DaysInMonth(d.year, d.month)
  }

  /** The 400-year era of a March-based year. */
  function EraOf(adjusted: int): int {
    (if adjusted >= 0 then adjusted else adjusted - 399) / 400
  }

  function DayOfEra(d: Date): int {
    var adjusted := d.year - if d.month <= 2 then 1 else 0;
    var yoe := adjusted - EraOf(adjusted) * 400;
    var monthPart := d.month + if d.month > 2 then -3 else 9;
    var doy := (153 * monthPart + 2) / 5 + d.day - 1;
    yoe * 365 + yoe / 4 - yoe / 100 + doy
  }

  /** Day number of a date, before the range checks of the 64-bit result. */
  function DayNumber(d: Date): int {
    EraOf(d.year - if d.month <= 2 then 1 else 0) * 146_097 + DayOfEra(d) - 719_468
  }

  /** The calendar successor of a date (RFC 3339, appendix C), independent of any day number. */
  function NextDay(d: Date): Date
    requires ValidDate(d)
  {
    if d.day < DaysInMonth(d.year, d.month) then Date(d.year, d.month, d.day + 1)
    else if d.month < 12 then Date(d.year, d.month + 1, 1)
    else Date(d.year + 1, 1, 1)
  }

  // ----- years of an era -----

  /** Length of the March-based year of an era: its last day is the February that may leap. */
  function YearLength(yoe: int): int {
    365 + if (yoe + 1) % 4 == 0 && ((yoe + 1) % 100 != 0 || (yoe + 1) % 400 == 0) then 1 else 0
  }

  lemma CenturyOf(c: int, s: int)
    requires 0 <= c < 4 && 0 <= s <= 36_524 && (s == 36_524 ==> c == 3)
    ensures var doe := 36_524 * c + s; doe / 36_524 - doe / 146_096 == c
  {
    var doe := 36_524 * c + s;
    if s == 36_524 { assert doe == 146_096; } else {
      Quotient(doe, 36_524, c);
      Quotient(doe, 146_096, 0);
    }
  }

  lemma QuadOf(q: int, ahead: int)
    requires 0 <= ahead < 2_920
    ensures (1_460 * q + ahead) / 1_460 == q + if ahead >= 1_460 then 1 else 0
  {
    var e := if ahead >= 1_460 then 1 else 0;
    Quotient(1_460 * q + ahead, 1_460, q + e);
  }

  /** Year of an era of a day given by century, quad, year of the quad and day of the year. */
  lemma YearOfQuad(c: int, b: int, a: int, doy: int)
    requires 0 <= c < 4 && 0 <= b < 25 && 0 <= a < 4 && 0 <= doy <= 365
    requires doy == 365 ==> a == 3 && (b == 24 ==> c == 3)
    ensures YearOfEra(36_524 * c + 1_461 * b + 365 * a + doy) == 100 * c + 4 * b + a
  {
    var doe := 36_524 * c + 1_461 * b + 365 * a + doy;
    CenturyOf(c, 1_461 * b + 365 * a + doy);
    // Days by which the count has run ahead of 1460-day quads; at most one whole quad.
    var ahead := 24 * c + b + 365 * a + doy;
    QuadOf(25 * c + b, ahead);
    var e := if ahead >= 1_460 then 1 else 0;
    Quotient(365 * (100 * c + 4 * b + a) + doy - e, 365, 100 * c + 4 * b + a);
  }

  lemma YearOfEraOf(yoe: int, doy: int)
    requires 0 <= yoe < 400
    requires 0 <= doy < YearLength(yoe)
    ensures YearOfEra(YearStart(yoe) + doy) == yoe
    ensures 0 <= YearStart(yoe) + doy < 146_097
  {
    hide YearOfEra;
    var c, a := yoe / 100, yoe % 4;
    var b := yoe / 4 - 25 * c;
    YearOfQuad(c, b, a, doy);
  }

  lemma SplitYearOfEra(doe: int) returns (yoe: int, doy: int)
    requires 0 <= doe < 146_097
    ensures 0 <= yoe < 400 && 0 <= doy < YearLength(yoe)
    ensures doe == YearStart(yoe) + doy
  {
    var c := if doe == 146_096 then 3 else doe / 36_524;
    var s := doe - 36_524 * c;
    var q := s / 1_461;
    var t := s - 1_461 * q;
    var a := if t == 1_460 then 3 else t / 365;
    yoe, doy := 100 * c + 4 * q + a, t - 365 * a;
    assert yoe / 100 == c && yoe / 4 == 25 * c + q && yoe % 4 == a;
    assert yoe % 100 == 4 * q + a;
  }

  // ----- months, counted from March -----

  lemma MonthSplit(monthPart: int, day: int)
    requires 0 <= monthPart < 12
    requires 1 <= day <= (153 * (monthPart + 1) + 2) / 5 - (153 * monthPart + 2) / 5
    ensures (5 * ((153 * monthPart + 2) / 5 + day - 1) + 2) / 153 == monthPart
  {
  }

  function Adjusted(d: Date): int { d.year - if d.month <= 2 then 1 else 0 }

  function MonthPart(d: Date): int { d.month + if d.month > 2 then -3 else 9 }

  function DayOfYear(d: Date): int { (153 * MonthPart(d) + 2) / 5 + d.day - 1 }

  lemma DayNumberParts(d: Date, era: int, yoe: int)
    requires era >= 0 && 0 <= yoe < 400 && Adjusted(d) == yoe + era * 400
    ensures EraOf(Adjusted(d)) == era && DayOfEra(d) == YearStart(yoe) + DayOfYear(d)
    ensures DayNumber(d) == era * 146_097 + YearStart(yoe) + DayOfYear(d) - 719_468
  {
    Quotient(Adjusted(d), 400, era);
  }

  lemma LeapOfEra(era: int, yoe: int)
    requires 0 <= yoe < 400
    ensures IsLeap(yoe + era * 400 + 1) == (YearLength(yoe) == 366)
  {
    var n := yoe + 1;
    Quotient(n + 400 * era, 4, n / 4 + 100 * era);
    Quotient(n + 400 * era, 100, n / 100 + 4 * era);
    Quotient(n + 400 * era, 400, n / 400 + era);
  }

  lemma MonthLengths(d: Date)
    requires 1 <= d.month <= 12
    ensures MonthPart(d) < 11 ==>
              DaysInMonth(d.year, d.month) == (153 * (MonthPart(d) + 1) + 2) / 5 - (153 * MonthPart(d) + 2) / 5
    ensures MonthPart(d) == 11 ==> DaysInMonth(d.year, d.month) == if IsLeap(d.year) then 29 else 28
  {
  }

  lemma DayOfYearFits(d: Date)
    requires ValidDate(d) && Adjusted(d) >= 0
    ensures 0 <= DayOfYear(d) < YearLength(Adjusted(d) % 400)
    ensures (5 * DayOfYear(d) + 2) / 153 == MonthPart(d)
  {
    MonthLengths(d);
    LeapOfEra(Adjusted(d) / 400, Adjusted(d) % 400);
    MonthSplit(MonthPart(d), d.day);
  }

  /** The date of a day of an era, given the March-based year and day it splits into. */
  lemma CivilOfEra(n: int, era: int, yoe: int, doy: int)
    requires era >= 0 && 0 <= yoe < 400 && 0 <= doy < YearLength(yoe)
    requires n + 719_468 == era * 146_097 + YearStart(yoe) + doy
    ensures CivilFromDays(n) == MarchDate(yoe + era * 400, doy)
  {
    hide MarchDate, YearOfEra, YearStart, YearLength;
    YearOfEraOf(yoe, doy);
    Quotient(n + 719_468, 146_097, era);
  }

  /** Reading back the day number of any valid date from March of year 0 on gives the date itself. */
  lemma CivilOfDayNumber(d: Date)
    requires ValidDate(d) && Adjusted(d) >= 0
    ensures CivilFromDays(DayNumber(d)) == d
  {
    hide YearLength, CivilFromDays, DaysInMonth, DayNumber, YearStart;
    DayOfYearFits(d);
    DayNumberParts(d, Adjusted(d) / 400, Adjusted(d) % 400);
    CivilOfEra(DayNumber(d), Adjusted(d) / 400, Adjusted(d) % 400, DayOfYear(d));
  }

  lemma DateOfMarchYear(era: int, yoe: int, doy: int)
    requires era >= 0 && 0 <= yoe < 400 && 0 <= doy < YearLength(yoe)
    ensures var d := MarchDate(yoe + era * 400, doy);
            ValidDate(d) && Adjusted(d) == yoe + era * 400 && DayOfYear(d) == doy
  {
    hide IsLeap;
    var d := MarchDate(yoe + era * 400, doy);
    assert MonthPart(d) == (5 * doy + 2) / 153;
    MonthLengths(d);
    LeapOfEra(era, yoe);
  }

  /** Every day from the first of March of year 0 on has a valid date whose day number is that day. */
  lemma DayNumberOfCivil(n: int)
    requires n >= -719_468
    ensures ValidDate(CivilFromDays(n)) && Adjusted(CivilFromDays(n)) >= 0
    ensures DayNumber(CivilFromDays(n)) == n
  {
    var era := (n + 719_468) / 146_097;
    var yoe, doy := SplitYearOfEra(n + 719_468 - era * 146_097);
    hide CivilFromDays, MarchDate, YearLength, DaysInMonth, DayNumber, DayOfYear;
    CivilOfEra(n, era, yoe, doy);
    DateOfMarchYear(era, yoe, doy);
    DayNumberParts(CivilFromDays(n), era, yoe);
  }

  // ----- day numbers follow the calendar -----

  /** Days before the March-based year, counted from the first of March of year 0. */
  function DaysBefore(adjusted: int): int {
    365 * adjusted + adjusted / 4 - adjusted / 100 + adjusted / 400
  }

  lemma DaysBeforePeriod(era: int, y: int)
    ensures DaysBefore(y + 400 * era) == DaysBefore(y) + era * 146_097
  {
    var a := y + 400 * era;
    Quotient(a, 4, y / 4 + 100 * era);
    Quotient(a, 100, y / 100 + 4 * era);
    Quotient(a, 400, y / 400 + era);
  }

  lemma YearLengths(yoe: int)
    requires 0 <= yoe < 400
    ensures DaysBefore(yoe) == YearStart(yoe)
    ensures DaysBefore(yoe + 1) == YearStart(yoe) + YearLength(yoe)
  {
    assert yoe / 400 == 0;
    Successor(yoe, 4);
    Successor(yoe, 100);
    Successor(yoe, 400);
  }

  lemma Successor(n: int, d: int)
    requires n >= 0 && d > 1
    ensures (n + 1) / d == n / d + if (n + 1) % d == 0 then 1 else 0
  {
    if n % d == d - 1 {
      Quotient(n + 1, d, n / d + 1);
    } else {
      Quotient(n + 1, d, n / d);
    }
  }

  lemma DaysBeforeSplit(era: int, yoe: int)
    requires era >= 0 && 0 <= yoe < 400
    ensures DaysBefore(yoe + 400 * era) == era * 146_097 + YearStart(yoe)
    ensures DaysBefore(yoe + 400 * era + 1) == DaysBefore(yoe + 400 * era) + YearLength(yoe)
  {
    YearLengths(yoe);
    DaysBeforePeriod(era, yoe);
    DaysBeforePeriod(era, yoe + 1);
  }

  lemma DayNumberClosed(d: Date)
    requires Adjusted(d) >= 0
    ensures DayNumber(d) == DaysBefore(Adjusted(d)) + DayOfYear(d) - 719_468
  {
    hide DayNumber, DaysBefore, DayOfYear, YearStart;
    DayNumberParts(d, Adjusted(d) / 400, Adjusted(d) % 400);
    DaysBeforeSplit(Adjusted(d) / 400, Adjusted(d) % 400);
  }

  lemma FebruaryEnds(d: Date)
    requires ValidDate(d) && Adjusted(d) >= 0 && d.month == 2 && d.day == DaysInMonth(d.year, 2)
    ensures DayOfYear(d) + 1 == YearLength(Adjusted(d) % 400)
    ensures DaysBefore(d.year) == DaysBefore(Adjusted(d)) + YearLength(Adjusted(d) % 400)
  {
    DaysBeforeSplit(Adjusted(d) / 400, Adjusted(d) % 400);
    LeapOfEra(Adjusted(d) / 400, Adjusted(d) % 400);
  }

  lemma NextDayNumber(d: Date)
    requires ValidDate(d) && Adjusted(d) >= 0
    ensures ValidDate(NextDay(d)) && Adjusted(NextDay(d)) >= 0
    ensures DayNumber(NextDay(d)) == DayNumber(d) + 1
  {
    hide DayNumber;
    var e := NextDay(d);
    DayNumberClosed(d);
    DayNumberClosed(e);
    if e.day > 1 {
      assert DayOfYear(e) == DayOfYear(d) + 1;
    } else if d.month == 2 {
      FebruaryEnds(d);
    } else {
      MonthLengths(d);
      assert MonthPart(e) == MonthPart(d) + 1;
    }
  }

  /** The date of the day after `n` is the Gregorian successor of the date of `n`. */
  lemma CivilIsGregorian(n: int)
    requires n >= -719_468
    ensures ValidDate(CivilFromDays(n)) && CivilFromDays(n + 1) == NextDay(CivilFromDays(n))
  {
    DayNumberOfCivil(n);
    var d := CivilFromDays(n);
    NextDayNumber(d);
    CivilOfDayNumber(NextDay(d));
  }

  lemma EpochDate()
    ensures CivilFromDays(0) == Date(1970, 1, 1)
  {
  }

  /** Day numbers grow with the year, and every date lies between its own and the next new year. */
  lemma YearBounds(d: Date)
    requires ValidDate(d) && d.year >= 1
    ensures DayNumber(Date(d.year, 1, 1)) <= DayNumber(d) < DayNumber(Date(d.year + 1, 1, 1))
  {
    hide DayNumber, IsLeap, YearLength;
    var a := d.year - 1;
    DayNumberClosed(d);
    DayNumberClosed(Date(d.year, 1, 1));
    DayNumberClosed(Date(d.year + 1, 1, 1));
    DaysBeforeSplit(a / 400, a % 400);
    LeapOfEra(a / 400, a % 400);
    MonthLengths(d);
  }

  lemma NewYearsGrow(y: int, z: int)
    requires 1 <= y <= z
    ensures DayNumber(Date(y, 1, 1)) <= DayNumber(Date(z, 1, 1))
  {
    DayNumberClosed(Date(y, 1, 1));
    DayNumberClosed(Date(z, 1, 1));
    assert z - 1 - (y - 1) >= 0;
  }

  // ----- the parser's checked conversion -----

  /** Day number of a date, or nothing when the day is out of range or the result leaves 64 bits. */
  function DaysFromCivil(year: int, month: int, day: int): Option<int>
    requires 1 <= month <= 12
  {
    var d := Date(year, month, day);
    if day < 1 || day > DaysInMonth(year, month) then None
    else
      match Checked(EraOf(year - if month <= 2 then 1 else 0) * 146_097)
      case None => None
      case Some(eraDays) =>
        match Checked(eraDays + DayOfEra(d))
        case None => None
        case Some(total) => Checked(total - 719_468)
  }

  /** For every day a 64-bit millisecond count can reach, no checked step fails and the day comes back. */
  lemma DaysFromCivilRoundTrip(n: int)
    requires 0 <= n <= MAX_I64 / 86_400_000
    ensures var d := CivilFromDays(n);
            1 <= d.month <= 12 && DaysFromCivil(d.year, d.month, d.day) == Some(n)
  {
    DayNumberOfCivil(n);
    CheckedDayNumber(CivilFromDays(n));
  }

  lemma CheckedDayNumber(d: Date)
    requires ValidDate(d) && Adjusted(d) >= 0 && DayNumber(d) <= MAX_I64 / 86_400_000
    ensures DaysFromCivil(d.year, d.month, d.day) == Some(DayNumber(d))
  {
    hide DayNumber, DayOfEra, DayOfYear, DaysInMonth, EraOf;
    DayOfYearFits(d);
    DayNumberParts(d, Adjusted(d) / 400, Adjusted(d) % 400);
    assert 0 <= DayOfEra(d) <= 366 * 401;
    assert DayNumber(d) == EraOf(Adjusted(d)) * 146_097 + DayOfEra(d) - 719_468;
  }

  // ----- the Aliyun connector's own calendar -----

  const TWO_32: int := 0x1_0000_0000

  /** The connector's own date of a day of an era, before its parts are cast. */
  function AliyunDate(era: int, dayOfEra: int): Date {
    var yearOfEra := (dayOfEra - dayOfEra / 1_460 + dayOfEra / 36_524 - dayOfEra / 146_096) / 365;
    var year := yearOfEra + era * 400;
    var dayOfYear := dayOfEra - (365 * yearOfEra + yearOfEra / 4 - yearOfEra / 100);
    var monthPrime := (5 * dayOfYear + 2) / 153;
    var day := dayOfYear - (153 * monthPrime + 2) / 5 + 1;
    var month := if monthPrime < 10 then monthPrime + 3 else monthPrime - 9;
    Date(if month <= 2 then year + 1 else year, month, day)
  }

  /** Date of a second count; each part is cast to 32 bits, dropping what lies above. */
  function CivilFromUnixSecs(secs: int): Date
    requires 0 <= secs <= MAX_U64
  {
    var days := if secs / 86_400 <= MAX_I64 then secs / 86_400 else MAX_I64;
    var z := days + 719_468;
    var d := AliyunDate(z / 146_097, z % 146_097);
    Date(d.year % TWO_32, d.month % TWO_32, d.day % TWO_32)
  }

  lemma AliyunDateIsMarch(era: int, doe: int)
    ensures AliyunDate(era, doe) == MarchDate(YearOfEra(doe) + era * 400, doe - YearStart(YearOfEra(doe)))
  {
  }

  lemma AliyunDateIsCivil(n: int)
    requires n >= 0
    ensures AliyunDate((n + 719_468) / 146_097, (n + 719_468) % 146_097) == CivilFromDays(n)
  {
    hide MarchDate, YearOfEra, YearStart, AliyunDate;
    var z := n + 719_468;
    AliyunDateIsMarch(z / 146_097, z % 146_097);
    assert z % 146_097 == z - z / 146_097 * 146_097;
  }

  lemma DaysBeforeGrow(a: int, b: int)
    requires a <= b
    ensures DaysBefore(a) <= DaysBefore(b)
  {
  }

  lemma PositiveYear(n: int)
    requires n >= 0
    ensures CivilFromDays(n).year >= 1970
  {
    hide CivilFromDays, DayNumber, YearLength, DaysInMonth;
    DayNumberOfCivil(n);
    var d := CivilFromDays(n);
    DayNumberClosed(d);
    DayOfYearFits(d);
    if Adjusted(d) <= 1968 {
      DaysBeforeGrow(Adjusted(d), 1968);
    }
  }

  lemma YearBelow(n: int, y: int)
    requires n >= 0 && y >= 1
    ensures CivilFromDays(n).year < y <==> n < DayNumber(Date(y, 1, 1))
  {
    hide CivilFromDays, DayNumber;
    DayNumberOfCivil(n);
    PositiveYear(n);
    var d := CivilFromDays(n);
    YearBounds(d);
    if d.year < y {
      NewYearsGrow(d.year + 1, y);
    } else {
      NewYearsGrow(y, d.year);
    }
  }

  lemma CastExact(d: Date)
    requires ValidDate(d) && d.year >= 0
    ensures Date(d.year % TWO_32, d.month % TWO_32, d.day % TWO_32) == d <==> d.year < TWO_32
  {
  }

  /** The two calendars agree exactly on the days before the year 2^32. */
  lemma AliyunCalendarAgrees(secs: int)
    requires 0 <= secs <= MAX_U64
    ensures CivilFromUnixSecs(secs) == CivilFromDays(secs / 86_400)
       <==> secs / 86_400 < DayNumber(Date(TWO_32, 1, 1))
  {
    hide CivilFromDays, AliyunDate, DayNumber, ValidDate;
    var n := secs / 86_400;
    DayNumberOfCivil(n);
    PositiveYear(n);
    AliyunDateIsCivil(n);
    CastExact(CivilFromDays(n));
    YearBelow(n, TWO_32);
  }

  /** The last second count of 64 bits lies beyond, and its two dates differ. */
  lemma LastSecondDiffers()
    ensures CivilFromUnixSecs(MAX_U64) != CivilFromDays(MAX_U64 / 86_400)
  {
    hide CivilFromUnixSecs, CivilFromDays, DayNumber;
    DayNumberClosed(Date(TWO_32, 1, 1));
    AliyunCalendarAgrees(MAX_U64);
  }

  /** A date is converted exactly when it is valid and its day number, counted from March of year 0, fits 64 bits. */
  lemma DaysFromCivilExactly(d: Date)
    requires 1 <= d.month <= 12 && Adjusted(d) >= 0
    ensures DaysFromCivil(d.year, d.month, d.day)
         == if ValidDate(d) && DayNumber(d) + 719_468 <= MAX_I64 then Some(DayNumber(d)) else None
  {
    if ValidDate(d) {
      DayOfYearFits(d);
      DayNumberParts(d, Adjusted(d) / 400, Adjusted(d) % 400);
    }
    hide DayNumber, DayOfEra, DayOfYear, EraOf, DaysInMonth, YearStart;
  }
}
