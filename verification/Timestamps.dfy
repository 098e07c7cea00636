/** The timestamp printer and parser of the committed query source. */
module Timestamps {
  import opened Wrappers
  import opened Arithmetic
  import opened Text
  import opened Calendar

  // ----- printer -----

  /** RFC 3339 (section 5.6) text of a non-negative millisecond count. */
  function FormatTimestamp(millis: int): string
    requires 0 <= millis
  {
    var seconds := millis / 1_000;
    var milliseconds := millis % 1_000;
    var days := seconds / 86_400;
    var secondsOfDay := seconds % 86_400;
    PositiveYear(days);
    DayNumberOfCivil(days);
    var d := CivilFromDays(days);
    FormatParts(d.year, d.month, d.day,
                secondsOfDay / 3_600, secondsOfDay % 3_600 / 60, secondsOfDay % 60, milliseconds)
  }

  function FormatDate(year: nat, month: nat, day: nat): string {
    Padded(year, 4) + "-" + Padded(month, 2) + "-" + Padded(day, 2)
  }

  function FormatClock(hour: nat, minute: nat, second: nat): string {
    Padded(hour, 2) + ":" + Padded(minute, 2) + ":" + Padded(second, 2)
  }

  function FormatParts(year: nat, month: nat, day: nat, hour: nat, minute: nat, second: nat, fraction: nat): string {
    FormatDate(year, month, day) + "T" + FormatClock(hour, minute, second) + "." + Padded(fraction, 3) + "Z"
  }

  // ----- parser -----

  /** Three numbers between separators, and no fourth part. */
  function ParseTriple(s: string, separator: char): Option<(int, int, int)> {
    var parts := Split(s, separator);
    if |parts| != 3 then None
    else match (ParseI64(parts[0]), ParseI64(parts[1]), ParseI64(parts[2]))
      case (Some(a), Some(b), Some(c)) => Some((a, b, c))
      case _ => None
  }

  function ParseFraction(fraction: string): Option<int> {
    if fraction == [] then Some(0)
    else if |fraction| > 3 || !AllDigits(fraction) then None
    else match ParseI64(fraction)
      case None => None
      case Some(parsed) => Some(parsed * Pow10(3 - |fraction|))
  }

  /** Milliseconds of a date and a time of day, every addition checked. */
  function Assemble(days: int, hour: int, minute: int, second: int, fraction: int): Option<int> {
    match Checked(days * 86_400_000)
    case None => None
    case Some(v0) =>
      match Checked(v0 + hour * 3_600_000)
      case None => None
      case Some(v1) =>
        match Checked(v1 + minute * 60_000)
        case None => None
        case Some(v2) =>
          match Checked(v2 + second * 1_000)
          case None => None
          case Some(v3) =>
            match Checked(v3 + fraction)
            case None => None
            case Some(v4) => if v4 >= 0 then Some(v4) else None
  }

  function ParseTimestamp(value: string): Option<int> {
    match ParseI64(value)
    case Some(millis) => if millis >= 0 then Some(millis) else None
    case None =>
      if value == [] || value[|value| - 1] != 'Z' then None
      else match SplitOnce(value[..|value| - 1], 'T')
        case None => None
        case Some((date, time)) => ParseDateTime(date, time)
  }

  function ParseDateTime(date: string, time: string): Option<int> {
    match ParseTriple(date, '-')
    case None => None
    case Some((year, month, day)) =>
      if !(1 <= month <= 12) || day == 0 then None
      else
        var (clock, fractionText) := match SplitOnce(time, '.') case None => (time, []) case Some(parts) => parts;
        match ParseTriple(clock, ':')
        case None => None
        case Some((hour, minute, second)) =>
          if hour > 23 || minute > 59 || second > 59 then None
          else match (ParseFraction(fractionText), DaysFromCivil(year, month, day))
            case (Some(fraction), Some(days)) => Assemble(days, hour, minute, second, fraction)
            case _ => None
  }

  // ----- the parser undoes the printer -----

  lemma ParseTripleOf(a: nat, b: nat, c: nat, widthA: nat, separator: char)
    requires a <= MAX_I64 && b <= MAX_I64 && c <= MAX_I64 && !IsDigit(separator)
    ensures var s := Padded(a, widthA) + [separator] + Padded(b, 2) + [separator] + Padded(c, 2);
            ParseTriple(s, separator) == Some((a, b, c))
  {
    hide ParseI64, Padded;
    var pa, pb, pc := Padded(a, widthA), Padded(b, 2), Padded(c, 2);
    var s := pa + [separator] + pb + [separator] + pc;
    assert s == pa + [separator] + (pb + [separator] + pc);
    SplitAt(pa, separator, pb + [separator] + pc);
    SplitAt(pb, separator, pc);
    SplitWhole(pc, separator);
    ParsePadded(a, widthA);
    ParsePadded(b, 2);
    ParsePadded(c, 2);
  }

  lemma ParseFractionOf(fraction: nat)
    requires fraction < 1_000
    ensures ParseFraction(Padded(fraction, 3)) == Some(fraction)
  {
    assert Pow10(3) == 1_000;
    DecimalLength(fraction, 3);
    ParsePadded(fraction, 3);
  }

  lemma ParseFrame(date: string, time: string)
    requires |date| >= 2 && IsDigit(date[0]) && 'T' !in date
    ensures ParseTimestamp(date + "T" + time + "Z") == ParseDateTime(date, time)
  {
    hide ParseDateTime;
    var value := date + "T" + time + "Z";
    assert value[|value| - 1] == 'Z' && !IsDigit(value[|value| - 1]);
    assert value[0] == date[0];
    assert value[..|value| - 1] == date + "T" + time;
    SplitOnceAt(date, 'T', time);
  }

  /** The printed parts are found again, whatever they are. */
  lemma ParseParts(year: nat, month: nat, day: nat, hour: nat, minute: nat, second: nat, fraction: nat, days: int)
    requires year <= MAX_I64 && 1 <= month <= 12 && 1 <= day <= 31
    requires hour < 24 && minute < 60 && second < 60 && fraction < 1_000
    requires DaysFromCivil(year, month, day) == Some(days)
    ensures ParseDateTime(FormatDate(year, month, day), FormatClock(hour, minute, second) + "." + Padded(fraction, 3))
         == Assemble(days, hour, minute, second, fraction)
  {
    hide DaysFromCivil, Assemble, ParseTriple, ParseFraction, Padded;
    SplitOnceAt(FormatClock(hour, minute, second), '.', Padded(fraction, 3));
    ParseTripleOf(year, month, day, 4, '-');
    ParseTripleOf(hour, minute, second, 2, ':');
    ParseFractionOf(fraction);
  }

  lemma FormatDateShape(year: nat, month: nat, day: nat)
    ensures var date := FormatDate(year, month, day);
            |date| >= 2 && IsDigit(date[0]) && 'T' !in date
  {
    assert FormatDate(year, month, day)[0] == Padded(year, 4)[0];
  }

  lemma RoundTripParts(d: Date, days: nat, hour: nat, minute: nat, second: nat, fraction: nat, millis: int)
    requires d == CivilFromDays(days) && d.year >= 0 && d.month >= 0 && d.day >= 0
    requires hour < 24 && minute < 60 && second < 60 && fraction < 1_000
    requires millis == days * 86_400_000 + hour * 3_600_000 + minute * 60_000 + second * 1_000 + fraction
    requires millis <= MAX_I64
    ensures ParseTimestamp(FormatParts(d.year, d.month, d.day, hour, minute, second, fraction)) == Some(millis)
  {
    hide CivilFromDays, DayNumber, DaysFromCivil, ParseTimestamp, ParseDateTime, Assemble,
      FormatDate, FormatClock, Padded;
    FormatDateShape(d.year, d.month, d.day);
    DayNumberOfCivil(days);
    DaysFromCivilRoundTrip(days);
    YearFits(days);
    var date := FormatDate(d.year, d.month, d.day);
    var time := FormatClock(hour, minute, second) + "." + Padded(fraction, 3);
    assert FormatParts(d.year, d.month, d.day, hour, minute, second, fraction) == date + "T" + time + "Z";
    ParseFrame(date, time);
    ParseParts(d.year, d.month, d.day, hour, minute, second, fraction, days);
    AssembleParts(days, hour, minute, second, fraction, millis);
  }

  /** Printing and parsing give back every millisecond count a timestamp can hold. */
  lemma TimestampRoundTrip(millis: int)
    requires 0 <= millis <= MAX_I64
    ensures ParseTimestamp(FormatTimestamp(millis)) == Some(millis)
  {
    var seconds := millis / 1_000;
    var days, rest := seconds / 86_400, seconds % 86_400;
    PositiveYear(days);
    DayNumberOfCivil(days);
    SplitClock(rest);
    RoundTripParts(CivilFromDays(days), days, rest / 3_600, rest % 3_600 / 60, rest % 60, millis % 1_000, millis);
  }

  lemma SplitClock(rest: int)
    requires 0 <= rest < 86_400
    ensures rest / 3_600 < 24 && rest == rest / 3_600 * 3_600 + rest % 3_600 / 60 * 60 + rest % 60
  {
    Quotient(rest % 3_600 % 60, 60, 0);
  }

  lemma AssembleParts(days: nat, hour: nat, minute: nat, second: nat, fraction: nat, millis: int)
    requires millis == days * 86_400_000 + hour * 3_600_000 + minute * 60_000 + second * 1_000 + fraction
    requires millis <= MAX_I64
    ensures Assemble(days, hour, minute, second, fraction) == Some(millis)
  {
  }

  lemma YearFits(days: int)
    requires 0 <= days <= MAX_I64 / 86_400_000
    ensures CivilFromDays(days).year <= MAX_I64
  {
    DayNumberOfCivil(days);
    DayNumberClosed(CivilFromDays(days));
    DayOfYearFits(CivilFromDays(days));
  }

  // ----- the shape of the text -----

  /** `dddd-dd-ddTdd:dd:dd.dddZ`, digits everywhere but in those places. */
  predicate Rfc3339Shape(s: string) {
    && |s| == 24 && s[4] == s[7] == '-' && s[10] == 'T' && s[13] == s[16] == ':' && s[19] == '.' && s[23] == 'Z'
    && forall i :: 0 <= i < 23 && i !in {4, 7, 10, 13, 16, 19} ==> IsDigit(s[i])
  }

  lemma ShapeOfParts(year: string, month: string, day: string, hour: string, minute: string, second: string, fraction: string)
    requires |year| == 4 && |month| == |day| == |hour| == |minute| == |second| == 2 && |fraction| == 3
    requires AllDigits(year) && AllDigits(month) && AllDigits(day) && AllDigits(hour) && AllDigits(minute) && AllDigits(second)
             && AllDigits(fraction)
    ensures Rfc3339Shape((year + "-" + month + "-" + day) + "T" + (hour + ":" + minute + ":" + second) + "." + fraction + "Z")
  {
  }

  lemma MonthsAndDays(d: Date)
    requires ValidDate(d)
    ensures 1 <= d.month <= 12 && 1 <= d.day <= 31
  {
  }

  /** Before the year 10000 a printed timestamp has the fixed width of RFC 3339 (section 5.6). */
  lemma TimestampShape(millis: int)
    requires 0 <= millis && millis / 1_000 / 86_400 < DayNumber(Date(10_000, 1, 1))
    ensures Rfc3339Shape(FormatTimestamp(millis))
  {
    hide CivilFromDays, DayNumber, Padded, Rfc3339Shape, DaysInMonth;
    var days, rest := millis / 1_000 / 86_400, millis / 1_000 % 86_400;
    PositiveYear(days);
    DayNumberOfCivil(days);
    YearBelow(days, 10_000);
    SplitClock(rest);
    var d := CivilFromDays(days);
    MonthsAndDays(d);
    PowersOfTen();
    DecimalLength(d.year, 4);
    DecimalLength(d.month, 2);
    DecimalLength(d.day, 2);
    DecimalLength(rest / 3_600, 2);
    DecimalLength(rest % 3_600 / 60, 2);
    DecimalLength(rest % 60, 2);
    DecimalLength(millis % 1_000, 3);
    ShapeOfParts(Padded(d.year, 4), Padded(d.month, 2), Padded(d.day, 2), Padded(rest / 3_600, 2), Padded(rest % 3_600 / 60, 2),
                 Padded(rest % 60, 2), Padded(millis % 1_000, 3));
  }

  lemma PowersOfTen()
    ensures Pow10(2) == 100 && Pow10(3) == 1_000 && Pow10(4) == 10_000
  {
    assert Pow10(1) == 10;
  }

  /** A fraction of one to three digits counts tenths, hundredths or thousandths of a second; none counts nothing, and any other is refused. */
  lemma FractionMeans(s: string)
    ensures ParseFraction(s)
         == if s == [] then Some(0)
            else if |s| <= 3 && AllDigits(s) then Some(NumberOf(s) * if |s| == 1 then 100 else if |s| == 2 then 10 else 1)
            else None
  {
    if s != [] && |s| <= 3 && AllDigits(s) {
      SmallNumeral(s);
      Unsigned(s);
      PowersOfTen();
      assert Pow10(0) == 1 && Pow10(1) == 10;
    }
  }

  lemma {:induction false} SmallNumeral(s: string)
    requires |s| <= 3 && AllDigits(s)
    ensures NumberOf(s) < Pow10(|s|) <= 1_000
  {
    PowersOfTen();
    if s != [] {
      SmallNumeral(s[..|s| - 1]);
      assert IsDigit(s[|s| - 1]);
    }
  }
}
