/** Dates as Julian day numbers, computed with the truncating division of the source language. */
module Calendar {

  // ---------------------------------------------------------------- truncating division

  function CDiv(a: int, b: int): int
    requires b > 0
  {
    if a >= 0 then a / b else -((-a) / b)
  }

  function CMod(a: int, b: int): int
    requires b > 0
  {
    a - b * CDiv(a, b)
  }

  // ---------------------------------------------------------------- the code's formulas

  function JulianDate(year: int, month: int, day: int): int {
    var a := CDiv(14 - month, 12);
    var y := year + 4800 - a;
    var m := month + 12 * a - 3;
    day + CDiv(153 * m + 2, 5) + y * 365 + CDiv(y, 4) - CDiv(y, 100) + CDiv(y, 400) - 32045
  }

  datatype Date = Date(year: int, month: int, day: int)

  /** The formulas of GetYmd below the century. */
  function DateInCentury(b: int, c: int): Date {
    var d := CDiv(4 * c + 3, 1461);
    var e := c - CDiv(1461 * d, 4);
    var m := CDiv(5 * e + 2, 153);
    Date(b * 100 + d - 4800 + CDiv(m, 10), m + 3 - 12 * CDiv(m, 10), e - CDiv(153 * m + 2, 5) + 1)
  }

  function GetYmd(jday: int): Date {
    var a := jday + 32044;
    var b := CDiv(4 * a + 3, 146097);
    DateInCentury(b, a - CDiv(b * 146097, 4))
  }

  function MaxDayInMonthFor(year: int, month: int): int {
    var m := CMod(month - 1, 12) + 1;
    var y := year + CDiv(m - 1, 12);
    if m == 1 || m == 3 || m == 5 || m == 7 || m == 8 || m == 10 || m == 12 then 31
    else if m == 4 || m == 6 || m == 9 || m == 11 then 30
    else if m == 2 && (0 == CMod(y, 400) || (0 != CMod(y, 100) && 0 == CMod(y, 4))) then 29
    else 28
  }

  // ---------------------------------------------------------------- the proleptic Gregorian calendar

  predicate Leap(year: int) {
    year % 4 == 0 && (year % 100 != 0 || year % 400 == 0)
  }

  function DaysInMonth(year: int, month: int): int
    requires 1 <= month <= 12
  {
    if month == 2 then (if Leap(year) then 29 else 28)
    else if month == 4 || month == 6 || month == 9 || month == 11 then 30
    else 31
  }

  predicate ValidDate(d: Date) {
    1 <= d.month <= 12 && 1 <= d.day <= DaysInMonth(d.year, d.month)
  }

  /** From the first of March 4801 BC, where the day count of the formulas starts. */
  predicate InCalendar(d: Date) {
    ValidDate(d) && (d.year > -4800 || (d.year == -4800 && d.month >= 3))
  }

  function NextDay(d: Date): Date
    requires ValidDate(d)
  {
    if d.day < DaysInMonth(d.year, d.month) then Date(d.year, d.month, d.day + 1)
    else if d.month < 12 then Date(d.year, d.month + 1, 1)
    else Date(d.year + 1, 1, 1)
  }

  function Number(d: Date): int {
    JulianDate(d.year, d.month, d.day)
  }

  lemma MonthInRange(month: int)
    requires 1 <= month <= 12
    ensures CMod(month - 1, 12) == month - 1 && CDiv(month - 1, 12) == 0
  {
  }

  lemma LeapByRemainders(year: int)
    ensures (0 == CMod(year, 400) || (0 != CMod(year, 100) && 0 == CMod(year, 4))) == Leap(year)
  {
    ModZero4(year);
    ModZero100(year);
    ModZero400(year);
    MultipleOf100(year);
    MultipleOf400(year);
  }

  lemma MaxDayIsDaysInMonth(year: int, month: int)
    requires 1 <= month <= 12
    ensures MaxDayInMonthFor(year, month) == DaysInMonth(year, month)
  {
    MonthInRange(month);
    LeapByRemainders(year);
  }

  lemma ModZero4(a: int)
    ensures CMod(a, 4) == 0 <==> a % 4 == 0
  {
  }

  lemma ModZero100(a: int)
    ensures CMod(a, 100) == 0 <==> a % 100 == 0
  {
  }

  lemma ModZero400(a: int)
    ensures CMod(a, 400) == 0 <==> a % 400 == 0
  {
  }

  // ---------------------------------------------------------------- years that start in March

  /** Days before the March-based year `y`, counted from year 0. */
  function YearStart(y: nat): nat {
    365 * y + y / 4 - y / 100 + y / 400
  }

  /** Days before the March-based month `m`. */
  function MonthStart(m: nat): nat {
    (153 * m + 2) / 5
  }

  function MarchYear(d: Date): int {
    d.year + 4800 - (if d.month <= 2 then 1 else 0)
  }

  function MarchMonth(d: Date): int {
    if d.month <= 2 then d.month + 9 else d.month - 3
  }

  lemma NumberInMarchYears(d: Date)
    requires InCalendar(d)
    ensures MarchYear(d) >= 0 && 0 <= MarchMonth(d) <= 11
    ensures Number(d) == YearStart(MarchYear(d)) + MonthStart(MarchMonth(d)) + d.day - 1 - 32044
  {
    if d.month <= 2 { assert CDiv(14 - d.month, 12) == 1; } else { assert CDiv(14 - d.month, 12) == 0; }
  }

  lemma MonthStarts()
    ensures MonthStart(0) == 0 && MonthStart(1) == 31 && MonthStart(2) == 61 && MonthStart(3) == 92
    ensures MonthStart(4) == 122 && MonthStart(5) == 153 && MonthStart(6) == 184 && MonthStart(7) == 214
    ensures MonthStart(8) == 245 && MonthStart(9) == 275 && MonthStart(10) == 306 && MonthStart(11) == 337
  {
  }

  lemma MonthLength(d: Date)
    requires 1 <= d.month <= 12 && d.month != 2
    ensures MonthStart(MarchMonth(d)) + DaysInMonth(d.year, d.month) == MonthStart(MarchMonth(d) + 1)
  {
    MonthStarts();
  }

  lemma YearLength(y: nat)
    ensures YearStart(y + 1) == YearStart(y) + (if Leap(y + 1) then 366 else 365)
  {
    Quotient4(y);
    Quotient100(y);
    Quotient400(y);
    MultipleOf100(y + 1);
    MultipleOf400(y + 1);
  }

  lemma Quotient4(y: nat)
    ensures (y + 1) / 4 == y / 4 + (if (y + 1) % 4 == 0 then 1 else 0)
  {
  }

  lemma Quotient100(y: nat)
    ensures (y + 1) / 100 == y / 100 + (if (y + 1) % 100 == 0 then 1 else 0)
  {
  }

  lemma Quotient400(y: nat)
    ensures (y + 1) / 400 == y / 400 + (if (y + 1) % 400 == 0 then 1 else 0)
  {
  }

  lemma MultipleOf100(y: int)
    ensures y % 100 == 0 ==> y % 4 == 0
  {
  }

  lemma MultipleOf400(y: int)
    ensures y % 400 == 0 ==> y % 100 == 0
  {
  }

  lemma Shift4(y: int)
    ensures (y + 4800) % 4 == y % 4
  {
  }

  lemma Shift100(y: int)
    ensures (y + 4800) % 100 == y % 100
  {
  }

  lemma Shift400(y: int)
    ensures (y + 4800) % 400 == y % 400
  {
  }

  lemma LeapShift(year: int)
    ensures Leap(year) == Leap(year + 4800)
  {
    Shift4(year);
    Shift100(year);
    Shift400(year);
  }

  function NextMonth(year: int, month: int): Date {
    if month < 12 then Date(year, month + 1, 1) else Date(year + 1, 1, 1)
  }

  lemma FebruaryCounts(year: int)
    requires InCalendar(Date(year, 2, 1))
    ensures Number(Date(year, 3, 1)) == Number(Date(year, 2, 1)) + DaysInMonth(year, 2)
  {
    NumberInMarchYears(Date(year, 2, 1));
    NumberInMarchYears(Date(year, 3, 1));
    YearLength(MarchYear(Date(year, 2, 1)));
    LeapShift(year);
    MonthStarts();
  }

  lemma MonthCounts(year: int, month: int)
    requires InCalendar(Date(year, month, 1))
    ensures InCalendar(NextMonth(year, month))
    ensures Number(NextMonth(year, month)) == Number(Date(year, month, 1)) + DaysInMonth(year, month)
  {
    if month == 2 {
      FebruaryCounts(year);
    } else {
      NumberInMarchYears(Date(year, month, 1));
      NumberInMarchYears(NextMonth(year, month));
      MonthLength(Date(year, month, 1));
    }
  }

  lemma DayCounts(d: Date)
    ensures Number(d) == Number(Date(d.year, d.month, 1)) + d.day - 1
  {
  }

  /** The day after a date has the next number: the formula counts calendar days one by one. */
  lemma NextDayCounts(d: Date)
    requires InCalendar(d)
    ensures InCalendar(NextDay(d)) && Number(NextDay(d)) == Number(d) + 1
  {
    DayCounts(d);
    if d.day == DaysInMonth(d.year, d.month) {
      assert InCalendar(Date(d.year, d.month, 1));
      MonthCounts(d.year, d.month);
    } else {
      DayCounts(NextDay(d));
    }
  }

  lemma FirstDay()
    ensures Number(Date(-4800, 3, 1)) == -32044
  {
  }

  // ---------------------------------------------------------------- taking a day number apart

  lemma CenturySplit(y: nat)
    ensures YearStart(y) == y / 100 * 146097 / 4 + 1461 * (y % 100) / 4
  {
    var b, d := y / 100, y % 100;
    assert y / 4 == 25 * b + d / 4;
    assert y / 400 == b / 4;
    assert b * 146097 / 4 == 36524 * b + b / 4;
    assert 1461 * d / 4 == 365 * d + d / 4;
  }

  /** The century of a day, from the day within the century; and the other way round. */
  lemma CenturyOf(a: nat, b: nat, c: int)
    requires a == c + b * 146097 / 4
    ensures (4 * a + 3) / 146097 == b <==> 0 <= c <= (if b % 4 == 3 then 36524 else 36523)
  {
    assert b * 146097 / 4 == 36524 * b + b / 4;
    assert 4 * a + 3 == 146097 * b + 4 * c + 3 - b % 4;
  }

  /** The year of a day, from the day within the year; and the other way round. */
  lemma YearOf(c: nat, d: nat, e: int)
    requires c == e + 1461 * d / 4
    ensures (4 * c + 3) / 1461 == d <==> 0 <= e <= (if d % 4 == 3 then 365 else 364)
  {
    assert 1461 * d / 4 == 365 * d + d / 4;
    assert 4 * c + 3 == 1461 * d + 4 * e + 3 - d % 4;
  }

  lemma MonthOf(e: nat, m: nat)
    requires m <= 11 && MonthStart(m) <= e < (if m == 11 then 366 else MonthStart(m + 1))
    ensures (5 * e + 2) / 153 == m
  {
    MonthStarts();
  }

  lemma MonthFound(e: nat)
    requires e <= 365
    ensures var m := (5 * e + 2) / 153; m <= 11 && MonthStart(m) <= e && (m < 11 ==> e < MonthStart(m + 1))
  {
    MonthStarts();
  }

  /** A day number put together from century, year of the century, month and day of the year. */
  ghost predicate Parts(a: int, b: nat, d: nat, e: nat, m: nat) {
    && a == e + 1461 * d / 4 + b * 146097 / 4
    && d <= 99 && m <= 11 && MonthStart(m) <= e < (if m == 11 then 366 else MonthStart(m + 1))
    && (e == 365 ==> d % 4 == 3 && (d == 99 ==> b % 4 == 3))
  }

  function DateOfParts(b: nat, d: nat, e: nat, m: nat): Date {
    Date(b * 100 + d - 4800 + m / 10, m + 3 - 12 * (m / 10), e - MonthStart(m) + 1)
  }

  lemma InCentury(b: nat, c: nat, d: nat, e: nat, m: nat)
    requires d == (4 * c + 3) / 1461 && e == c - 1461 * d / 4 && m == (5 * e + 2) / 153
    ensures DateInCentury(b, c) == DateOfParts(b, d, e, m)
  {
  }

  lemma BehindCentury(a: nat, b: nat, c: nat)
    requires b == (4 * a + 3) / 146097 && c == a - b * 146097 / 4
    ensures GetYmd(a - 32044) == DateInCentury(b, c)
  {
  }

  /** The formulas of GetYmd, on numbers that are not negative. */
  lemma YmdFrom(a: nat, b: nat, c: nat, d: nat, e: nat, m: nat)
    requires b == (4 * a + 3) / 146097 && c == a - b * 146097 / 4
    requires d == (4 * c + 3) / 1461 && e == c - 1461 * d / 4 && m == (5 * e + 2) / 153
    ensures GetYmd(a - 32044) == DateOfParts(b, d, e, m)
  {
    BehindCentury(a, b, c);
    InCentury(b, c, d, e, m);
  }

  lemma PartsFound(a: nat, b: nat, d: nat, e: nat, m: nat)
    requires Parts(a, b, d, e, m)
    ensures GetYmd(a - 32044) == DateOfParts(b, d, e, m)
  {
    var c := e + 1461 * d / 4;
    MonthStarts();
    YearDays(d);
    CenturyOf(a, b, c);
    YearOf(c, d, e);
    MonthOf(e, m);
    YmdFrom(a, b, c, d, e, m);
  }

  lemma YearDays(d: nat)
    ensures 1461 * d / 4 == 365 * d + d / 4
  {
  }

  lemma PartsExist(a: nat) returns (b: nat, d: nat, e: nat, m: nat)
    ensures Parts(a, b, d, e, m)
  {
    b := (4 * a + 3) / 146097;
    var c := a - b * 146097 / 4;
    CenturyOf(a, b, c);
    d := (4 * c + 3) / 1461;
    var e' := c - 1461 * d / 4;
    YearOf(c, d, e');
    e := e';
    YearDays(d);
    MonthFound(e);
    m := (5 * e + 2) / 153;
  }

  lemma Mod4(x: int, q: int, r: int)
    requires x == 4 * q + r && 0 <= r < 4
    ensures x % 4 == r
  {
  }

  lemma Mod100(x: int, q: int, r: int)
    requires x == 100 * q + r && 0 <= r < 100
    ensures x % 100 == r
  {
  }

  lemma Mod400(x: int, q: int, r: int)
    requires x == 400 * q + r && 0 <= r < 400
    ensures x % 400 == r
  {
  }

  lemma LeapOfCentury(b: nat, d: nat)
    requires d <= 99
    ensures (100 * b + d + 1) % 4 == 0 <==> d % 4 == 3
    ensures (100 * b + d + 1) % 100 == 0 <==> d == 99
  {
    var x, q, r := 100 * b + d + 1, d / 4, d % 4;
    if r == 3 { Mod4(x, 25 * b + q + 1, 0); } else { Mod4(x, 25 * b + q, r + 1); }
    if d == 99 { Mod100(x, b + 1, 0); } else { Mod100(x, b, d + 1); }
  }

  lemma LeapCentury(b: nat)
    ensures (100 * (b + 1)) % 400 == 0 <==> b % 4 == 3
  {
    var q, r := b / 4, b % 4;
    if r == 3 { Mod400(100 * (b + 1), q + 1, 0); } else { Mod400(100 * (b + 1), q, 100 * (r + 1)); }
  }

  lemma LastLeapDay(b: nat, d: nat)
    requires d <= 99
    ensures Leap(100 * b + d + 1) <==> d % 4 == 3 && (d == 99 ==> b % 4 == 3)
  {
    LeapOfCentury(b, d);
    if d == 99 { LeapCentury(b); }
  }

  /** February has room for the last day of the March-based year exactly in a leap year. */
  lemma DateOfPartsValid(a: int, b: nat, d: nat, e: nat, m: nat)
    requires Parts(a, b, d, e, m)
    ensures var date := DateOfParts(b, d, e, m);
            InCalendar(date) && MarchYear(date) == 100 * b + d && MarchMonth(date) == m
  {
    var date := DateOfParts(b, d, e, m);
    MonthStarts();
    if m < 11 {
      MonthLength(date);
    } else {
      LastLeapDay(b, d);
      LeapShift(date.year);
    }
  }

  lemma CenturyAndYear(b: nat, d: nat)
    requires d <= 99
    ensures (100 * b + d) / 100 == b && (100 * b + d) % 100 == d
  {
  }

  /** Parts are a date of the calendar. */
  lemma PartsAreDate(a: int, b: nat, d: nat, e: nat, m: nat)
    requires Parts(a, b, d, e, m)
    ensures var date := DateOfParts(b, d, e, m);
            && InCalendar(date) && MarchYear(date) == 100 * b + d && MarchMonth(date) == m
            && Number(date) == a - 32044
  {
    DateOfPartsValid(a, b, d, e, m);
    NumberInMarchYears(DateOfParts(b, d, e, m));
    CenturySplit(100 * b + d);
    CenturyAndYear(b, d);
  }

  lemma DayOfYearFits(date: Date, b: nat, d: nat, e: nat)
    requires InCalendar(date) && d <= 99 && MarchYear(date) == 100 * b + d
    requires e == MonthStart(MarchMonth(date)) + date.day - 1
    ensures var m := MarchMonth(date); MonthStart(m) <= e < (if m == 11 then 366 else MonthStart(m + 1))
    ensures e == 365 ==> d % 4 == 3 && (d == 99 ==> b % 4 == 3)
  {
    MonthStarts();
    if MarchMonth(date) < 11 {
      MonthLength(date);
    } else {
      LastLeapDay(b, d);
      LeapShift(date.year);
    }
  }

  /** A date of the calendar has parts. */
  lemma DateHasParts(date: Date) returns (a: nat, b: nat, d: nat, e: nat, m: nat)
    requires InCalendar(date)
    ensures Number(date) == a - 32044 && Parts(a, b, d, e, m) && DateOfParts(b, d, e, m) == date
  {
    NumberInMarchYears(date);
    var y := MarchYear(date);
    m := MarchMonth(date);
    b, d, e := y / 100, y % 100, MonthStart(m) + date.day - 1;
    a := YearStart(y) + e;
    CenturySplit(y);
    DayOfYearFits(date, b, d, e);
  }

  /** A date is recovered from its number. */
  lemma DateRoundTrip(date: Date)
    requires InCalendar(date)
    ensures Number(date) >= -32044
    ensures GetYmd(Number(date)) == date
  {
    var a, b, d, e, m := DateHasParts(date);
    PartsFound(a, b, d, e, m);
  }

  /** Every number from the first day on is the number of a calendar date, and of the one returned. */
  lemma NumberRoundTrip(jday: int)
    requires jday >= -32044
    ensures InCalendar(GetYmd(jday)) && Number(GetYmd(jday)) == jday
  {
    var b, d, e, m := PartsExist(jday + 32044);
    PartsFound(jday + 32044, b, d, e, m);
    PartsAreDate(jday + 32044, b, d, e, m);
  }

  // ---------------------------------------------------------------- 32 bits

  const MAX_INT32: int := 0x7fff_ffff

  /** The last day number that the code can take apart without overflow. */
  const LAST_JDAY: int := 536838867

  predicate Fits(x: int) {
    -MAX_INT32 - 1 <= x <= MAX_INT32
  }

  /** From the first day up to LAST_JDAY no intermediate value of GetYmd leaves 32 bits, and one day
      later the first product does. */
  lemma GetYmdFits(jday: int)
    requires jday >= -32044
    ensures jday <= LAST_JDAY <==> Fits(4 * (jday + 32044) + 3)
    ensures jday <= LAST_JDAY ==>
              var a := jday + 32044;
              var b := CDiv(4 * a + 3, 146097);
              var c := a - CDiv(b * 146097, 4);
              var d := CDiv(4 * c + 3, 1461);
              var e := c - CDiv(1461 * d, 4);
              var m := CDiv(5 * e + 2, 153);
              && Fits(a) && Fits(b * 146097) && Fits(4 * c + 3) && Fits(1461 * d)
              && Fits(5 * e + 2) && Fits(153 * m + 2)
              && Fits(b * 100 + d)
  {
    var a := jday + 32044;
    var b := (4 * a + 3) / 146097;
    var c := a - b * 146097 / 4;
    CenturyOf(a, b, c);
    var d := (4 * c + 3) / 1461;
    YearOf(c, d, c - 1461 * d / 4);
  }

  /** The sums over the years, in the order in which they are added. */
  predicate SumsFit(y: int, inYear: int) {
    var leaps := inYear + y * 365 + CDiv(y, 4);
    && Fits(inYear) && Fits(y * 365) && Fits(inYear + y * 365) && Fits(leaps) && Fits(leaps - CDiv(y, 100))
    && Fits(leaps - CDiv(y, 100) + CDiv(y, 400))
  }

  lemma YearsBound(y: nat)
    ensures CDiv(y, 4) - CDiv(y, 100) >= 0 && 0 <= CDiv(y, 400) <= y && CDiv(y, 4) <= y && 0 <= CDiv(y, 100) <= y
  {
  }

  lemma YearsFit(y: nat, inYear: nat)
    requires inYear <= 400 && y <= 1470932
    ensures SumsFit(y, inYear)
  {
    YearsBound(y);
  }

  /** The years and the days in the year from which JulianDate makes the number. */
  lemma InYear(date: Date, a: int, y: int, m: int, inYear: int)
    requires InCalendar(date) && a == CDiv(14 - date.month, 12)
    requires y == date.year + 4800 - a && m == date.month + 12 * a - 3 && inYear == date.day + CDiv(153 * m + 2, 5)
    ensures 0 <= a <= 1 && 0 <= m <= 11 && 0 <= y && 1 <= inYear <= 400
    ensures Number(date) == inYear + y * 365 + CDiv(y, 4) - CDiv(y, 100) + CDiv(y, 400) - 32045
  {
  }

  /** For calendar dates up to LAST_JDAY no intermediate value of JulianDate leaves 32 bits either; so between the
      first day and the last the two are inverse in 32 bits. */
  lemma JulianDateFits(date: Date, a: int, y: int, m: int, inYear: int)
    requires InCalendar(date) && Number(date) <= LAST_JDAY && a == CDiv(14 - date.month, 12)
    requires y == date.year + 4800 - a && m == date.month + 12 * a - 3 && inYear == date.day + CDiv(153 * m + 2, 5)
    ensures Fits(date.year + 4800) && 0 <= y && Fits(date.month + 12 * a) && Fits(153 * m + 2)
    ensures SumsFit(y, inYear) && Fits(Number(date))
  {
    InYear(date, a, y, m, inYear);
    YearsBound(y);
    assert y <= 1470932;
    YearsFit(y, inYear);
  }
}
