/** Points in time as a Julian day number and milliseconds since midnight, and the addition of
    XML Schema durations (appendix E of XML Schema Part 2). */
module DateTime {
  import opened Calendar

  const MILLIS_PER_DAY: int := 86400000

  // ---------------------------------------------------------------- time of day

  function MakeHms(hour: int, minute: int, second: int, millis: int): int {
    1000 * (3600 * hour + 60 * minute + second) + millis
  }

  datatype Hms = Hms(hour: int, minute: int, second: int, millis: int)

  function GetHms(time: int): Hms {
    var ticks := CDiv(time, 1000);
    Hms(CDiv(ticks, 3600), CMod(CDiv(ticks, 60), 60), CMod(ticks, 60), CMod(time, 1000))
  }

  predicate ValidHms(t: Hms) {
    0 <= t.hour && 0 <= t.minute < 60 && 0 <= t.second < 60 && 0 <= t.millis < 1000
  }

  /** Taking a time apart and putting it together are inverse on all times from midnight on. */
  lemma TimeRoundTrip(time: int)
    requires time >= 0
    ensures var t := GetHms(time); ValidHms(t) && MakeHms(t.hour, t.minute, t.second, t.millis) == time
  {
    var ticks := time / 1000;
    assert ticks / 3600 == ticks / 60 / 60;
  }

  lemma HmsRoundTrip(t: Hms)
    requires ValidHms(t)
    ensures GetHms(MakeHms(t.hour, t.minute, t.second, t.millis)) == t
  {
    var time := MakeHms(t.hour, t.minute, t.second, t.millis);
    var ticks := 3600 * t.hour + 60 * t.minute + t.second;
    assert time / 1000 == ticks;
    assert ticks / 60 == 60 * t.hour + t.minute;
  }

  // ---------------------------------------------------------------- adding seconds

  datatype Stamp = Stamp(date: int, time: int)

  /** The instant, in milliseconds. */
  function Instant(s: Stamp): int {
    s.date * MILLIS_PER_DAY + s.time
  }

  function AddSeconds(s: Stamp, seconds: int): Stamp {
    var date := s.date + CDiv(seconds, 86400);
    var time := s.time + CMod(seconds, 86400) * 1000;
    if time > MILLIS_PER_DAY then Stamp(date + 1, CMod(time, MILLIS_PER_DAY))
    else if time < 0 then Stamp(date - 1, time + MILLIS_PER_DAY)
    else Stamp(date, time)
  }

  /** The instant moves by exactly the seconds added, forwards or backwards. The result is a time of day unless the
      sum within the day comes to exactly 24 hours, which is left as it is; from there, too, the next one is exact. */
  lemma AddSecondsExactly(s: Stamp, seconds: int)
    requires 0 <= s.time <= MILLIS_PER_DAY
    ensures var r := AddSeconds(s, seconds);
            && Instant(r) == Instant(s) + 1000 * seconds
            && 0 <= r.time <= MILLIS_PER_DAY
            && (r.time < MILLIS_PER_DAY <==> s.time + CMod(seconds, 86400) * 1000 != MILLIS_PER_DAY)
  {
    assert seconds == 86400 * CDiv(seconds, 86400) + CMod(seconds, 86400);
    assert -86400 < CMod(seconds, 86400) < 86400;
  }

  function AddAll(s: Stamp, additions: seq<int>): Stamp
    decreases |additions|
  {
    if additions == [] then s else AddAll(AddSeconds(s, additions[0]), additions[1..])
  }

  function Sum(additions: seq<int>): int {
    if additions == [] then 0 else additions[0] + Sum(additions[1..])
  }

  /** Any number of additions in any order moves the instant by their sum and never leaves the day by more than 24:00;
      so the end is the day and time of that instant, or 24:00 of the day before. */
  lemma {:induction false} AddAllExactly(s: Stamp, additions: seq<int>)
    requires 0 <= s.time <= MILLIS_PER_DAY
    ensures var r, end := AddAll(s, additions), Instant(s) + 1000 * Sum(additions);
            && Instant(r) == end && 0 <= r.time <= MILLIS_PER_DAY
            && r == if r.time < MILLIS_PER_DAY then Stamp(end / MILLIS_PER_DAY, end % MILLIS_PER_DAY)
                    else Stamp(end / MILLIS_PER_DAY - 1, MILLIS_PER_DAY)
    decreases |additions|
  {
    if additions == [] {
      StampOf(s);
    } else {
      AddSecondsExactly(s, additions[0]);
      AddAllExactly(AddSeconds(s, additions[0]), additions[1..]);
    }
  }

  lemma StampOf(s: Stamp)
    requires 0 <= s.time <= MILLIS_PER_DAY
    ensures s == if s.time < MILLIS_PER_DAY then Stamp(Instant(s) / MILLIS_PER_DAY, Instant(s) % MILLIS_PER_DAY)
                 else Stamp(Instant(s) / MILLIS_PER_DAY - 1, MILLIS_PER_DAY)
  {
  }

  /** One second before midnight plus one second is not the next midnight. */
  lemma MidnightExample(date: int)
    ensures AddSeconds(Stamp(date, MILLIS_PER_DAY - 1000), 1) == Stamp(date, MILLIS_PER_DAY) != Stamp(date + 1, 0)
  {
  }

  // ---------------------------------------------------------------- walking the months

  /** Days of the year before the month. */
  function DaysBefore(year: int, month: int): nat
    requires 1 <= month <= 12
  {
    if month == 1 then 0 else DaysBefore(year, month - 1) + DaysInMonth(year, month - 1)
  }

  /** The day number of day `day` counted from the first of the month, in or out of the month. */
  function Target(year: int, month: int, day: int): int {
    JulianDate(year, month, 1) + day - 1
  }

  /** Steps back of at least 28 days each do not lead below the year -4790, near the start of the calendar. */
  predicate Headroom(year: int, month: int, day: int) {
    28 * (12 * (year + 4789) + month) + day >= 0
  }

  /** The walk to day `day` of the month stays in the calendar. */
  predicate Walkable(year: int, month: int, day: int) {
    if day >= 1 then InCalendar(Date(year, month, 1)) else Headroom(year, month, day)
  }

  /** Months 0 down to -10 are the months of the year before, to the formula. */
  lemma MonthBelow(year: int, month: int)
    requires -10 <= month <= 0
    ensures Firsts(year, month) == Firsts(year - 1, month + 12)
  {
  }

  function BackMonth(year: int, month: int): (int, int) {
    var m := month - 1;
    (year + CDiv(m - 1, 12), CMod(m - 1, 12) + 1)
  }

  /** What one step back of `n` days does: right within the year; out of January it takes 28 days for December,
      and no later step makes up for it. */
  ghost predicate StepsBack(year: int, month: int, y: int, m: int, n: int) {
    && -10 <= m <= 12 && 12 * y + m == 12 * year + month - 1 && n >= 28
    && Firsts(y, m) + n <= Firsts(year, month)
    && (month >= 2 ==> y == year && m == month - 1 && n == DaysInMonth(y, m) && Firsts(y, m) + n == Firsts(year, month))
    && (month == 1 ==> Firsts(y, m) + n < Firsts(year, month))
  }

  /** The number of the first of the month. */
  function Firsts(year: int, month: int): int {
    JulianDate(year, month, 1)
  }

  lemma FirstsCount(year: int, month: int)
    requires InCalendar(Date(year, month, 1))
    ensures Firsts(NextMonth(year, month).year, NextMonth(year, month).month)
        == Firsts(year, month) + DaysInMonth(year, month)
  {
    MonthCounts(year, month);
  }

  lemma BackMonthIs(year: int, month: int)
    requires -10 <= month <= 12
    ensures BackMonth(year, month) == if month == -10 then (year - 1, 1) else (year, month - 1)
  {
  }

  lemma MaxDayBelow(year: int, month: int)
    requires -11 <= month <= 0
    ensures MaxDayInMonthFor(year, month) == if month == -11 then 31 else 28
  {
  }

  lemma BackInYear(year: int, month: int)
    requires 2 <= month <= 12 && year >= -4790
    ensures StepsBack(year, month, year, month - 1, DaysInMonth(year, month - 1))
  {
    FirstsCount(year, month - 1);
  }

  lemma BackBelow(year: int, month: int)
    requires -9 <= month <= 1 && year >= -4790
    ensures StepsBack(year, month, year, month - 1, 28)
  {
    FirstsCount(year - 1, month + 11);
    MonthBelow(year, month - 1);
    if month <= 0 { MonthBelow(year, month); }
  }

  lemma BackToJanuary(year: int)
    requires year >= -4790
    ensures StepsBack(year, -10, year - 1, 1, 31)
  {
    MonthBelow(year, -10);
    FirstsCount(year - 1, 1);
  }

  lemma BackStep(year: int, month: int) returns (y: int, m: int, n: int)
    requires -10 <= month <= 12 && year >= -4790
    ensures BackMonth(year, month) == (y, m) && n == MaxDayInMonthFor(year, month - 1) == MaxDayInMonthFor(y, m)
    ensures StepsBack(year, month, y, m, n)
  {
    BackMonthIs(year, month);
    if month >= 2 {
      y, m, n := year, month - 1, DaysInMonth(year, month - 1);
      MaxDayIsDaysInMonth(year, month - 1);
      BackInYear(year, month);
    } else if month >= -9 {
      y, m, n := year, month - 1, 28;
      MaxDayBelow(year, month - 1);
      BackBelow(year, month);
    } else {
      y, m, n := year - 1, 1, 31;
      MaxDayBelow(year, -11);
      MaxDayIsDaysInMonth(year - 1, 1);
      BackToJanuary(year);
    }
  }

  /** One step forward: right everywhere. */
  lemma ForwardStep(year: int, month: int)
    requires InCalendar(Date(year, month, 1))
    ensures var y, m := year + CDiv(month, 12), CMod(month, 12) + 1;
            && Date(y, m, 1) == NextMonth(year, month) && InCalendar(Date(y, m, 1))
            && MaxDayInMonthFor(year, month) == DaysInMonth(year, month)
            && JulianDate(y, m, 1) == JulianDate(year, month, 1) + MaxDayInMonthFor(year, month)
  {
    MaxDayIsDaysInMonth(year, month);
    MonthCounts(year, month);
  }

  /** A forward walk stays on its target day number. */
  ghost predicate Ahead(target: int, y: int, m: int, d: int) {
    d >= 1 && InCalendar(Date(y, m, 1)) && Target(y, m, d) == target
  }

  /** A walk back in the year `year`: still on the target with `left` days of the year left, ... */
  ghost predicate Within(year: int, target: int, left: int, y: int, m: int, d: int) {
    1 <= m <= 12 && y == year && d <= DaysInMonth(y, m) && Target(y, m, d) == target && d + DaysBefore(y, m) == left
  }

  /** ... or out of the year and for good below the target. */
  ghost predicate Astray(target: int, y: int, m: int, d: int) {
    -10 <= m <= 12 && d <= MaxDayInMonthFor(y, m) && Target(y, m, d) < target
  }

  lemma HeadroomStays(year: int, month: int, day: int, y: int, m: int, n: int)
    requires StepsBack(year, month, y, m, n) && Headroom(year, month, day)
    ensures Headroom(y, m, day + n)
    ensures Target(y, m, day + n) <= Target(year, month, day)
    ensures month >= 2 ==> Target(y, m, day + n) == Target(year, month, day)
    ensures month == 1 ==> Target(y, m, day + n) < Target(year, month, day)
  {
    assert Target(y, m, day + n) == Firsts(y, m) + n + day - 1
        && Target(year, month, day) == Firsts(year, month) + day - 1;
  }

  method StepForward(ghost target: int, year: int, month: int, day: int) returns (y: int, m: int, d: int)
    requires Ahead(target, year, month, day) && day > MaxDayInMonthFor(year, month)
    ensures Ahead(target, y, m, d) && d < day
  {
    ForwardStep(year, month);
    d := day - MaxDayInMonthFor(year, month);
    var shifted := month + 1;
    m := CMod(shifted - 1, 12) + 1;
    y := year + CDiv(shifted - 1, 12);
  }

  /** The turn of the loop that borrows the days of the month before. */
  method Borrow(year: int, month: int, day: int) returns (y: int, m: int, d: int)
    ensures (y, m) == BackMonth(year, month) && d == day + MaxDayInMonthFor(year, month - 1)
  {
    d := day + MaxDayInMonthFor(year, month - 1);
    var shifted := month - 1;
    m := CMod(shifted - 1, 12) + 1;
    y := year + CDiv(shifted - 1, 12);
  }

  method StepBack(year: int, month: int, day: int) returns (y: int, m: int, d: int)
    requires -10 <= month <= 12 && day < 1 && Headroom(year, month, day)
    ensures -10 <= m <= 12 && d > day && Headroom(y, m, d) && d <= MaxDayInMonthFor(y, m)
    ensures Target(y, m, d) <= Target(year, month, day)
    ensures month >= 2 ==> y == year && m == month - 1 && d == day + DaysInMonth(y, m)
    ensures month >= 2 ==> Target(y, m, d) == Target(year, month, day)
    ensures month == 1 ==> Target(y, m, d) < Target(year, month, day)
  {
    ghost var y0, m0, n0 := BackStep(year, month);
    HeadroomStays(year, month, day, y0, m0, n0);
    y, m, d := Borrow(year, month, day);
    assert y == y0 && m == m0 && d == day + n0;
  }

  /** The turns of the loop while the day is too large. */
  method WalkForward(year: int, month: int, day: int) returns (y: int, m: int, d: int)
    requires day >= 1 && InCalendar(Date(year, month, 1))
    ensures ValidDate(Date(y, m, d)) && Target(y, m, d) == Target(year, month, day)
  {
    y, m, d := year, month, day;
    ghost var target := Target(year, month, day);
    while d > MaxDayInMonthFor(y, m)
      invariant Ahead(target, y, m, d)
      decreases d
    {
      y, m, d := StepForward(target, y, m, d);
    }
    MaxDayIsDaysInMonth(y, m);
  }

  /** The turns of the loop while the day is too small; they end in the month, never beyond it. */
  method WalkBack(year: int, month: int, day: int) returns (y: int, m: int, d: int)
    requires day < 1 && 1 <= month <= 12 && Headroom(year, month, day)
    ensures 1 <= d <= MaxDayInMonthFor(y, m)
    ensures if day + DaysBefore(year, month) >= 1
            then 1 <= m <= 12 && Target(y, m, d) == Target(year, month, day)
            else Target(y, m, d) < Target(year, month, day)
  {
    ghost var target := Target(year, month, day);
    y, m, d := year, month, day;
    while d < 1 && m >= 2
      invariant Within(year, target, day + DaysBefore(year, month), y, m, d) && Headroom(y, m, d)
      invariant d < 1 || d <= MaxDayInMonthFor(y, m)
      decreases -d
    {
      y, m, d := StepBack(y, m, d);
    }
    if d < 1 {
      y, m, d := StepBack(y, m, d);
      while d < 1
        invariant Astray(target, y, m, d) && Headroom(y, m, d)
        decreases -d
      {
        y, m, d := StepBack(y, m, d);
      }
    }
  }

  /** Carries days into months until the day lies in its month. The result is the date with the wanted
      number exactly when the walk does not go back past the first of January. */
  method NormalizeDay(year: int, month: int, day: int) returns (y: int, m: int, d: int)
    requires 1 <= month <= 12 && Walkable(year, month, day)
    ensures Number(Date(y, m, d)) == Target(year, month, day) <==> day + DaysBefore(year, month) >= 1
    ensures day + DaysBefore(year, month) >= 1 ==> ValidDate(Date(y, m, d))
  {
    if day >= 1 {
      y, m, d := WalkForward(year, month, day);
    } else {
      y, m, d := WalkBack(year, month, day);
      if 1 <= m <= 12 { MaxDayIsDaysInMonth(y, m); }
    }
  }

  // ---------------------------------------------------------------- adding a duration

  datatype Duration = Duration(years: int, months: int, days: int, hours: int, minutes: int, seconds: int)

  /** The year and month of the end: months added, carried into years. */
  function EndMonth(start: Date, dur: Duration): (int, int) {
    var shifted := start.month + dur.months - 1;
    (start.year + dur.years + shifted / 12, shifted % 12 + 1)
  }

  /** The start day, no later than the last of the end month. */
  function ClampedDay(start: Date, dur: Duration): int {
    var (year, month) := EndMonth(start, dur);
    var last := DaysInMonth(year, month);
    if start.day > last then last else start.day
  }

  /** Years and months, counted in months, come out as the start's and the duration's together. */
  lemma MonthsConserve(start: Date, dur: Duration)
    ensures var (year, month) := EndMonth(start, dur);
            1 <= month <= 12 && 12 * year + month == 12 * (start.year + dur.years) + start.month + dur.months
  {
  }

  /** The clamped day is the last day of the end month that is not after the start day. */
  lemma ClampExactly(start: Date, dur: Duration, day: int)
    requires ValidDate(start)
    ensures var (year, month) := EndMonth(start, dur);
            && ValidDate(Date(year, month, ClampedDay(start, dur))) && ClampedDay(start, dur) <= start.day
            && (ValidDate(Date(year, month, day)) && day <= start.day ==> day <= ClampedDay(start, dur))
  {
    MonthsConserve(start, dur);
  }

  /** All seconds, from the midnight before the start. */
  function SecondsFrom(time: int, dur: Duration): int {
    time / 1000 + 3600 * dur.hours + 60 * dur.minutes + dur.seconds
  }

  /** The end in one formula, with no carries between the fields: clamp in the shifted month, add the days
      and the whole days of the seconds, keep the rest of the seconds. */
  function EndStamp(start: Date, time: int, dur: Duration): Stamp {
    var (year, month) := EndMonth(start, dur);
    var seconds := SecondsFrom(time, dur);
    Stamp(Target(year, month, ClampedDay(start, dur) + dur.days + seconds / 86400), 1000 * (seconds % 86400))
  }

  datatype Fields = Fields(hour: int, minute: int, second: int)

  /** Hours, minutes and seconds after the additions, each with the carry of the one before; none reduced yet. */
  function Cascade(time: int, dur: Duration): Fields {
    var t := GetHms(time);
    var second := t.second + dur.seconds;
    var minute := t.minute + dur.minutes + CDiv(second, 60);
    Fields(t.hour + dur.hours + CDiv(minute, 60), minute, second)
  }

  /** The days carried out of the hours. */
  function DayCarry(time: int, dur: Duration): int {
    CDiv(Cascade(time, dur).hour, 24)
  }

  /** The seconds that stay in the day, negative when one of the remainders is. */
  function SecondsLeft(time: int, dur: Duration): int {
    var f := Cascade(time, dur);
    3600 * CMod(f.hour, 24) + 60 * CMod(f.minute, 60) + CMod(f.second, 60)
  }

  /** Quotient and remainder of the truncating division. */
  lemma Sixty(a: int)
    ensures a == 60 * CDiv(a, 60) + CMod(a, 60) && -60 < CMod(a, 60) < 60
    ensures a >= 0 ==> CDiv(a, 60) >= 0 && CMod(a, 60) >= 0
  {
  }

  lemma TwentyFour(a: int)
    ensures a == 24 * CDiv(a, 24) + CMod(a, 24) && -24 < CMod(a, 24) < 24
    ensures a >= 0 ==> CDiv(a, 24) >= 0 && CMod(a, 24) >= 0
  {
  }

  lemma CascadeConserves(time: int, dur: Duration)
    requires time >= 0
    ensures var f := Cascade(time, dur);
            3600 * f.hour + 60 * CMod(f.minute, 60) + CMod(f.second, 60) == SecondsFrom(time, dur)
  {
    var t := GetHms(time);
    assert time / 1000 == 3600 * t.hour + 60 * t.minute + t.second by { TimeRoundTrip(time); }
    Sixty(Cascade(time, dur).second);
    Sixty(Cascade(time, dur).minute);
  }

  /** With nothing negative added nothing is borrowed. */
  lemma CarriesUp(time: int, dur: Duration)
    requires time >= 0 && dur.hours >= 0 && dur.minutes >= 0 && dur.seconds >= 0
    ensures DayCarry(time, dur) >= 0 && SecondsLeft(time, dur) >= 0
  {
    assert ValidHms(GetHms(time)) by { TimeRoundTrip(time); }
    var f := Cascade(time, dur);
    Sixty(f.second);
    Sixty(f.minute);
    TwentyFour(f.hour);
  }

  /** The three carries conserve the seconds, whatever the signs. Day carry and rest are quotient and remainder
      of one division exactly when the rest is not negative. */
  lemma CarriesConserve(time: int, dur: Duration)
    requires time >= 0
    ensures 86400 * DayCarry(time, dur) + SecondsLeft(time, dur) == SecondsFrom(time, dur)
    ensures -86400 < SecondsLeft(time, dur) < 86400
    ensures SecondsLeft(time, dur) >= 0 <==>
            DayCarry(time, dur) == SecondsFrom(time, dur) / 86400
              && SecondsLeft(time, dur) == SecondsFrom(time, dur) % 86400
  {
    CascadeConserves(time, dur);
    var f := Cascade(time, dur);
    Sixty(f.second);
    Sixty(f.minute);
    TwentyFour(f.hour);
    DividesOnce(SecondsFrom(time, dur), DayCarry(time, dur), SecondsLeft(time, dur));
  }

  lemma DividesOnce(total: int, quotient: int, rest: int)
    requires total == 86400 * quotient + rest && -86400 < rest < 86400
    ensures rest >= 0 <==> quotient == total / 86400 && rest == total % 86400
  {
  }

  /** Midnight less some seconds is left as a negative time of the same day. */
  lemma BorrowExample(time: int, dur: Duration)
    requires 0 <= time < 1000 && dur == Duration(0, 0, 0, 0, 0, dur.seconds) && -60 < dur.seconds < 0
    ensures DayCarry(time, dur) == 0 && SecondsLeft(time, dur) == dur.seconds
  {
    var t := GetHms(time);
    assert t.hour == t.minute == t.second == 0;
    assert Cascade(time, dur) == Fields(0, 0, dur.seconds) by { Sixty(dur.seconds); }
    Sixty(dur.seconds);
  }

  /** Adding nothing keeps the date and drops the milliseconds. */
  lemma ZeroDuration(s: Stamp)
    requires s.date >= -32044 && 0 <= s.time < MILLIS_PER_DAY
    ensures var r := EndStamp(GetYmd(s.date), s.time, Duration(0, 0, 0, 0, 0, 0));
            r == Stamp(s.date, 1000 * (s.time / 1000)) && (r == s <==> s.time % 1000 == 0)
  {
    NumberRoundTrip(s.date);
    var start := GetYmd(s.date);
    AddNothing(start, s.time);
  }

  lemma AddNothing(start: Date, time: int)
    requires InCalendar(start) && 0 <= time < MILLIS_PER_DAY
    ensures EndStamp(start, time, Duration(0, 0, 0, 0, 0, 0)) == Stamp(Number(start), 1000 * (time / 1000))
  {
    assert EndMonth(start, Duration(0, 0, 0, 0, 0, 0)) == (start.year, start.month);
    assert time / 1000 / 86400 == 0;
  }

  /** The first of January less one day: the code steps to month 0, takes it for 28 days long, and ends on
      the 28th of December, whatever the year. */
  lemma JanuaryExample(year: int)
    requires year > -4790
    ensures BackMonth(year, 1) == (year, 0) && MaxDayInMonthFor(year, 0) == 28
    ensures JulianDate(year, 0, 0 + 28) == Number(Date(year - 1, 12, 28)) == Target(year, 1, 0) - 3
  {
    MonthBelow(year, 0);
    MonthCounts(year - 1, 12);
  }

  /** The day the walk starts from, counted in the end month. */
  function EndDay(start: Date, time: int, dur: Duration): int {
    ClampedDay(start, dur) + dur.days + DayCarry(time, dur)
  }

  /** The added days do not lead out of the shifted year through its first day. */
  predicate StaysInYear(start: Date, time: int, dur: Duration) {
    var (year, month) := EndMonth(start, dur);
    EndDay(start, time, dur) + DaysBefore(year, month) >= 1
  }

  /** Negative months stay in the year of the start, and the walk over the days stays in the calendar. */
  predicate Reaches(start: Date, time: int, dur: Duration) {
    var (year, month) := EndMonth(start, dur);
    start.month + dur.months >= 1 && Walkable(year, month, EndDay(start, time, dur))
  }

  lemma MonthsUp(start: Date, dur: Duration)
    requires InCalendar(start) && dur.years >= 0 && dur.months >= 0
    ensures var (year, month) := EndMonth(start, dur); InCalendar(Date(year, month, 1)) && year >= start.year
    ensures ClampedDay(start, dur) >= 1
  {
  }

  /** So do all durations with nothing negative but days. */
  lemma NothingNegative(start: Date, time: int, dur: Duration)
    requires InCalendar(start) && time >= 0 && dur.years >= 0 && dur.months >= 0
    requires dur.hours >= 0 && dur.minutes >= 0 && dur.seconds >= 0
    requires dur.days < 0 ==> Headroom(start.year, start.month, dur.days)
    ensures Reaches(start, time, dur) && SecondsLeft(time, dur) >= 0
    ensures dur.days >= 0 ==> StaysInYear(start, time, dur)
  {
    MonthsUp(start, dur);
    CarriesUp(time, dur);
    assert EndDay(start, time, dur) >= 1 + dur.days;
  }

  /** Months, years and the clamped day. */
  method ShiftMonth(start: Date, dur: Duration) returns (endYear: int, endMonth: int, day: int)
    requires ValidDate(start) && start.month + dur.months >= 1
    ensures (endYear, endMonth) == EndMonth(start, dur) && day == ClampedDay(start, dur) >= 1
  {
    var month := start.month + dur.months;
    endMonth := CMod(month - 1, 12) + 1;
    endYear := start.year + dur.years + CDiv(month - 1, 12);
    day := ClampDay(start.day, endYear, endMonth);
  }

  method ClampDay(startDay: int, year: int, month: int) returns (day: int)
    requires 1 <= month <= 12 && startDay >= 1
    ensures day == if startDay > DaysInMonth(year, month) then DaysInMonth(year, month) else startDay
    ensures day >= 1
  {
    MaxDayIsDaysInMonth(year, month);
    var last := MaxDayInMonthFor(year, month);
    if startDay > last {
      day := last;
    } else if startDay < 1 {
      day := 1;
    } else {
      day := startDay;
    }
  }

  /** Seconds, minutes and hours with their carries. */
  method ShiftTime(time: int, dur: Duration) returns (carry: int, endTime: int)
    requires time >= 0
    ensures carry == DayCarry(time, dur) && endTime == 1000 * SecondsLeft(time, dur)
  {
    var t := GetHms(time);
    var sec := t.second + dur.seconds;
    var min := t.minute + dur.minutes + CDiv(sec, 60);
    var hour := t.hour + dur.hours + CDiv(min, 60);
    assert Cascade(time, dur) == Fields(hour, min, sec);
    carry := CDiv(hour, 24);
    endTime := MakeHms(CMod(hour, 24), CMod(min, 60), CMod(sec, 60), 0);
  }

  /** What the addition gives: the right instant exactly when the walk stays in the year, written as a day and
      a time of that day exactly when no second is borrowed. */
  ghost predicate Ends(start: Date, time: int, dur: Duration, end: Stamp) {
    && (Instant(end) == Instant(EndStamp(start, time, dur)) <==> StaysInYear(start, time, dur))
    && (0 <= end.time < MILLIS_PER_DAY <==> SecondsLeft(time, dur) >= 0)
    && (end.time == EndStamp(start, time, dur).time <==> SecondsLeft(time, dur) >= 0)
    && (end == EndStamp(start, time, dur) <==> StaysInYear(start, time, dur) && SecondsLeft(time, dur) >= 0)
  }

  lemma EndsWith(start: Date, time: int, dur: Duration, endDate: int, endTime: int)
    requires time >= 0 && endTime == 1000 * SecondsLeft(time, dur)
    requires var (year, month) := EndMonth(start, dur);
             endDate == Target(year, month, EndDay(start, time, dur)) <==> StaysInYear(start, time, dur)
    ensures Ends(start, time, dur, Stamp(endDate, endTime))
  {
    CarriesConserve(time, dur);
    var (year, month) := EndMonth(start, dur);
    var total := SecondsFrom(time, dur);
    var first := JulianDate(year, month, 1) + ClampedDay(start, dur) + dur.days - 1;
    assert EndStamp(start, time, dur) == Stamp(first + total / 86400, 1000 * (total % 86400));
    assert Instant(EndStamp(start, time, dur)) == MILLIS_PER_DAY * first + 1000 * total;
    assert Target(year, month, EndDay(start, time, dur)) == first + DayCarry(time, dur);
    assert Instant(Stamp(endDate, endTime)) == MILLIS_PER_DAY * (endDate - DayCarry(time, dur)) + 1000 * total;
  }

  method AddTo(start: Date, time: int, dur: Duration) returns (endDate: int, endTime: int)
    requires ValidDate(start) && time >= 0 && Reaches(start, time, dur)
    ensures Ends(start, time, dur, Stamp(endDate, endTime))
  {
    var endYear, endMonth, day := ShiftMonth(start, dur);
    var carry;
    carry, endTime := ShiftTime(time, dur);
    var y, m, d := NormalizeDay(endYear, endMonth, day + dur.days + carry);
    endDate := JulianDate(y, m, d);
    EndsWith(start, time, dur, endDate, endTime);
  }

  class DateTime {
    var date: int
    var time: int

    ghost function View(): Stamp
      reads this
    {
      Stamp(date, time)
    }

    constructor (date: int, time: int)
      ensures View() == Stamp(date, time)
    {
      this.date, this.time := date, time;
    }

    method PlusSeconds(seconds: int)
      modifies this
      ensures View() == AddSeconds(old(View()), seconds)
    {
      var d := CDiv(seconds, 86400);
      var s := CMod(seconds, 86400);
      date := date + d;
      time := time + s * 1000;
      if time > MILLIS_PER_DAY {
        date := date + 1;
        time := CMod(time, MILLIS_PER_DAY);
      } else if time < 0 {
        date := date - 1;
        time := time + MILLIS_PER_DAY;
      }
    }

    /** The instant comes out right exactly when the days do not lead back past the first of January of the
        shifted year, and the time is one of a day exactly when no second is borrowed.
        With nothing negative both hold. */
    method AddDuration(dur: Duration)
      requires date >= -32044 && time >= 0 && Reaches(GetYmd(date), time, dur)
      modifies this
      ensures Ends(GetYmd(old(date)), old(time), dur, View())
    {
      var start := GetYmd(date);
      NumberRoundTrip(date);
      date, time := AddTo(start, time, dur);
    }
  }
}
