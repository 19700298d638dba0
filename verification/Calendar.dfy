/** Calendar arithmetic: the closed day formulas against a Gregorian calendar counted one day at a
    time. */
module Calendar {
  import opened Octets
  import opened Time

  datatype Date = Date(year: int, month: int, day: int)

  predicate Leap(year: int) {
    year % 4 == 0 && (year % 100 != 0 || year % 400 == 0)
  }

  function MonthLength(year: int, month: int): int {
    if month == 2 then (if Leap(year) then 29 else 28)
    else if month in {4, 6, 9, 11} then 30
    else 31
  }

  predicate Valid(date: Date) {
    1 <= date.month <= 12 && 1 <= date.day <= MonthLength(date.year, date.month)
  }

  function NextDay(date: Date): Date {
    if date.day < MonthLength(date.year, date.month) then date.(day := date.day + 1)
    else if date.month < 12 then Date(date.year, date.month + 1, 1)
    else Date(date.year + 1, 1, 1)
  }

  /** The calendar, one day at a time from 1970-01-01. */
  function DayByDay(days: nat): Date {
    if days == 0 then Date(1970, 1, 1) else NextDay(DayByDay(days - 1))
  }

  // ---- the formulas ----

  /** Years begin on the first of March here, and are counted within an era of 400. */
  function YearOfEra(doe: int): int {
    (doe - doe / 1460 + doe / 36_524 - doe / 146_096) / 365
  }

  /** The date of a March year's day. */
  function DateOf(marchYear: int, dayOfYear: int): Date {
    var mp := (5 * dayOfYear + 2) / 153;
    var d := dayOfYear - (153 * mp + 2) / 5 + 1;
    var m := if mp < 10 then mp + 3 else mp - 9;
    Date(if m <= 2 then marchYear + 1 else marchYear, m, d)
  }

  /** The date `days` days after 1970-01-01. */
  function CivilFromDays(days: nat): Date {
    var z := days + 719_468;
    var era, doe := z / 146_097, z % 146_097;
    var yoe := YearOfEra(doe);
    var doy := doe - (365 * yoe + yoe / 4 - yoe / 100);
    DateOf(yoe + era * 400, doy)
  }

  /** Date, hour, minute and second of a Unix time. */
  function CivilFromUnix(secs: U32): (Date, int, int, int) {
    var rem := secs % 86_400;
    (CivilFromDays(secs / 86_400), rem / 3600, rem / 60 % 60, rem % 60)
  }

  // ---- March years ----

  /** The number of days before March year `y`. */
  function YearStart(y: int): int {
    365 * y + y / 4 - y / 100 + y / 400
  }

  /** One more year: one leap day more, or not. */
  function LeapStep(y: int): int {
    (if (y + 1) % 4 == 0 then 1 else 0) - (if (y + 1) % 100 == 0 then 1 else 0) + (if (y + 1) % 400 == 0 then 1 else 0)
  }

  lemma YearLength(y: int)
    ensures YearStart(y + 1) == YearStart(y) + (if Leap(y + 1) then 366 else 365)
  {
    hide Leap, LeapStep;
    YearAdds(y);
    LeapStepIs(y);
  }

  lemma YearAdds(y: int)
    ensures YearStart(y + 1) == YearStart(y) + 365 + LeapStep(y)
  {
    Steps(y, 4);
    Steps(y, 100);
    Steps(y, 400);
  }

  lemma LeapStepIs(y: int)
    ensures LeapStep(y) == if Leap(y + 1) then 1 else 0
  {
    Divides(y + 1, 400, 100);
    Divides(y + 1, 100, 4);
  }

  lemma Divides(y: int, n: int, m: int)
    requires (n == 400 && m == 100) || (n == 100 && m == 4)
    ensures y % n == 0 ==> y % m == 0
  {
    if y % n == 0 {
      assert y == m * (n / m * (y / n));
    }
  }

  lemma Steps(y: int, n: int)
    requires n in {4, 100, 400}
    ensures (y + 1) / n == y / n + (if (y + 1) % n == 0 then 1 else 0)
  {
    if n == 4 {
    } else if n == 100 {
    } else {
    }
  }

  lemma {:induction false} YearStartMono(y: int, later: int)
    requires y <= later
    ensures YearStart(y) <= YearStart(later)
    decreases later - y
  {
    if y < later {
      YearLength(y);
      YearStartMono(y + 1, later);
    }
  }

  /** A day of an era as a century, a four-year cycle and a day of that cycle. */
  predicate Cycles(doe: int, c: int, f: int, d: int) {
    && doe == 36_524 * c + 1461 * f + d && 0 <= c <= 3 && 0 <= f <= 24 && 0 <= d <= 1460
    && (f == 24 && d == 1460 ==> c == 3)
  }

  lemma CyclesExist(doe: int) returns (c: int, f: int, d: int)
    requires 0 <= doe < 146_097
    ensures Cycles(doe, c, f, d)
  {
    c := if doe / 36_524 > 3 then 3 else doe / 36_524;
    var doc := doe - 36_524 * c;
    f, d := doc / 1461, doc % 1461;
  }

  /** The year of the cycle a day of the cycle is in: the fourth takes the extra day. */
  function YearOfCycle(d: int): int {
    if d == 1460 then 3 else d / 365
  }

  lemma DivIs(x: int, m: int, q: int, r: int)
    requires m in {365, 1460, 36_524, 146_096} && x == m * q + r && 0 <= r < m
    ensures x / m == q
  {
  }

  lemma Quotients(doe: int, c: int, f: int, d: int)
    requires Cycles(doe, c, f, d)
    ensures doe / 1460 == 25 * c + f + (if d >= 1460 - 24 * c - f then 1 else 0)
    ensures doe / 36_524 - doe / 146_096 == c
  {
    var e := if d >= 1460 - 24 * c - f then 1 else 0;
    DivIs(doe, 1460, 25 * c + f + e, 24 * c + f + d - 1460 * e);
    if f == 24 && d == 1460 {
      DivIs(doe, 36_524, 4, 0);
      DivIs(doe, 146_096, 1, 0);
    } else {
      DivIs(doe, 36_524, c, 1461 * f + d);
      DivIs(doe, 146_096, 0, doe);
    }
  }

  /** The formula's year of the era is the right one. */
  lemma YearOfEraIs(doe: int, c: int, f: int, d: int)
    requires Cycles(doe, c, f, d)
    ensures YearOfEra(doe) == 100 * c + 4 * f + YearOfCycle(d)
  {
    Quotients(doe, c, f, d);
    var e := if d >= 1460 - 24 * c - f then 1 else 0;
    assert doe - doe / 1460 + doe / 36_524 - doe / 146_096 == 365 * (100 * c + 4 * f) + d - e;
  }

  /** Within an era: the year begins at or before the day, less than a year before it. */
  lemma YearOfEraContains(doe: int)
    requires 0 <= doe < 146_097
    ensures var yoe := YearOfEra(doe); var doy := doe - (365 * yoe + yoe / 4 - yoe / 100);
            0 <= yoe < 400 && 0 <= doy < (if Leap(yoe + 1) then 366 else 365)
  {
    hide YearOfEra, YearOfCycle, Leap;
    var c, f, d := CyclesExist(doe);
    YearOfEraIs(doe, c, f, d);
    LastDayOnlyWhenLeap(c, f, d);
    var k := YearOfCycle(d);
    var yoe := 100 * c + 4 * f + k;
    assert yoe / 4 == 25 * c + f && yoe / 100 == c;
  }

  /** Every day number lies in the March year the formulas put it in. */
  lemma YearContains(z: nat)
    ensures var era, doe := z / 146_097, z % 146_097;
            var yoe := YearOfEra(doe); var y := yoe + era * 400;
            && 0 <= yoe < 400 && doe - (365 * yoe + yoe / 4 - yoe / 100) == z - YearStart(y)
            && YearStart(y) <= z < YearStart(y + 1)
  {
    hide YearOfEra, Leap, YearStart;
    var era, doe := z / 146_097, z % 146_097;
    var yoe := YearOfEra(doe);
    YearOfEraContains(doe);
    EraShift(yoe, era);
    YearLength(yoe + era * 400);
    LeapInEra(yoe, era);
  }

  lemma EraShift(yoe: int, era: nat)
    requires 0 <= yoe < 400
    ensures YearStart(yoe + era * 400) == 365 * yoe + yoe / 4 - yoe / 100 + era * 146_097
  {
    assert (yoe + era * 400) / 4 == yoe / 4 + era * 100;
    assert (yoe + era * 400) / 100 == yoe / 100 + era * 4;
    assert (yoe + era * 400) / 400 == era;
  }

  lemma LeapInEra(yoe: int, era: nat)
    requires 0 <= yoe < 400
    ensures Leap(yoe + era * 400 + 1) == Leap(yoe + 1)
  {
    SameRemainder(yoe + 1, era * 100, 4);
    SameRemainder(yoe + 1, era * 4, 100);
    SameRemainder(yoe + 1, era, 400);
  }

  lemma SameRemainder(y: int, k: int, n: int)
    requires n in {4, 100, 400}
    ensures (y + k * n) % n == y % n
  {
  }

  lemma LastDayOnlyWhenLeap(c: int, f: int, d: int)
    requires 0 <= c <= 3 && 0 <= f <= 24 && 0 <= d <= 1460 && (f == 24 && d == 1460 ==> c == 3)
    ensures var k := YearOfCycle(d);
            && 0 <= k <= 3 && 0 <= d - 365 * k <= 365
            && (d - 365 * k == 365 ==> Leap(100 * c + 4 * f + k + 1))
  {
    if d == 1460 {
      assert (100 * c + 4 * f + 4) % 4 == 0;
      if f < 24 {
        assert (100 * c + 4 * f + 4) % 100 == 4 * f + 4;
      } else {
        assert 100 * c + 4 * f + 4 == 400;
      }
    }
  }

  /** A day number lies in one March year only. */
  lemma YearUnique(z: int, y: int, other: int)
    requires YearStart(y) <= z < YearStart(y + 1) && YearStart(other) <= z < YearStart(other + 1)
    ensures y == other
  {
    if y < other {
      YearStartMono(y + 1, other);
    } else if other < y {
      YearStartMono(other + 1, y);
    }
  }

  lemma CivilIs(days: nat, y: int)
    requires YearStart(y) <= days + 719_468 < YearStart(y + 1)
    ensures CivilFromDays(days) == DateOf(y, days + 719_468 - YearStart(y))
  {
    hide YearStart, YearOfEra, DateOf;
    var z := days + 719_468;
    YearContains(z);
    YearUnique(z, YearOfEra(z % 146_097) + z / 146_097 * 400, y);
  }

  // ---- days of a March year ----

  /** The days of a March year before its month `mp`. */
  function MonthStart(mp: int): int {
    (153 * mp + 2) / 5
  }

  /** The formula finds the month a day is in. */
  lemma MonthIs(doy: int, mp: int)
    requires MonthStart(mp) <= doy < MonthStart(mp + 1)
    ensures (5 * doy + 2) / 153 == mp
  {
    assert 153 * mp <= 5 * doy + 2 < 153 * (mp + 1);
  }

  lemma MonthContains(doy: int)
    requires 0 <= doy <= 365
    ensures var mp := (5 * doy + 2) / 153; 0 <= mp <= 11 && MonthStart(mp) <= doy < MonthStart(mp + 1)
  {
    var mp := (5 * doy + 2) / 153;
    assert 153 * mp <= 5 * doy + 2 < 153 * (mp + 1);
  }

  /** The months of a March year but the last are as long as they should be. */
  lemma MonthDays(mp: int, year: int)
    requires 0 <= mp <= 10
    ensures MonthStart(mp + 1) - MonthStart(mp) == MonthLength(year, if mp < 10 then mp + 3 else mp - 9)
    ensures MonthStart(0) == 0 && MonthStart(11) == 337
  {
    hide Leap;
  }

  /** Within a March year the date moves on by one day, in a valid month. */
  lemma DateSteps(y: int, doy: int)
    requires 0 <= doy < (if Leap(y + 1) then 366 else 365)
    ensures Valid(DateOf(y, doy))
    ensures NextDay(DateOf(y, doy)) == if doy + 1 < (if Leap(y + 1) then 366 else 365) then DateOf(y, doy + 1)
                                       else Date(y + 1, 3, 1)
  {
    hide Leap, MonthStart, DateOf;
    MonthContains(doy);
    var mp := (5 * doy + 2) / 153;
    DayOfMonth(y, doy, mp);
    MonthDays(if mp <= 10 then mp else 0, if mp < 10 then y else y + 1);
    if doy + 1 < MonthStart(mp + 1) {
      MonthIs(doy + 1, mp);
      DayOfMonth(y, doy + 1, mp);
    } else if mp <= 10 {
      MonthDays(if mp < 10 then mp + 1 else 0, y);
      NextMonthStarts(mp);
      MonthIs(doy + 1, mp + 1);
      DayOfMonth(y, doy + 1, mp + 1);
    }
    LastMonth();
    FirstOfMarch(y);
  }

  lemma FirstOfMarch(y: int)
    ensures DateOf(y, 0) == Date(y, 3, 1)
  {
  }

  lemma DayOfMonth(y: int, doy: int, mp: int)
    requires (5 * doy + 2) / 153 == mp
    ensures DateOf(y, doy)
            == Date(if mp < 10 then y else y + 1, if mp < 10 then mp + 3 else mp - 9, doy - MonthStart(mp) + 1)
               || mp > 11 || mp < 0
  {
  }

  lemma NextMonthStarts(mp: int)
    ensures MonthStart(mp + 1) < MonthStart(mp + 2)
  {
  }

  lemma LastMonth()
    ensures MonthStart(12) == 367 && MonthStart(11) == 337
  {
  }

  // ---- the formulas are right ----

  lemma FirstDay()
    ensures CivilFromDays(0) == Date(1970, 1, 1)
  {
  }

  lemma CivilSteps(days: nat)
    ensures Valid(CivilFromDays(days)) && CivilFromDays(days + 1) == NextDay(CivilFromDays(days))
  {
    hide YearStart, YearOfEra, DateOf, CivilFromDays, Leap;
    var z := days + 719_468;
    YearContains(z);
    var y := YearOfEra(z % 146_097) + z / 146_097 * 400;
    YearLength(y);
    YearLength(y + 1);
    CivilIs(days, y);
    DateSteps(y, z - YearStart(y));
    if z + 1 < YearStart(y + 1) {
      CivilIs(days + 1, y);
    } else {
      CivilIs(days + 1, y + 1);
      FirstOfMarch(y + 1);
    }
  }

  /** For every day number the formulas give the date of the calendar counted one day at a time,
      and it is a valid date. */
  lemma {:induction false} FormulasAreTheCalendar(days: nat)
    ensures CivilFromDays(days) == DayByDay(days) && Valid(DayByDay(days))
  {
    hide CivilFromDays, NextDay, Valid;
    FirstDay();
    if days > 0 {
      FormulasAreTheCalendar(days - 1);
      CivilSteps(days - 1);
    }
    CivilSteps(days);
  }

  /** A Unix time is its date's day number and its time of day, each part in range. */
  lemma UnixTimeSplits(secs: U32)
    ensures var (date, h, m, s) := CivilFromUnix(secs);
            && date == DayByDay(secs / 86_400) && Valid(date)
            && 0 <= h < 24 && 0 <= m < 60 && 0 <= s < 60
            && secs == secs / 86_400 * 86_400 + h * 3600 + m * 60 + s
  {
    hide CivilFromDays, Valid;
    FormulasAreTheCalendar(secs / 86_400);
  }

  /** The epoch of MMS times is the first of January 1984. */
  lemma EpochIs1984()
    ensures DayByDay(MMS_EPOCH_DAYS) == Date(1984, 1, 1)
    ensures FIRST_ENTRY_TIME.ToUnixMillis() == MMS_EPOCH_DAYS * 24 * 60 * 60 * 1000
  {
    hide DayByDay, NextDay, Valid, CivilFromDays, YearOfEra, DateOf;
    FormulasAreTheCalendar(5113);
    CivilIs(5113, 1983);
    FirstOfJanuary(1983);
  }

  lemma FirstOfJanuary(y: int)
    ensures DateOf(y, 306) == Date(y + 1, 1, 1)
  {
  }
}
