/** The timestamp arithmetic of `time.rs`, against a calendar defined by leap years and month lengths alone. */
module Calendar {
  import Bits

  datatype Date = Date(year: int, month: int, day: int)
  datatype Clock = Clock(hour: int, minute: int, second: int)

  // ---- The computation ----

  function YearOfEra(doe: nat): nat {
    (doe - doe / 1460 + doe / 36524 - doe / 146096) / 365
  }

  /** Days since 1970-01-01 to a date, as computed (the day count is never negative, so neither is z). */
  function Civil(days: nat): Date {
    var z := days + 719468;
    var era := z / 146097;
    CivilInEra(era, z - era * 146097)
  }

  /** The date of a day of an era of 400 years. */
  function CivilInEra(era: nat, doe: nat): Date {
    var yoe := YearOfEra(doe);
    var y := yoe + era * 400;
    var doy := doe - (365 * yoe + yoe / 4 - yoe / 100);
    var mp := (5 * doy + 2) / 153;
    var d := doy - (153 * mp + 2) / 5 + 1;
    var m := if mp < 10 then mp + 3 else mp - 9;
    Date(if m <= 2 then y + 1 else y, m, d)
  }

  function ClockOf(secs: nat): Clock {
    var tod := secs % 86400;
    Clock(tod / 3600, tod % 3600 / 60, tod % 60)
  }

  // ---- The calendar ----

  predicate IsLeap(y: int) {
    y % 4 == 0 && (y % 100 != 0 || y % 400 == 0)
  }

  function DaysIn(y: int, m: int): int {
    if m == 2 then if IsLeap(y) then 29 else 28
    else if m == 4 || m == 6 || m == 9 || m == 11 then 30
    else 31
  }

  predicate ValidDate(d: Date) {
    1 <= d.month <= 12 && 1 <= d.day <= DaysIn(d.year, d.month)
  }

  /** The day after. */
  function NextDate(d: Date): Date {
    if d.day < DaysIn(d.year, d.month) then d.(day := d.day + 1)
    else if d.month < 12 then Date(d.year, d.month + 1, 1)
    else Date(d.year + 1, 1, 1)
  }

  /** The date n days after the epoch, counted one day at a time. */
  function CountedDate(n: nat): Date {
    if n == 0 then Date(1970, 1, 1) else NextDate(CountedDate(n - 1))
  }

  // ---- Years that start in March ----

  /** Days of the era before its year y. */
  function YearStart(y: nat): nat
    requires y <= 400
  {
    if y == 400 then 146097 else 365 * y + y / 4 - y / 100
  }

  function MonthStart(mp: nat): nat {
    (153 * mp + 2) / 5
  }

  /** The day count the year formula divides by 365. */
  function Flat(doe: nat): int {
    doe - doe / 1460 + doe / 36524 - doe / 146096
  }

  lemma FlatMonotone(x: nat, y: nat)
    requires x <= y < 146097
    ensures Flat(x) <= Flat(y)
  {
    assert x - x / 1460 <= y - y / 1460;
    assert x / 36524 <= y / 36524;
    assert x / 146096 <= y / 146096 <= 1;
    if y == 146096 {
      assert Flat(y) == 145999;
      assert x < y ==> x - x / 1460 <= 145995;
    }
  }

  /** At the start of each year the formula counts exactly 365 days per year, and one day earlier it counts less. */
  lemma FlatAtYear(y: nat)
    requires y < 400
    ensures Flat(YearStart(y)) == 365 * y
    ensures y > 0 ==> YearStart(y) > 0 && Flat(YearStart(y) - 1) < 365 * y
  {
    var a, c := y / 4, y / 100;
    var s := YearStart(y);
    QuarterOf(y);
    CenturyOf(y);
    assert s / 146096 == 0;
    if y > 0 {
      assert (s - 1) / 36524 <= s / 36524;
      assert (s - 1) / 146096 == 0;
    }
  }

  lemma QuarterOf(y: nat)
    requires y < 400
    ensures YearStart(y) / 1460 == y / 4
    ensures y > 0 ==> YearStart(y) > 0 && (YearStart(y) - 1) / 1460 == y / 4
  {
    var a, b, c := y / 4, y % 4, y / 100;
    assert YearStart(y) == 1460 * a + (365 * b + a - c);
    assert c <= a && (a > 0 ==> c < a);
  }

  lemma CenturyOf(y: nat)
    requires y < 400
    ensures YearStart(y) / 36524 == y / 100
  {
    var c, e := y / 100, y % 100;
    assert y / 4 == 25 * c + e / 4;
    assert YearStart(y) == 36524 * c + (365 * e + e / 4);
  }

  /** The formula finds the year of the era that contains the day. */
  lemma YearFound(doe: nat)
    requires doe < 146097
    ensures YearOfEra(doe) < 400 && YearStart(YearOfEra(doe)) <= doe < YearStart(YearOfEra(doe) + 1)
  {
    var y := YearOfEra(doe);
    FlatMonotone(doe, 146096);
    assert Flat(146096) == 145999;
    FlatMonotone(0, doe);
    assert y < 400;
    FlatAtYear(y);
    if doe < YearStart(y) {
      FlatMonotone(doe, YearStart(y) - 1);
      assert false;
    }
    if y < 399 && doe >= YearStart(y + 1) {
      FlatAtYear(y + 1);
      FlatMonotone(YearStart(y + 1), doe);
      assert false;
    }
  }

  /** A March year is 366 days long exactly when the February at its end is in a leap year. */
  lemma YearLength(era: nat, y: nat)
    requires y < 400
    ensures YearStart(y + 1) - YearStart(y) == if IsLeap(400 * era + y + 1) then 366 else 365
  {
    var n := y + 1;
    EraIrrelevant(era, n);
    Multiples(y, 4);
    Multiples(y, 100);
  }

  /** The leap rule repeats every 400 years. */
  lemma EraIrrelevant(era: nat, n: nat)
    ensures IsLeap(400 * era + n) == IsLeap(n)
  {
    AddMultiple(n, 4, 100 * era);
    AddMultiple(n, 100, 4 * era);
    AddMultiple(n, 400, era);
  }

  lemma {:induction false} AddMultiple(n: nat, m: nat, k: nat)
    requires m > 0
    ensures (m * k + n) % m == n % m
  {
    var q, r := n / m, n % m;
    assert m * k + n == (k + q) * m + r;
    Bits.DivUnique(m * k + n, m, k + q, r);
  }

  /** Between y and y + 1 lies a multiple of m exactly when y + 1 is one. */
  lemma Multiples(y: nat, m: nat)
    requires m == 4 || m == 100
    ensures (y + 1) / m - y / m == if (y + 1) % m == 0 then 1 else 0
  {
  }

  lemma {:induction false} YearStartMonotone(x: nat, y: nat)
    requires x <= y <= 400
    ensures YearStart(x) <= YearStart(y)
  {
    if x < y {
      YearStartMonotone(x, y - 1);
      YearLength(0, y - 1);
    }
  }

  lemma YearUnique(doe: nat, y: nat)
    requires doe < 146097 && y < 400 && YearStart(y) <= doe < YearStart(y + 1)
    ensures YearOfEra(doe) == y
  {
    YearFound(doe);
    var z := YearOfEra(doe);
    if z < y { YearStartMonotone(z + 1, y); }
  }

  /** The date at day doy of March year y of an era. */
  function DateOf(era: nat, y: nat, doy: nat): Date {
    var mp := (5 * doy + 2) / 153;
    var d := doy - MonthStart(mp) + 1;
    var m := if mp < 10 then mp + 3 else mp - 9;
    Date(if m <= 2 then y + era * 400 + 1 else y + era * 400, m, d)
  }

  /** The code's date in those coordinates. */
  lemma CivilCoordinates(days: nat, era: nat, y: nat, doy: nat)
    requires y < 400 && days + 719468 == 146097 * era + YearStart(y) + doy && YearStart(y) + doy < YearStart(y + 1)
    ensures Civil(days) == DateOf(era, y, doy)
  {
    YearStartMonotone(y + 1, 400);
    CivilAt(days, era, YearStart(y) + doy);
    EraCoordinates(era, y, doy);
  }

  lemma CivilAt(days: nat, era: nat, doe: nat)
    requires days + 719468 == 146097 * era + doe && doe < 146097
    ensures Civil(days) == CivilInEra(era, doe)
  {
    Bits.DivUnique(days + 719468, 146097, era, doe);
  }

  lemma EraCoordinates(era: nat, y: nat, doy: nat)
    requires y < 400 && YearStart(y) + doy < YearStart(y + 1)
    ensures CivilInEra(era, YearStart(y) + doy) == DateOf(era, y, doy)
  {
    YearStartMonotone(y + 1, 400);
    YearUnique(YearStart(y) + doy, y);
  }

  /** The month formula finds the month that contains the day. */
  lemma MonthFound(doy: nat)
    requires doy < 366
    ensures var mp := (5 * doy + 2) / 153;
            mp <= 11 && MonthStart(mp) <= doy < MonthStart(mp + 1)
  {
  }

  lemma MonthUnique(doy: nat, mp: nat)
    requires MonthStart(mp) <= doy < MonthStart(mp + 1)
    ensures (5 * doy + 2) / 153 == mp
  {
  }

  /** Month lengths counted from March, except for February. */
  lemma MonthLength(year: int, mp: nat)
    requires mp <= 10
    ensures MonthStart(mp + 1) - MonthStart(mp) == DaysIn(year, if mp < 10 then mp + 3 else mp - 9)
  {
    assert MonthStart(0) == 0 && MonthStart(1) == 31 && MonthStart(2) == 61 && MonthStart(3) == 92;
    assert MonthStart(4) == 122 && MonthStart(5) == 153 && MonthStart(6) == 184 && MonthStart(7) == 214;
    assert MonthStart(8) == 245 && MonthStart(9) == 275 && MonthStart(10) == 306 && MonthStart(11) == 337;
  }

  lemma DateOfValid(era: nat, y: nat, doy: nat)
    requires y < 400 && doy < YearStart(y + 1) - YearStart(y)
    ensures ValidDate(DateOf(era, y, doy))
  {
    YearLength(era, y);
    MonthFound(doy);
    var mp, date := (5 * doy + 2) / 153, DateOf(era, y, doy);
    if mp <= 10 { MonthLength(date.year, mp); }
  }

  /** Within a March year, the next day of the year is the next date. */
  lemma NextInYear(era: nat, y: nat, doy: nat)
    requires y < 400 && doy + 1 < YearStart(y + 1) - YearStart(y)
    ensures DateOf(era, y, doy + 1) == NextDate(DateOf(era, y, doy))
  {
    YearLength(era, y);
    MonthFound(doy);
    var mp, date := (5 * doy + 2) / 153, DateOf(era, y, doy);
    if mp <= 10 { MonthLength(date.year, mp); }
    if doy + 1 < MonthStart(mp + 1) {
      MonthUnique(doy + 1, mp);
    } else {
      MonthUnique(doy + 1, mp + 1);
    }
  }

  /** After the last day of a March year comes the first of March. */
  lemma NextYear(era: nat, y: nat, doy: nat)
    requires y < 400 && doy + 1 == YearStart(y + 1) - YearStart(y)
    ensures NextDate(DateOf(era, y, doy)) == Date(400 * era + y + 1, 3, 1)
  {
    YearLength(era, y);
    MonthUnique(doy, 11);
  }

  /** The coordinates of a day count. */
  lemma Coordinates(days: nat) returns (era: nat, y: nat, doy: nat)
    ensures y < 400 && days + 719468 == 146097 * era + YearStart(y) + doy && YearStart(y) + doy < YearStart(y + 1)
    ensures Civil(days) == DateOf(era, y, doy)
  {
    era := (days + 719468) / 146097;
    var doe := (days + 719468) % 146097;
    y := YearOfEra(doe);
    YearFound(doe);
    doy := doe - YearStart(y);
    CivilCoordinates(days, era, y, doy);
  }

  /** One day later in the same coordinates. */
  lemma NextCoordinates(era: nat, y: nat, doy: nat) returns (era': nat, y': nat, doy': nat)
    requires y < 400 && YearStart(y) + doy < YearStart(y + 1)
    ensures y' < 400 && YearStart(y') + doy' < YearStart(y' + 1)
    ensures 146097 * era' + YearStart(y') + doy' == 146097 * era + YearStart(y) + doy + 1
    ensures DateOf(era', y', doy') == NextDate(DateOf(era, y, doy))
  {
    if YearStart(y) + doy + 1 < YearStart(y + 1) {
      era', y', doy' := era, y, doy + 1;
      NextInYear(era, y, doy);
    } else {
      NextYear(era, y, doy);
      era', y', doy' := if y < 399 then era else era + 1, if y < 399 then y + 1 else 0, 0;
      YearLength(era', y');
      MonthUnique(0, 0);
    }
  }

  /** Consecutive day numbers are consecutive calendar dates. */
  lemma CivilNext(days: nat)
    ensures Civil(days + 1) == NextDate(Civil(days))
  {
    var era, y, doy := Coordinates(days);
    var era', y', doy' := NextCoordinates(era, y, doy);
    CivilCoordinates(days + 1, era', y', doy');
  }

  lemma CivilEpoch()
    ensures Civil(0) == Date(1970, 1, 1)
  {
    assert 719468 == 146097 * 4 + YearStart(369) + 306;
    CivilCoordinates(0, 4, 369, 306);
  }

  /** For every day count the formula gives a valid calendar date. */
  lemma CivilValid(days: nat)
    ensures ValidDate(Civil(days))
  {
    var era, y, doy := Coordinates(days);
    DateOfValid(era, y, doy);
  }

  /** Any dating that starts at the epoch and steps day by day is the counted one. */
  lemma {:induction false} SteppingIsCounting(dating: nat -> Date, days: nat)
    requires dating(0) == Date(1970, 1, 1) && forall n: nat :: dating(n + 1) == NextDate(dating(n))
    ensures dating(days) == CountedDate(days)
  {
    if days > 0 {
      SteppingIsCounting(dating, days - 1);
      assert dating(days - 1 + 1) == NextDate(dating(days - 1));
    }
  }

  /** It is the date reached by counting days from the epoch. */
  lemma CivilIsCalendar(days: nat)
    ensures Civil(days) == CountedDate(days)
  {
    CivilEpoch();
    forall n: nat ensures Civil(n + 1) == NextDate(Civil(n)) { CivilNext(n); }
    SteppingIsCounting(Civil, days);
  }

  // ---- Back from a date to a timestamp ----

  function YearDays(y: int): int {
    if IsLeap(y) then 366 else 365
  }

  /** Days from 1970-01-01 to the first of January of year y. */
  function DaysBeforeYear(y: int): int
    requires y >= 1970
    decreases y
  {
    if y == 1970 then 0 else DaysBeforeYear(y - 1) + YearDays(y - 1)
  }

  function DaysBeforeMonth(y: int, m: int): int
    requires 1 <= m <= 12
    decreases m
  {
    if m == 1 then 0 else DaysBeforeMonth(y, m - 1) + DaysIn(y, m - 1)
  }

  function DayNumber(d: Date): int
    requires d.year >= 1970 && 1 <= d.month <= 12
  {
    DaysBeforeYear(d.year) + DaysBeforeMonth(d.year, d.month) + d.day - 1
  }

  lemma DecemberStart(y: int)
    ensures DaysBeforeMonth(y, 12) + 31 == YearDays(y)
  {
    assert DaysBeforeMonth(y, 3) == 31 + DaysIn(y, 2);
    assert DaysBeforeMonth(y, 6) == DaysBeforeMonth(y, 3) + 92;
    assert DaysBeforeMonth(y, 9) == DaysBeforeMonth(y, 6) + 92;
    assert DaysBeforeMonth(y, 12) == DaysBeforeMonth(y, 9) + 91;
  }

  lemma DayNumberNext(d: Date)
    requires d.year >= 1970 && ValidDate(d)
    ensures ValidDate(NextDate(d)) && NextDate(d).year >= 1970 && DayNumber(NextDate(d)) == DayNumber(d) + 1
  {
    DecemberStart(d.year);
  }

  lemma {:induction false} CountedNumber(days: nat)
    ensures var d := CountedDate(days); d.year >= 1970 && ValidDate(d) && DayNumber(d) == days
  {
    if days > 0 {
      CountedNumber(days - 1);
      DayNumberNext(CountedDate(days - 1));
    }
  }

  /** Converting the computed date back gives the day count. */
  lemma DayNumberRoundTrip(days: nat)
    ensures Civil(days).year >= 1970 && ValidDate(Civil(days)) && DayNumber(Civil(days)) == days
  {
    CivilIsCalendar(days);
    CountedNumber(days);
  }

  lemma ClockBack(secs: nat)
    ensures var c := ClockOf(secs);
            && 0 <= c.hour < 24 && 0 <= c.minute < 60 && 0 <= c.second < 60
            && secs == secs / 86400 * 86400 + c.hour * 3600 + c.minute * 60 + c.second
  {
    var tod := secs % 86400;
    assert tod % 60 == tod % 3600 % 60;
  }

  /** For every timestamp: a valid date and time of day that convert back to it. */
  lemma TimestampRoundTrip(secs: nat)
    ensures var d, c := Civil(secs / 86400), ClockOf(secs);
            && ValidDate(d) && 0 <= c.hour < 24 && 0 <= c.minute < 60 && 0 <= c.second < 60
            && d.year >= 1970
            && secs == DayNumber(d) * 86400 + c.hour * 3600 + c.minute * 60 + c.second
  {
    ClockBack(secs);
    DayNumberRoundTrip(secs / 86400);
  }
}
