/** The UTC stamp of a log line: the days-to-civil division formula and a
    Gregorian calendar stepped one day at a time
    (src-tauri/src/logging.rs:171-190). */
module Calendar {
  import Grids

  datatype Date = Date(year: int, month: int, day: int)

  datatype Stamp = Stamp(date: Date, hour: int, minute: int, second: int)

  // ---------------------------------------------------------------- the slow calendar

  predicate IsLeap(year: int) {
    year % 4 == 0 && (year % 100 != 0 || year % 400 == 0)
  }

  function DaysIn(year: int, month: int): int {
    if month == 2 then (if IsLeap(year) then 29 else 28)
    else if month == 4 || month == 6 || month == 9 || month == 11 then 30
    else 31
  }

  predicate Valid(d: Date) {
    1 <= d.month <= 12 && 1 <= d.day <= DaysIn(d.year, d.month)
  }

  function NextDay(d: Date): Date {
    if d.day < DaysIn(d.year, d.month) then d.(day := d.day + 1)
    else if d.month < 12 then Date(d.year, d.month + 1, 1)
    else Date(d.year + 1, 1, 1)
  }

  const EPOCH := Date(1970, 1, 1)

  function Stepped(days: nat): Date {
    if days == 0 then EPOCH else NextDay(Stepped(days - 1))
  }

  // ---------------------------------------------------------------- the fast one

  const DAYS_IN_ERA := 146_097

  function YearOfEra(doe: int): int {
    (doe - doe / 1_460 + doe / 36_524 - doe / 146_096) / 365
  }

  /** Days before March-based year `y` of an era. */
  function YearStart(y: int): int {
    365 * y + y / 4 - y / 100
  }

  /** Days before month `mp` of a March-based year. */
  function MonthStart(mp: int): int {
    (153 * mp + 2) / 5
  }

  function MonthOfYear(doy: int): int {
    (5 * doy + 2) / 153
  }

  /** The date of day `doe` of an era. */
  function CivilOfEra(era: int, doe: int): Date {
    var yoe := YearOfEra(doe);
    var doy := doe - YearStart(yoe);
    var mp := MonthOfYear(doy);
    var day := doy - MonthStart(mp) + 1;
    var month := if mp < 10 then mp + 3 else mp - 9;
    Date(yoe + era * 400 + (if month <= 2 then 1 else 0), month, day)
  }

  function Civil(days: int): Date {
    var z := days + 719_468;
    var era := z / DAYS_IN_ERA;
    CivilOfEra(era, z - era * DAYS_IN_ERA)
  }

  function StampOf(secs: nat): Stamp {
    var rem := secs % 86_400;
    Stamp(Civil(secs / 86_400), rem / 3_600, rem % 3_600 / 60, rem % 60)
  }

  // ---------------------------------------------------------------- years of an era

  /** March-based year `y` of an era holds day `doe`. */
  predicate InYear(y: int, doe: int) {
    0 <= y < 400 && YearStart(y) <= doe < (if y == 399 then DAYS_IN_ERA else YearStart(y + 1))
  }

  /** Within one century of an era, whose centuries are 36524 days but for the
      last day of the last. */
  lemma YearOfCentury(c: int, d: int)
    requires 0 <= c <= 3 && 0 <= d < 36_524
    ensures var y := (d - (24 * c + d) / 1_460) / 365;
            0 <= y < 100 && 365 * y + y / 4 <= d < 365 * (y + 1) + (y + 1) / 4
  {
  }

  lemma CenturySplits(c: int, d: int)
    requires 0 <= c <= 3 && 0 <= d < 36_524
    ensures var doe := 36_524 * c + d;
            YearOfEra(doe) == 100 * c + (d - (24 * c + d) / 1_460) / 365
  {
    var doe := 36_524 * c + d;
    var k := (24 * c + d) / 1_460;
    FourYears(c, d, k);
    assert doe / 36_524 == c && doe / 146_096 == 0;
    WholeCenturies(c, d - k);
  }

  lemma FourYears(c: int, d: int, k: int)
    requires k == (24 * c + d) / 1_460
    ensures (36_524 * c + d) / 1_460 == 25 * c + k
  {
  }

  lemma WholeCenturies(c: int, n: int)
    ensures (36_500 * c + n) / 365 == 100 * c + n / 365
  {
  }

  lemma YearFound(doe: int)
    requires 0 <= doe < DAYS_IN_ERA
    ensures InYear(YearOfEra(doe), doe)
  {
    if doe < 146_096 {
      YearFoundIn(doe / 36_524, doe % 36_524);
    } else {
      assert YearOfEra(146_096) == 399;
    }
  }

  lemma YearFoundIn(c: int, d: int)
    requires 0 <= c <= 3 && 0 <= d < 36_524
    ensures InYear(YearOfEra(36_524 * c + d), 36_524 * c + d)
  {
    hide YearOfEra, YearStart;
    var y := (d - (24 * c + d) / 1_460) / 365;
    YearOfCentury(c, d);
    CenturySplits(c, d);
    CenturyYears(c, y);
    if y == 99 {
      CenturyYears(c + 1, 0);
    } else {
      CenturyYears(c, y + 1);
    }
  }

  lemma CenturyYears(c: int, y: int)
    requires 0 <= c <= 4 && 0 <= y < 100
    ensures YearStart(100 * c + y) == 36_524 * c + 365 * y + y / 4
  {
  }

  lemma YearsFollow(y: int, y2: int)
    requires 0 <= y < y2
    ensures YearStart(y + 1) <= YearStart(y2)
  {
  }

  lemma OneYearOnly(y: int, y2: int, doe: int)
    requires InYear(y, doe) && InYear(y2, doe)
    ensures y == y2
  {
    if y < y2 {
      YearsFollow(y, y2);
    } else if y2 < y {
      YearsFollow(y2, y);
    }
  }

  /** A March-based year is a day longer when it ends in a leap February. */
  lemma YearLength(era: nat, y: nat)
    requires y < 400
    ensures (if y == 399 then DAYS_IN_ERA else YearStart(y + 1)) - YearStart(y) ==
      Length(era, y)
  {
    SameInEveryEra(era, y + 1);
    NextQuotient(y, 4);
    NextQuotient(y, 100);
  }

  /** Leap years repeat with the era. */
  lemma SameInEveryEra(era: nat, n: nat)
    ensures (era * 400 + n) % 4 == n % 4 && (era * 400 + n) % 100 == n % 100 && (era * 400 + n) % 400 == n % 400
  {
    Grids.DivModUnique(era * 400 + n, 4, era * 100 + n / 4, n % 4);
    Grids.DivModUnique(era * 400 + n, 100, era * 4 + n / 100, n % 100);
    Grids.DivModUnique(era * 400 + n, 400, era + n / 400, n % 400);
  }

  lemma NextQuotient(y: nat, d: nat)
    requires d > 0
    ensures (y + 1) / d - y / d == if (y + 1) % d == 0 then 1 else 0
  {
    var q, r := y / d, y % d;
    Grids.Distributes(q, 1, d);
    if r + 1 == d {
      Grids.DivModUnique(y + 1, d, q + 1, 0);
    } else {
      Grids.DivModUnique(y + 1, d, q, r + 1);
    }
  }

  // ---------------------------------------------------------------- months of a year

  predicate InMonth(mp: int, doy: int) {
    0 <= mp < 12 && MonthStart(mp) <= doy < (if mp == 11 then 366 else MonthStart(mp + 1))
  }

  lemma MonthFound(doy: int)
    requires 0 <= doy < 366
    ensures InMonth(MonthOfYear(doy), doy)
  {
  }

  lemma OneMonthOnly(mp: int, mp2: int, doy: int)
    requires InMonth(mp, doy) && InMonth(mp2, doy)
    ensures mp == mp2
  {
  }

  /** The date on day `doy` of March-based year `y` of an era. */
  function DateIn(era: int, y: int, mp: int, doy: int): Date {
    var month := if mp < 10 then mp + 3 else mp - 9;
    Date(y + era * 400 + (if month <= 2 then 1 else 0), month, doy - MonthStart(mp) + 1)
  }

  lemma CivilIs(era: int, doe: int, y: int, mp: int)
    requires InYear(y, doe) && InMonth(mp, doe - YearStart(y))
    ensures CivilOfEra(era, doe) == DateIn(era, y, mp, doe - YearStart(y))
  {
    YearFound(doe);
    OneYearOnly(y, YearOfEra(doe), doe);
    MonthFound(doe - YearStart(y));
    OneMonthOnly(mp, MonthOfYear(doe - YearStart(y)), doe - YearStart(y));
  }

  lemma MonthLength(year: int, mp: int)
    requires 0 <= mp < 11
    ensures MonthStart(mp + 1) - MonthStart(mp) == DaysIn(year, if mp < 10 then mp + 3 else mp - 9)
  {
    assert mp == 0 || mp == 1 || mp == 2 || mp == 3 || mp == 4 || mp == 5 || mp == 6 || mp == 7 || mp == 8 || mp == 9
        || mp == 10;
  }

  // ---------------------------------------------------------------- fast equals slow

  /** A day later in the same month. */
  lemma NextInMonth(era: nat, y: nat, mp: int, doy: int)
    requires y < 400 && InMonth(mp, doy) && (mp < 11 ==> doy + 1 < MonthStart(mp + 1))
    requires mp == 11 ==> doy + 1 < if IsLeap(era * 400 + y + 1) then 366 else 365
    ensures NextDay(DateIn(era, y, mp, doy)) == DateIn(era, y, mp, doy + 1)
    ensures Valid(DateIn(era, y, mp, doy))
  {
    if mp < 11 {
      MonthLength(DateIn(era, y, mp, doy).year, mp);
    }
  }

  /** The first day of the next month of the same March-based year. */
  lemma NextMonth(era: nat, y: nat, mp: int, doy: int)
    requires y < 400 && 0 <= mp < 11 && doy + 1 == MonthStart(mp + 1)
    ensures NextDay(DateIn(era, y, mp, doy)) == DateIn(era, y, mp + 1, doy + 1)
    ensures Valid(DateIn(era, y, mp, doy))
  {
    MonthLength(DateIn(era, y, mp, doy).year, mp);
    assert mp == 0 || mp == 1 || mp == 2 || mp == 3 || mp == 4 || mp == 5 || mp == 6 || mp == 7 || mp == 8 || mp == 9
        || mp == 10;
  }

  /** The first of March after the last of February. */
  lemma NextYear(era: nat, y: nat, doy: int)
    requires y < 400 && doy + 1 == if IsLeap(era * 400 + y + 1) then 366 else 365
    ensures NextDay(DateIn(era, y, 11, doy)) == Date(era * 400 + y + 1, 3, 1)
    ensures Valid(DateIn(era, y, 11, doy))
  {
  }

  lemma MarchFirst(era: nat, y: nat)
    requires y < 400
    ensures DateIn(era, y, 0, 0) == Date(era * 400 + y, 3, 1)
  {
  }

  function Length(era: nat, y: nat): int {
    if IsLeap(era * 400 + y + 1) then 366 else 365
  }

  lemma FirstAndLastYear()
    ensures YearStart(0) == 0 && YearStart(1) == 365 && YearStart(399) == 145_731
  {
  }

  lemma InEra(y: nat, doe: int)
    requires y < 400 && InYear(y, doe)
    ensures y < 399 ==> doe + 1 < DAYS_IN_ERA
  {
    hide YearStart;
    FirstAndLastYear();
    if y < 399 {
      YearsFollow(y, 399);
    }
  }

  lemma FirstDayOf(y: nat)
    requires y < 400
    ensures InYear(y, YearStart(y)) && InMonth(0, 0)
  {
    hide YearStart;
    YearLength(0, y);
  }

  /** The last day of a March-based year to the first of the next. */
  lemma EndOfYear(era: nat, y: nat, doe: nat)
    requires y < 400 && InYear(y, doe) && doe - YearStart(y) + 1 == Length(era, y)
    ensures Valid(CivilOfEra(era, doe))
    ensures NextDay(CivilOfEra(era, doe)) ==
      if doe + 1 == DAYS_IN_ERA then CivilOfEra(era + 1, 0) else CivilOfEra(era, doe + 1)
    ensures doe < DAYS_IN_ERA
  {
    hide CivilOfEra, DateIn, NextDay, Valid, DaysIn, YearStart, IsLeap;
    var doy := doe - YearStart(y);
    YearLength(era, y);
    InEra(y, doe);
    CivilIs(era, doe, y, 11);
    NextYear(era, y, doy);
    if y == 399 {
      FirstAndLastYear();
      FirstDayOf(0);
      CivilIs(era + 1, 0, 0, 0);
      MarchFirst(era + 1, 0);
    } else {
      FirstDayOf(y + 1);
      CivilIs(era, doe + 1, y + 1, 0);
      MarchFirst(era, y + 1);
    }
  }

  /** A day that is not the last of its March-based year to the next. */
  lemma WithinYear(era: nat, y: nat, doe: nat)
    requires y < 400 && InYear(y, doe) && doe - YearStart(y) + 1 < Length(era, y)
    ensures Valid(CivilOfEra(era, doe)) && doe + 1 < DAYS_IN_ERA
    ensures NextDay(CivilOfEra(era, doe)) == CivilOfEra(era, doe + 1)
  {
    hide CivilOfEra, DateIn, NextDay, Valid, DaysIn, MonthOfYear, YearStart, IsLeap;
    var doy := doe - YearStart(y);
    var mp := MonthOfYear(doy);
    YearLength(era, y);
    InEra(y, doe);
    MonthFound(doy);
    CivilIs(era, doe, y, mp);
    if mp < 11 && doy + 1 == MonthStart(mp + 1) {
      NextMonth(era, y, mp, doy);
      CivilIs(era, doe + 1, y, mp + 1);
    } else {
      NextInMonth(era, y, mp, doy);
      CivilIs(era, doe + 1, y, mp);
    }
  }

  /** One day of an era to the next. */
  lemma NextOfEra(era: nat, doe: nat)
    requires doe < DAYS_IN_ERA
    ensures Valid(CivilOfEra(era, doe))
    ensures NextDay(CivilOfEra(era, doe)) ==
      if doe + 1 == DAYS_IN_ERA then CivilOfEra(era + 1, 0) else CivilOfEra(era, doe + 1)
  {
    hide CivilOfEra, NextDay, Valid, YearOfEra, YearStart, IsLeap;
    var y := YearOfEra(doe);
    YearFound(doe);
    YearLength(era, y);
    if doe - YearStart(y) + 1 == Length(era, y) {
      EndOfYear(era, y, doe);
    } else {
      WithinYear(era, y, doe);
    }
  }

  lemma NextCivil(days: nat)
    ensures Valid(Civil(days)) && NextDay(Civil(days)) == Civil(days + 1)
  {
    hide CivilOfEra;
    var z := days + 719_468;
    var era, doe := z / DAYS_IN_ERA, z % DAYS_IN_ERA;
    NextOfEra(era, doe);
    if doe + 1 == DAYS_IN_ERA {
      Grids.DivModUnique(z + 1, DAYS_IN_ERA, era + 1, 0);
    } else {
      Grids.DivModUnique(z + 1, DAYS_IN_ERA, era, doe + 1);
    }
  }

  lemma EpochIsCivil()
    ensures Civil(0) == EPOCH
  {
    assert 719_468 / DAYS_IN_ERA == 4;
    CivilIs(4, 135_080, 369, 10);
  }

  /** The division formula gives the date that stepping the calendar day by day
      from 1970-01-01 gives, for every day from then on. */
  lemma {:induction false} FastIsSlow(days: nat)
    ensures Civil(days) == Stepped(days) && Valid(Civil(days))
  {
    hide Civil, NextDay;
    NextCivil(days);
    if days == 0 {
      EpochIsCivil();
    } else {
      FastIsSlow(days - 1);
      NextCivil(days - 1);
    }
  }

  // ---------------------------------------------------------------- the order of stamps

  predicate Before(a: Date, b: Date) {
    || a.year < b.year
    || (a.year == b.year && (a.month < b.month || (a.month == b.month && a.day < b.day)))
  }

  lemma {:induction false} LaterDaysAreLater(m: nat, n: nat)
    requires m < n
    ensures Before(Civil(m), Civil(n))
    decreases n - m
  {
    hide Civil;
    NextCivil(n - 1);
    if m < n - 1 {
      LaterDaysAreLater(m, n - 1);
    }
  }

  predicate Earlier(a: Stamp, b: Stamp) {
    || Before(a.date, b.date)
    || (a.date == b.date &&
        (a.hour < b.hour ||
         (a.hour == b.hour && (a.minute < b.minute || (a.minute == b.minute && a.second < b.second)))))
  }

  lemma TimeOfDay(rem: nat)
    requires rem < 86_400
    ensures 0 <= rem / 3_600 < 24 && 0 <= rem % 3_600 / 60 < 60 && 0 <= rem % 60 < 60
    ensures rem == 3_600 * (rem / 3_600) + 60 * (rem % 3_600 / 60) + rem % 60
  {
  }

  /** A stamp is a real date and a real time, a later second has a later stamp,
      and so no two seconds share one. */
  lemma StampsFollowTime(a: nat, b: nat)
    requires a < b
    ensures Earlier(StampOf(a), StampOf(b)) && StampOf(a) != StampOf(b)
    ensures Valid(StampOf(a).date) && 0 <= StampOf(a).hour < 24
    ensures 0 <= StampOf(a).minute < 60 && 0 <= StampOf(a).second < 60
  {
    hide Civil, Valid;
    NextCivil(a / 86_400);
    TimeOfDay(a % 86_400);
    TimeOfDay(b % 86_400);
    if a / 86_400 < b / 86_400 {
      LaterDaysAreLater(a / 86_400, b / 86_400);
    }
  }

  lemma PartsOfDay(days: nat, hour: nat, minute: nat, second: nat)
    requires hour < 24 && minute < 60 && second < 60
    ensures var rem := 3_600 * hour + 60 * minute + second; var secs := 86_400 * days + rem;
      secs / 86_400 == days && secs % 86_400 == rem
      && rem / 3_600 == hour && rem % 3_600 / 60 == minute && rem % 60 == second
  {
  }

  /** The stamp of the second at this time of this day since the epoch is that time
      and the date of the calendar that many days on. */
  lemma StampTellsTheSecond(days: nat, hour: nat, minute: nat, second: nat)
    requires hour < 24 && minute < 60 && second < 60
    ensures StampOf(86_400 * days + 3_600 * hour + 60 * minute + second) ==
      Stamp(Stepped(days), hour, minute, second)
  {
    hide Civil, Stepped;
    PartsOfDay(days, hour, minute, second);
    FastIsSlow(days);
  }
}
