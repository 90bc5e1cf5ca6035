/** Days since 1970-01-01 as dates of the proleptic Gregorian calendar. */
module Calendar {
  datatype Date = Date(year: int, month: int, day: int)

  const ERA_DAYS: int := 146_097

  predicate Leap(year: int) {
    year % 4 == 0 && (year % 100 != 0 || year % 400 == 0)
  }

  /** RFC 3339, section 5.7. */
  function DaysInMonth(year: int, month: int): int {
    if month == 2 then if Leap(year) then 29 else 28
    else if month in {4, 6, 9, 11} then 30
    else 31
  }

  predicate Valid(date: Date) {
    1 <= date.month <= 12 && 1 <= date.day <= DaysInMonth(date.year, date.month)
  }

  function Successor(date: Date): Date {
    if date.day < DaysInMonth(date.year, date.month) then date.(day := date.day + 1)
    else if date.month < 12 then Date(date.year, date.month + 1, 1)
    else Date(date.year + 1, 1, 1)
  }

  predicate Before(a: Date, b: Date) {
    || a.year < b.year
    || (a.year == b.year && a.month < b.month)
    || (a.year == b.year && a.month == b.month && a.day < b.day)
  }

  /** The year of an era a day of it is in; the years begin in March. */
  function YearOfEra(dayOfEra: int): int {
    (dayOfEra - dayOfEra / 1460 + dayOfEra / 36_524 - dayOfEra / 146_096) / 365
  }

  /** The day of the era a year of it begins on. */
  function YearStart(year: int): int {
    365 * year + year / 4 - year / 100
  }

  /** The day of a March-based year a month of it begins on. */
  function MonthStart(position: int): int {
    (153 * position + 2) / 5
  }

  function FromParts(era: int, yearOfEra: int, dayOfYear: int): Date {
    var position := (5 * dayOfYear + 2) / 153;
    var month := if position < 10 then position + 3 else position - 9;
    Date(yearOfEra + era * 400 + (if month <= 2 then 1 else 0), month, dayOfYear - MonthStart(position) + 1)
  }

  function CivilFromDays(days: int): Date {
    var shifted := days + 719_468;
    var era, dayOfEra := shifted / ERA_DAYS, shifted % ERA_DAYS;
    var year := YearOfEra(dayOfEra);
    FromParts(era, year, dayOfEra - YearStart(year))
  }

  /** How long a March-based year is: its February is the next year's. */
  function YearLength(yearOfEra: int): int {
    if Leap(yearOfEra + 1) then 366 else 365
  }

  lemma Century(dayOfEra: int, c: int)
    requires 0 <= c <= 3 && c * 36_524 <= dayOfEra < (c + 1) * 36_524
    ensures YearOfEra(dayOfEra) == (dayOfEra - dayOfEra / 1460 + c) / 365
    ensures 100 * c <= YearOfEra(dayOfEra) <= 100 * c + 99
  {
    assert dayOfEra / 36_524 == c;
    assert dayOfEra / 146_096 == 0;
  }

  lemma YearBegun(dayOfEra: int, c: int)
    requires 0 <= c <= 3 && c * 36_524 <= dayOfEra < (c + 1) * 36_524
    ensures YearStart(YearOfEra(dayOfEra)) <= dayOfEra
  {
    Century(dayOfEra, c);
    var y := YearOfEra(dayOfEra);
    assert y / 100 == c;
    assert y / 4 - c <= dayOfEra / 1460 - c;
  }

  lemma YearNotEnded(dayOfEra: int, c: int)
    requires 0 <= c <= 3 && c * 36_524 <= dayOfEra < (c + 1) * 36_524
    ensures dayOfEra < YearStart(YearOfEra(dayOfEra) + 1)
  {
    Century(dayOfEra, c);
    var y, leaps := YearOfEra(dayOfEra), dayOfEra / 1460;
    if y == 100 * c + 99 {
      assert YearStart(100 * (c + 1)) == 36_524 * (c + 1);
    } else {
      assert (y + 1) / 100 == c;
      LeapsCovered(dayOfEra, c, y);
    }
  }

  lemma LeapsCovered(dayOfEra: int, c: int, y: int)
    requires 0 <= c <= 3 && 0 <= dayOfEra < ERA_DAYS && y == (dayOfEra - dayOfEra / 1460 + c) / 365
    ensures dayOfEra < 365 * (y + 1) + (y + 1) / 4 - c
  {
    var leaps := dayOfEra / 1460;
    assert 4 * leaps <= y + 1;
    assert leaps <= (y + 1) / 4;
  }

  /** Each year begins where the one before it ends; the era ends with its last year. */
  lemma YearsMeet(year: int)
    requires 0 <= year <= 399
    ensures YearStart(year) + YearLength(year) == if year == 399 then ERA_DAYS else YearStart(year + 1)
  {
  }

  /** A day of an era is in the year the formula gives. */
  lemma {:induction false} YearHolds(dayOfEra: int)
    requires 0 <= dayOfEra < ERA_DAYS
    ensures 0 <= YearOfEra(dayOfEra) <= 399
    ensures 0 <= dayOfEra - YearStart(YearOfEra(dayOfEra)) < YearLength(YearOfEra(dayOfEra))
  {
    if dayOfEra < 146_096 {
      var c := dayOfEra / 36_524;
      Century(dayOfEra, c);
      YearBegun(dayOfEra, c);
      YearNotEnded(dayOfEra, c);
      YearsMeet(YearOfEra(dayOfEra));
    } else {
      assert YearOfEra(146_096) == 399;
    }
  }

  lemma {:induction false} YearsAscend(a: int, b: int)
    requires 0 <= a < b <= 399
    ensures YearStart(a) + YearLength(a) <= YearStart(b)
    decreases b - a
  {
    YearsMeet(a);
    if a + 1 < b {
      YearsAscend(a + 1, b);
    }
  }

  /** And in no other. */
  lemma {:induction false} YearUnique(dayOfEra: int, year: int)
    requires 0 <= year <= 399 && 0 <= dayOfEra - YearStart(year) < YearLength(year)
    ensures 0 <= dayOfEra < ERA_DAYS && YearOfEra(dayOfEra) == year
  {
    YearsMeet(year);
    if year < 399 { YearsAscend(year, 399); YearsMeet(399); }
    YearHolds(dayOfEra);
    var found := YearOfEra(dayOfEra);
    if found < year {
      YearsAscend(found, year);
    } else if year < found {
      YearsAscend(year, found);
    }
  }

  /** A day of a March-based year is in the month the formula gives. */
  lemma MonthHolds(dayOfYear: int)
    requires 0 <= dayOfYear <= 365
    ensures var position := (5 * dayOfYear + 2) / 153;
      0 <= position <= 11 && MonthStart(position) <= dayOfYear < MonthStart(position + 1)
  {
  }

  lemma Repeats4(era: int, year: int)
    ensures (era * 400 + year) % 4 == year % 4
  {
    assert era * 400 + year == 4 * (100 * era + year / 4) + year % 4;
  }

  lemma Repeats100(era: int, year: int)
    ensures (era * 400 + year) % 100 == year % 100
  {
    assert era * 400 + year == 100 * (4 * era + year / 100) + year % 100;
  }

  lemma Repeats400(era: int, year: int)
    ensures (era * 400 + year) % 400 == year % 400
  {
    assert era * 400 + year == 400 * (era + year / 400) + year % 400;
  }

  lemma LeapRepeats(era: int, year: int)
    ensures Leap(era * 400 + year) == Leap(year)
  {
    Repeats4(era, year);
    Repeats100(era, year);
    Repeats400(era, year);
  }

  lemma PartsValid(era: int, year: int, dayOfYear: int)
    requires 0 <= year <= 399 && 0 <= dayOfYear < YearLength(year)
    ensures Valid(FromParts(era, year, dayOfYear))
  {
    MonthHolds(dayOfYear);
    LeapRepeats(era, year + 1);
  }

  lemma PartsNextInYear(era: int, year: int, dayOfYear: int)
    requires 0 <= year <= 399 && 0 <= dayOfYear < YearLength(year) - 1
    ensures Successor(FromParts(era, year, dayOfYear)) == FromParts(era, year, dayOfYear + 1)
  {
    MonthHolds(dayOfYear);
    MonthHolds(dayOfYear + 1);
    LeapRepeats(era, year + 1);
  }

  /** The next day of a year is the successor, and the last day's is the next year's first. */
  lemma PartsNext(era: int, year: int, dayOfYear: int)
    requires 0 <= year <= 399 && 0 <= dayOfYear < YearLength(year)
    ensures Successor(FromParts(era, year, dayOfYear)) ==
      if dayOfYear + 1 < YearLength(year) then FromParts(era, year, dayOfYear + 1)
      else FromParts(era, year + 1, 0)
  {
    if dayOfYear + 1 < YearLength(year) {
      PartsNextInYear(era, year, dayOfYear);
    } else {
      MonthHolds(dayOfYear);
      LeapRepeats(era, year + 1);
    }
  }

  /** A day of an era as a date, for any division of an era into years and of years into dates. */
  function FromEra(parts: (int, int, int) -> Date, yearOf: int -> int, start: int -> int, era: int,
      dayOfEra: int): Date {
    parts(era, yearOf(dayOfEra), dayOfEra - start(yearOf(dayOfEra)))
  }

  function DateOf(era: int, dayOfEra: int): Date {
    FromEra(FromParts, YearOfEra, YearStart, era, dayOfEra)
  }

  lemma {:induction false} EraValid(era: int, dayOfEra: int)
    requires 0 <= dayOfEra < ERA_DAYS
    ensures Valid(DateOf(era, dayOfEra))
  {
    YearHolds(dayOfEra);
    PartsValid(era, YearOfEra(dayOfEra), dayOfEra - YearStart(YearOfEra(dayOfEra)));
  }

  /** What the day after a day of a year is, by whether the year and the era end with it. */
  ghost predicate Follows(parts: (int, int, int) -> Date, yearOf: int -> int, start: int -> int, era: int,
      dayOfEra: int) {
    var year := yearOf(dayOfEra);
    var date := parts(era, year, dayOfEra - start(year));
    if dayOfEra + 1 == ERA_DAYS then
      Successor(date) == parts(era, 400, 0) == FromEra(parts, yearOf, start, era + 1, 0)
    else if yearOf(dayOfEra + 1) == year then
      Successor(date) == parts(era, year, dayOfEra - start(year) + 1)
    else
      yearOf(dayOfEra + 1) == year + 1 && start(year + 1) == dayOfEra + 1 && Successor(date) == parts(era, year + 1, 0)
  }

  ghost predicate IsNext(parts: (int, int, int) -> Date, yearOf: int -> int, start: int -> int, era: int,
      dayOfEra: int) {
    Successor(FromEra(parts, yearOf, start, era, dayOfEra)) ==
    if dayOfEra + 1 == ERA_DAYS then FromEra(parts, yearOf, start, era + 1, 0)
    else FromEra(parts, yearOf, start, era, dayOfEra + 1)
  }

  lemma FollowingDate(parts: (int, int, int) -> Date, yearOf: int -> int, start: int -> int, era: int, dayOfEra: int)
    requires Follows(parts, yearOf, start, era, dayOfEra)
    ensures IsNext(parts, yearOf, start, era, dayOfEra)
  {
  }

  lemma FirstYear()
    ensures YearOfEra(0) == 0 && YearStart(0) == 0
  {
  }

  lemma NextEraBegins(era: int)
    ensures FromParts(era, 400, 0) == FromParts(era + 1, 0, 0)
  {
    assert (era + 1) * 400 == era * 400 + 400;
  }

  lemma EraTurns(era: int)
    ensures FromParts(era, 400, 0) == DateOf(era + 1, 0)
  {
    FirstYear();
    NextEraBegins(era);
  }

  lemma {:induction false} EraFollows(era: int, dayOfEra: int)
    requires 0 <= dayOfEra < ERA_DAYS
    ensures Follows(FromParts, YearOfEra, YearStart, era, dayOfEra)
  {
    var year, dayOfYear, length := PartsFollowDay(era, dayOfEra);
    EraTurns(era);
    FollowsByParts(FromParts, YearOfEra, YearStart, year, dayOfYear, length, era, dayOfEra);
  }

  lemma {:induction false} PartsFollowDay(era: int, dayOfEra: int) returns (year: int, dayOfYear: int, length: int)
    requires 0 <= dayOfEra < ERA_DAYS
    ensures year == YearOfEra(dayOfEra) && dayOfYear == dayOfEra - YearStart(year)
    ensures YearFollowsIn(year, YearOfEra, YearStart, length, dayOfEra)
    ensures PartsFollow(FromParts, era, year, dayOfYear, length)
  {
    year, length := YearFollows(dayOfEra);
    dayOfYear := dayOfEra - YearStart(year);
    PartsFollowYear(era, year, dayOfYear, length);
  }

  /** The year of the next day, by whether this one is the last of its year. */
  lemma {:induction false} YearFollows(dayOfEra: int) returns (year: int, length: int)
    requires 0 <= dayOfEra < ERA_DAYS
    ensures year == YearOfEra(dayOfEra) && 0 <= year <= 399
    ensures 0 <= dayOfEra - YearStart(year) < length == YearLength(year)
    ensures YearFollowsIn(year, YearOfEra, YearStart, length, dayOfEra)
  {
    YearHolds(dayOfEra);
    year, length := YearOfEra(dayOfEra), YearLength(YearOfEra(dayOfEra));
    YearFollowsAfter(dayOfEra, year, length);
  }

  lemma {:induction false} YearFollowsAfter(dayOfEra: int, year: int, length: int)
    requires 0 <= year <= 399 && 0 <= dayOfEra - YearStart(year) < length == YearLength(year)
    ensures YearFollowsIn(year, YearOfEra, YearStart, length, dayOfEra)
  {
    YearsMeet(year);
    if dayOfEra + 1 < YearStart(year) + length {
      YearUnique(dayOfEra + 1, year);
    } else if year < 399 {
      YearUnique(dayOfEra + 1, year + 1);
    }
  }

  ghost predicate YearFollowsIn(year: int, yearOf: int -> int, start: int -> int, length: int, dayOfEra: int) {
    if dayOfEra - start(year) + 1 < length then dayOfEra + 1 < ERA_DAYS && yearOf(dayOfEra + 1) == year
    else if year < 399 then
      dayOfEra + 1 < ERA_DAYS && yearOf(dayOfEra + 1) == year + 1 && start(year + 1) == dayOfEra + 1
    else year == 399 && dayOfEra + 1 == ERA_DAYS
  }

  ghost predicate PartsFollow(parts: (int, int, int) -> Date, era: int, year: int, dayOfYear: int, length: int) {
    Successor(parts(era, year, dayOfYear)) ==
    if dayOfYear + 1 < length then parts(era, year, dayOfYear + 1) else parts(era, year + 1, 0)
  }

  lemma {:induction false} PartsFollowYear(era: int, year: int, dayOfYear: int, length: int)
    requires 0 <= year <= 399 && 0 <= dayOfYear < length == YearLength(year)
    ensures PartsFollow(FromParts, era, year, dayOfYear, length)
  {
    PartsNext(era, year, dayOfYear);
  }

  lemma FollowsByParts(parts: (int, int, int) -> Date, yearOf: int -> int, start: int -> int, year: int, dayOfYear: int,
                       length: int, era: int, dayOfEra: int)
    requires year == yearOf(dayOfEra) && dayOfYear == dayOfEra - start(year)
    requires YearFollowsIn(year, yearOf, start, length, dayOfEra) && PartsFollow(parts, era, year, dayOfYear, length)
    requires parts(era, 400, 0) == FromEra(parts, yearOf, start, era + 1, 0)
    ensures Follows(parts, yearOf, start, era, dayOfEra)
  {
  }

  function OnDay(parts: (int, int, int) -> Date, yearOf: int -> int, start: int -> int, shifted: int): Date {
    FromEra(parts, yearOf, start, shifted / ERA_DAYS, shifted % ERA_DAYS)
  }

  lemma DayFollows(parts: (int, int, int) -> Date, yearOf: int -> int, start: int -> int, shifted: int)
    requires IsNext(parts, yearOf, start, shifted / ERA_DAYS, shifted % ERA_DAYS)
    ensures OnDay(parts, yearOf, start, shifted + 1) == Successor(OnDay(parts, yearOf, start, shifted))
  {
    NextShifted(shifted);
  }

  lemma NextShifted(shifted: int)
    ensures (shifted + 1) / ERA_DAYS == shifted / ERA_DAYS + (if shifted % ERA_DAYS == ERA_DAYS - 1 then 1 else 0)
    ensures (shifted + 1) % ERA_DAYS == if shifted % ERA_DAYS == ERA_DAYS - 1 then 0 else shifted % ERA_DAYS + 1
  {
  }

  lemma EpochYear()
    ensures YearOfEra(135_080) == 369 && YearStart(369) == 134_774
  {
  }

  lemma EpochParts()
    ensures FromParts(4, 369, 306) == Date(1970, 1, 1)
  {
  }

  /** Day 0 is 1970-01-01. */
  lemma Epoch()
    ensures CivilFromDays(0) == Date(1970, 1, 1)
  {
    EpochYear();
    EpochParts();
    assert 719_468 / ERA_DAYS == 4 && 719_468 % ERA_DAYS == 135_080;
  }

  lemma CivilIsOnDay(days: int)
    ensures CivilFromDays(days) == OnDay(FromParts, YearOfEra, YearStart, days + 719_468)
  {
  }

  /** Every day is a date of the calendar. */
  lemma {:induction false} DatesValid(days: int)
    ensures Valid(CivilFromDays(days))
  {
    EraValid((days + 719_468) / ERA_DAYS, (days + 719_468) % ERA_DAYS);
    CivilIsOnDay(days);
  }

  lemma {:induction false} ShiftedFollows(shifted: int)
    ensures OnDay(FromParts, YearOfEra, YearStart, shifted + 1) ==
      Successor(OnDay(FromParts, YearOfEra, YearStart, shifted))
  {
    var era, day := shifted / ERA_DAYS, shifted % ERA_DAYS;
    EraFollows(era, day);
    FollowingDate(FromParts, YearOfEra, YearStart, era, day);
    DayFollows(FromParts, YearOfEra, YearStart, shifted);
  }

  /** The next day is the next date. */
  lemma {:induction false} NextDay(days: int)
    ensures CivilFromDays(days + 1) == Successor(CivilFromDays(days))
  {
    ShiftedFollows(days + 719_468);
    CivilIsOnDay(days);
    CivilIsOnDay(days + 1);
  }

  lemma {:induction false} SuccessorsAscend(dates: int -> Date, a: int, b: int)
    requires a < b && forall d :: Valid(dates(d)) && dates(d + 1) == Successor(dates(d))
    ensures Before(dates(a), dates(b))
    decreases b - a
  {
    assert dates(b - 1 + 1) == Successor(dates(b - 1)) && Valid(dates(b - 1));
    if a < b - 1 {
      SuccessorsAscend(dates, a, b - 1);
    }
  }

  /** Later days are later dates: no date is given twice. */
  lemma {:induction false} DatesAscend(a: int, b: int)
    requires a < b
    ensures Before(CivilFromDays(a), CivilFromDays(b))
  {
    forall d ensures Valid(CivilFromDays(d)) && CivilFromDays(d + 1) == Successor(CivilFromDays(d)) {
      DatesValid(d);
      NextDay(d);
    }
    SuccessorsAscend(CivilFromDays, a, b);
  }
}
