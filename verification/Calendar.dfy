/** Days since 1970-01-01 to a Gregorian date and back, by division alone. */
module Calendar {
  import opened FloorMath

  datatype Date = Date(year: nat, month: nat, day: nat)

  /** Appendix C of RFC 3339. */
  predicate IsLeap(year: nat) {
    year % 4 == 0 && (year % 100 != 0 || year % 400 == 0)
  }

  function DaysInMonth(year: nat, month: nat): nat {
    if month in {4, 6, 9, 11} then 30 else if month == 2 then (if IsLeap(year) then 29 else 28) else 31
  }

  predicate IsDate(date: Date) {
    1 <= date.month <= 12 && 1 <= date.day <= DaysInMonth(date.year, date.month)
  }

  /** The day after, by the calendar's own rules. */
  function NextDate(date: Date): Date {
    if date.day < DaysInMonth(date.year, date.month) then date.(day := date.day + 1)
    else if date.month < 12 then Date(date.year, date.month + 1, 1)
    else Date(date.year + 1, 1, 1)
  }

  const EPOCH := Date(1970, 1, 1)

  // ---- The conversion, step by step ----

  function YearOfEra(dayOfEra: nat): nat
    requires dayOfEra < 146_097
  {
    (dayOfEra - dayOfEra / 1460 + dayOfEra / 36_524 - dayOfEra / 146_096) / 365
  }

  /** The days before a year of the 400-year era, counted from the first of March. */
  function YearStart(yearOfEra: nat): nat {
    365 * yearOfEra + yearOfEra / 4 - yearOfEra / 100
  }

  function YearLength(yearOfEra: nat): nat {
    365 + if IsLeap(yearOfEra + 1) then 1 else 0
  }

  /** The civil date of a day of an era's March-based year. */
  function FromParts(era: nat, yearOfEra: nat, dayOfYear: nat): Date
    requires dayOfYear <= 365
  {
    var year := yearOfEra + era * 400;
    var mp := (5 * dayOfYear + 2) / 153;
    MonthBrackets(dayOfYear);
    var day := dayOfYear - (153 * mp + 2) / 5 + 1;
    var month := if mp < 10 then mp + 3 else mp - 9;
    Date(if month <= 2 then year + 1 else year, month, day)
  }

  /** Defined for every day: none of its unsigned subtractions underflows. */
  function CivilFromDays(days: nat): Date {
    var z := days + 719_468;
    var era := z / 146_097;
    var dayOfEra := z % 146_097;
    var yearOfEra := YearOfEra(dayOfEra);
    YearBrackets(dayOfEra);
    FromParts(era, yearOfEra, dayOfEra - YearStart(yearOfEra))
  }

  // ---- Years of an era ----

  /** A day of an era as centuries, four-year cycles, years and days, each at most one short of full
      except where a leap day makes it full. */
  predicate Splits(dayOfEra: nat, a: nat, b: nat, c: nat, dayOfYear: nat) {
    && a <= 3 && b <= 24 && c <= 3 && dayOfYear <= 365
    && dayOfEra == 36_524 * a + 1461 * b + 365 * c + dayOfYear
    && (dayOfYear == 365 ==> c == 3 && (b < 24 || a == 3))
  }

  lemma SplitDay(dayOfEra: nat) returns (a: nat, b: nat, c: nat, dayOfYear: nat)
    requires dayOfEra < 146_097
    ensures Splits(dayOfEra, a, b, c, dayOfYear)
  {
    a := if dayOfEra / 36_524 == 4 then 3 else dayOfEra / 36_524;
    var inCentury := dayOfEra - 36_524 * a;
    b := inCentury / 1461;
    var inCycle := inCentury - 1461 * b;
    c := if inCycle / 365 == 4 then 3 else inCycle / 365;
    dayOfYear := inCycle - 365 * c;
  }

  /** The conversion's year is the split's year, at every day of it. */
  lemma SplitYear(dayOfEra: nat, a: nat, b: nat, c: nat, dayOfYear: nat)
    requires dayOfEra < 146_097 && Splits(dayOfEra, a, b, c, dayOfYear)
    ensures YearOfEra(dayOfEra) == 100 * a + 4 * b + c
  {
    var cycles := 24 * a + b + 365 * c + dayOfYear;
    assert dayOfEra == 1460 * (25 * a + b) + cycles;
    assert dayOfEra / 1460 == 25 * a + b + if cycles < 1460 then 0 else 1;
    assert dayOfEra / 36_524 == a + if dayOfEra == 146_096 then 1 else 0;
    assert dayOfEra / 146_096 == if dayOfEra == 146_096 then 1 else 0;
  }

  lemma SplitStart(a: nat, b: nat, c: nat)
    requires a <= 3 && b <= 24 && c <= 3
    ensures YearStart(100 * a + 4 * b + c) == 36_524 * a + 1461 * b + 365 * c
    ensures YearLength(100 * a + 4 * b + c) == 365 + if c == 3 && (b < 24 || a == 3) then 1 else 0
  {
    var y := 100 * a + 4 * b + c;
    assert y / 4 == 25 * a + b;
    assert y / 100 == a;
    assert (y + 1) % 4 == 0 <==> c == 3;
    assert (y + 1) % 100 == 0 <==> c == 3 && b == 24;
    assert (y + 1) % 400 == 0 <==> c == 3 && b == 24 && a == 3;
  }

  /** The year found brackets the day, so neither subtraction underflows. */
  lemma YearBrackets(dayOfEra: nat)
    requires dayOfEra < 146_097
    ensures var y := YearOfEra(dayOfEra);
            y <= 399 && YearStart(y) <= dayOfEra < YearStart(y) + YearLength(y)
  {
    var a, b, c, dayOfYear := SplitDay(dayOfEra);
    SplitYear(dayOfEra, a, b, c, dayOfYear);
    SplitStart(a, b, c);
  }

  lemma MonthBrackets(dayOfYear: nat)
    requires dayOfYear <= 365
    ensures var mp := (5 * dayOfYear + 2) / 153;
            mp <= 11 && (153 * mp + 2) / 5 <= dayOfYear < (153 * (mp + 1) + 2) / 5
  {
  }

  /** Every day of every year of an era is found under that year. */
  lemma YearFound(yearOfEra: nat, dayOfYear: nat)
    requires yearOfEra <= 399 && dayOfYear < YearLength(yearOfEra)
    ensures YearStart(yearOfEra) + dayOfYear < 146_097
    ensures YearOfEra(YearStart(yearOfEra) + dayOfYear) == yearOfEra
  {
    var a, b, c := yearOfEra / 100, yearOfEra % 100 / 4, yearOfEra % 4;
    assert yearOfEra == 100 * a + 4 * b + c;
    SplitStart(a, b, c);
    SplitYear(YearStart(yearOfEra) + dayOfYear, a, b, c, dayOfYear);
  }

  lemma YearsAbut(yearOfEra: nat)
    requires yearOfEra <= 399
    ensures YearStart(yearOfEra) + YearLength(yearOfEra) == if yearOfEra < 399 then YearStart(yearOfEra + 1) else 146_097
  {
    var a, b, c := yearOfEra / 100, yearOfEra % 100 / 4, yearOfEra % 4;
    assert yearOfEra == 100 * a + 4 * b + c;
    SplitStart(a, b, c);
    if c < 3 {
      SplitStart(a, b, c + 1);
    } else if b < 24 {
      SplitStart(a, b + 1, 0);
    } else if a < 3 {
      SplitStart(a + 1, 0, 0);
    }
  }

  // ---- Parts ----

  ghost predicate IsParts(days: nat, era: nat, yearOfEra: nat, dayOfYear: nat) {
    && yearOfEra <= 399 && dayOfYear < YearLength(yearOfEra)
    && days + 719_468 == 146_097 * era + YearStart(yearOfEra) + dayOfYear
  }

  lemma PartsGiveDate(days: nat, era: nat, yearOfEra: nat, dayOfYear: nat)
    requires IsParts(days, era, yearOfEra, dayOfYear)
    ensures CivilFromDays(days) == FromParts(era, yearOfEra, dayOfYear)
  {
    var z := days + 719_468;
    YearFound(yearOfEra, dayOfYear);
    UniqueRemainder(z, 146_097, era, YearStart(yearOfEra) + dayOfYear);
  }

  lemma PartsOf(days: nat) returns (era: nat, yearOfEra: nat, dayOfYear: nat)
    ensures IsParts(days, era, yearOfEra, dayOfYear)
    ensures CivilFromDays(days) == FromParts(era, yearOfEra, dayOfYear)
  {
    var z := days + 719_468;
    var dayOfEra := z % 146_097;
    era := z / 146_097;
    yearOfEra := YearOfEra(dayOfEra);
    YearBrackets(dayOfEra);
    dayOfYear := dayOfEra - YearStart(yearOfEra);
    PartsGiveDate(days, era, yearOfEra, dayOfYear);
  }

  lemma LeapRepeatsEachEra(year: nat, era: nat)
    ensures IsLeap(year + era * 400) == IsLeap(year)
  {
    var later := year + era * 400;
    UniqueRemainder(later, 4, year / 4 + 100 * era, year % 4);
    UniqueRemainder(later, 100, year / 100 + 4 * era, year % 100);
    UniqueRemainder(later, 400, year / 400 + era, year % 400);
  }

  lemma PartsAreADate(era: nat, yearOfEra: nat, dayOfYear: nat)
    requires dayOfYear < YearLength(yearOfEra)
    ensures IsDate(FromParts(era, yearOfEra, dayOfYear))
  {
    LeapRepeatsEachEra(yearOfEra + 1, era);
    MonthBrackets(dayOfYear);
  }

  /** A March-based month is as long as the calendar says, February aside. */
  lemma MonthSpan(mp: nat)
    requires mp <= 10
    ensures (153 * (mp + 1) + 2) / 5 - (153 * mp + 2) / 5 == if mp in {1, 3, 6, 8} then 30 else 31
  {
  }

  lemma NextDayOfMonths(dayOfYear: nat)
    requires dayOfYear < 365
    ensures
      var mp, next := (5 * dayOfYear + 2) / 153, (5 * (dayOfYear + 1) + 2) / 153;
      if dayOfYear + 1 < (153 * (mp + 1) + 2) / 5 then next == mp
      else next == mp + 1 && dayOfYear + 1 == (153 * next + 2) / 5
  {
    MonthBrackets(dayOfYear);
    MonthBrackets(dayOfYear + 1);
  }

  lemma NextDayOfYear(era: nat, yearOfEra: nat, dayOfYear: nat)
    requires dayOfYear + 1 < YearLength(yearOfEra)
    ensures FromParts(era, yearOfEra, dayOfYear + 1) == NextDate(FromParts(era, yearOfEra, dayOfYear))
  {
    LeapRepeatsEachEra(yearOfEra + 1, era);
    var mp := (5 * dayOfYear + 2) / 153;
    MonthBrackets(dayOfYear);
    NextDayOfMonths(dayOfYear);
    if mp <= 10 {
      MonthSpan(mp);
    }
  }

  lemma NextYear(era: nat, yearOfEra: nat)
    requires yearOfEra <= 399
    ensures NextDate(FromParts(era, yearOfEra, YearLength(yearOfEra) - 1))
            == if yearOfEra < 399 then FromParts(era, yearOfEra + 1, 0) else FromParts(era + 1, 0, 0)
  {
    LeapRepeatsEachEra(yearOfEra + 1, era);
  }

  // ---- The conversion theorems ----

  /** Every day converts to a date of the Gregorian calendar. */
  lemma CivilIsADate(days: nat)
    ensures IsDate(CivilFromDays(days))
  {
    var era, yearOfEra, dayOfYear := PartsOf(days);
    PartsAreADate(era, yearOfEra, dayOfYear);
  }

  lemma NextParts(days: nat, era: nat, yearOfEra: nat, dayOfYear: nat) returns (e: nat, y: nat, d: nat)
    requires IsParts(days, era, yearOfEra, dayOfYear)
    ensures IsParts(days + 1, e, y, d)
    ensures FromParts(e, y, d) == NextDate(FromParts(era, yearOfEra, dayOfYear))
  {
    if dayOfYear + 1 < YearLength(yearOfEra) {
      e, y, d := era, yearOfEra, dayOfYear + 1;
      NextDayOfYear(era, yearOfEra, dayOfYear);
    } else {
      YearsAbut(yearOfEra);
      NextYear(era, yearOfEra);
      e, y, d := if yearOfEra < 399 then era else era + 1, if yearOfEra < 399 then yearOfEra + 1 else 0, 0;
      assert YearStart(0) == 0;
    }
  }

  /** Each day converts to the calendar successor of the day before, across month ends, leap days and
      eras. */
  lemma CivilFollowsTheCalendar(days: nat)
    ensures CivilFromDays(days + 1) == NextDate(CivilFromDays(days))
  {
    var era, yearOfEra, dayOfYear := PartsOf(days);
    var e, y, d := NextParts(days, era, yearOfEra, dayOfYear);
    PartsGiveDate(days + 1, e, y, d);
  }

  /** The date reached by walking the calendar from the epoch: the conversion's reference. */
  function Walk(days: nat): Date {
    if days == 0 then EPOCH else NextDate(Walk(days - 1))
  }

  lemma {:induction false} WalkHasParts(days: nat) returns (era: nat, yearOfEra: nat, dayOfYear: nat)
    ensures IsParts(days, era, yearOfEra, dayOfYear) && FromParts(era, yearOfEra, dayOfYear) == Walk(days)
  {
    if days == 0 {
      era, yearOfEra, dayOfYear := 4, 369, 306;
    } else {
      var e, y, d := WalkHasParts(days - 1);
      era, yearOfEra, dayOfYear := NextParts(days - 1, e, y, d);
    }
  }

  /** The conversion lands where that many steps through the calendar from the epoch do. */
  lemma CivilIsTheWalk(days: nat)
    ensures CivilFromDays(days) == Walk(days)
  {
    var era, yearOfEra, dayOfYear := WalkHasParts(days);
    PartsGiveDate(days, era, yearOfEra, dayOfYear);
  }

  // ---- The inverse ----

  /** Days from the epoch to a date, negative before it. */
  function DaysFromCivil(date: Date): int
    requires IsDate(date)
  {
    var year := if date.month <= 2 then date.year - 1 else date.year;
    var era := if year < 0 then -1 else year / 400;
    var yearOfEra := year - 400 * era;
    146_097 * era + YearStart(yearOfEra) + DayOfYear(date) - 719_468
  }

  lemma PartsGiveDays(era: nat, yearOfEra: nat, dayOfYear: nat)
    requires yearOfEra <= 399 && dayOfYear < YearLength(yearOfEra)
    ensures IsDate(FromParts(era, yearOfEra, dayOfYear))
    ensures DaysFromCivil(FromParts(era, yearOfEra, dayOfYear))
            == 146_097 * era + YearStart(yearOfEra) + dayOfYear - 719_468
  {
    PartsAreADate(era, yearOfEra, dayOfYear);
    MonthBrackets(dayOfYear);
    var date := FromParts(era, yearOfEra, dayOfYear);
    var year := if date.month <= 2 then date.year - 1 else date.year;
    assert year == yearOfEra + era * 400;
    assert year / 400 == era;
  }

  /** Converting a day to a date and back is the identity. */
  lemma DaysRoundTrip(days: nat)
    ensures IsDate(CivilFromDays(days)) && DaysFromCivil(CivilFromDays(days)) == days
  {
    var era, yearOfEra, dayOfYear := PartsOf(days);
    PartsGiveDays(era, yearOfEra, dayOfYear);
  }

  /** A date's month and day as the day of its March-based year. */
  function DayOfYear(date: Date): nat
    requires IsDate(date)
  {
    var mp := if date.month > 2 then date.month - 3 else date.month + 9;
    (153 * mp + 2) / 5 + date.day - 1
  }

  lemma DateIsParts(date: Date, era: nat, yearOfEra: nat)
    requires IsDate(date) && (if date.month <= 2 then date.year - 1 else date.year) == yearOfEra + era * 400
    ensures DayOfYear(date) < YearLength(yearOfEra) && FromParts(era, yearOfEra, DayOfYear(date)) == date
  {
    LeapRepeatsEachEra(yearOfEra + 1, era);
    var mp := if date.month > 2 then date.month - 3 else date.month + 9;
    MonthFound(mp, date.day);
  }

  lemma MonthFound(mp: nat, day: nat)
    requires mp <= 11 && 1 <= day && (153 * mp + 2) / 5 + day - 1 < (153 * (mp + 1) + 2) / 5
    ensures (5 * ((153 * mp + 2) / 5 + day - 1) + 2) / 153 == mp
  {
  }

  /** Converting a date from the epoch on to its day and back is the identity. */
  lemma DateRoundTrip(date: Date)
    requires IsDate(date) && DaysFromCivil(date) >= 0
    ensures CivilFromDays(DaysFromCivil(date)) == date
  {
    var year := if date.month <= 2 then date.year - 1 else date.year;
    assert year >= 0;
    var era, yearOfEra: nat := year / 400, year % 400;
    DateIsParts(date, era, yearOfEra);
    PartsGiveDate(DaysFromCivil(date), era, yearOfEra, DayOfYear(date));
  }
}
