/** Unix seconds as an RFC 3339 UTC timestamp. */
module Timestamps {
  import opened Calendar
  import opened Text

  const SECONDS_PER_DAY: nat := 86_400

  /** The first second of the year 10000. */
  const FIVE_DIGIT_YEARS: nat := 253_402_300_800

  datatype Moment = Moment(date: Date, hour: nat, minute: nat, second: nat)

  function OnClock(date: Date, ofDay: nat): Moment {
    Moment(date, ofDay / 3600, ofDay % 3600 / 60, ofDay % 60)
  }

  function MomentOf(seconds: nat): Moment {
    OnClock(CivilFromDays(seconds / SECONDS_PER_DAY), seconds % SECONDS_PER_DAY)
  }

  function TimeText(moment: Moment): string {
    Padded(moment.hour, 2) + (":" + (Padded(moment.minute, 2) + (":" + (Padded(moment.second, 2) + "Z"))))
  }

  function MonthText(moment: Moment): string {
    Padded(moment.date.month, 2) + ("-" + (Padded(moment.date.day, 2) + ("T" + TimeText(moment))))
  }

  /** The format of section 5.6 of RFC 3339. */
  function TextOf(moment: Moment): string {
    Padded(moment.date.year, 4) + ("-" + MonthText(moment))
  }

  function Rfc3339FromUnix(seconds: nat): string {
    TextOf(MomentOf(seconds))
  }

  // ---- Order of moments ----

  predicate DateBefore(a: Date, b: Date) {
    a.year < b.year || (a.year == b.year && (a.month < b.month || (a.month == b.month && a.day < b.day)))
  }

  predicate TimeBefore(a: Moment, b: Moment) {
    a.hour < b.hour || (a.hour == b.hour && (a.minute < b.minute || (a.minute == b.minute && a.second < b.second)))
  }

  predicate Before(a: Moment, b: Moment) {
    DateBefore(a.date, b.date) || (a.date == b.date && TimeBefore(a, b))
  }

  lemma NextDateIsLater(date: Date)
    requires IsDate(date)
    ensures IsDate(NextDate(date)) && DateBefore(date, NextDate(date))
  {
  }

  lemma {:induction false} WalkIsLater(a: nat, b: nat)
    requires a < b
    ensures IsDate(Walk(a)) && IsDate(Walk(b)) && DateBefore(Walk(a), Walk(b))
    decreases b
  {
    if a < b - 1 {
      WalkIsLater(a, b - 1);
    } else {
      CivilIsTheWalk(a);
      CivilIsADate(a);
    }
    NextDateIsLater(Walk(b - 1));
  }

  /** A later day is a later date. */
  lemma LaterDaysAreLaterDates(a: nat, b: nat)
    requires a < b
    ensures DateBefore(CivilFromDays(a), CivilFromDays(b))
  {
    WalkIsLater(a, b);
    CivilIsTheWalk(a);
    CivilIsTheWalk(b);
  }

  lemma ClockOrder(a: Date, b: Date, s: nat, t: nat)
    requires DateBefore(a, b) || (a == b && s < t)
    requires s < SECONDS_PER_DAY && t < SECONDS_PER_DAY
    ensures Before(OnClock(a, s), OnClock(b, t))
  {
    if a == b {
      SameDayOrder(a, s, t);
    }
  }

  lemma SameDayOrder(date: Date, s: nat, t: nat)
    requires s < t < SECONDS_PER_DAY
    ensures Before(OnClock(date, s), OnClock(date, t))
  {
    ClockParts(date, s);
    ClockParts(date, t);
    PartsOrder(OnClock(date, s), OnClock(date, t));
  }

  lemma ClockParts(date: Date, ofDay: nat)
    ensures var moment := OnClock(date, ofDay);
            && ofDay == 3600 * moment.hour + 60 * moment.minute + moment.second
            && moment.minute < 60 && moment.second < 60
  {
  }

  lemma PartsOrder(a: Moment, b: Moment)
    requires a.minute < 60 && a.second < 60 && b.minute < 60 && b.second < 60
    requires 3600 * a.hour + 60 * a.minute + a.second < 3600 * b.hour + 60 * b.minute + b.second
    ensures TimeBefore(a, b)
  {
  }

  lemma SplitSeconds(s: nat, t: nat)
    requires s < t
    ensures s / SECONDS_PER_DAY < t / SECONDS_PER_DAY
            || (s / SECONDS_PER_DAY == t / SECONDS_PER_DAY && s % SECONDS_PER_DAY < t % SECONDS_PER_DAY)
  {
  }

  lemma LaterDaysThenTimes(a: nat, b: nat, s: nat, t: nat)
    requires a < b || (a == b && s < t)
    requires s < SECONDS_PER_DAY && t < SECONDS_PER_DAY
    ensures Before(OnClock(CivilFromDays(a), s), OnClock(CivilFromDays(b), t))
  {
    if a < b {
      LaterDaysAreLaterDates(a, b);
    }
    ClockOrder(CivilFromDays(a), CivilFromDays(b), s, t);
  }

  /** Later seconds are later moments, by the calendar's date first and the time of day second. */
  lemma LaterSecondsAreLaterMoments(s: nat, t: nat)
    requires s < t
    ensures Before(MomentOf(s), MomentOf(t))
  {
    SplitSeconds(s, t);
    LaterDaysThenTimes(s / SECONDS_PER_DAY, t / SECONDS_PER_DAY, s % SECONDS_PER_DAY, t % SECONDS_PER_DAY);
  }

  // ---- The text ----

  predicate Printable(moment: Moment) {
    IsDate(moment.date) && moment.hour < 24 && moment.minute < 60 && moment.second < 60
  }

  lemma MomentIsPrintable(seconds: nat)
    ensures Printable(MomentOf(seconds))
  {
    CivilIsADate(seconds / SECONDS_PER_DAY);
  }

  lemma Pow10Of4()
    ensures Pow10(2) == 100 && Pow10(4) == 10_000
  {
    assert Pow10(2) == 10 * Pow10(1);
    assert Pow10(4) == 10 * Pow10(3);
  }

  lemma TwoDigits(m: nat, n: nat, x: string, y: string)
    requires m < 100 && n < 100
    ensures |Padded(m, 2)| == 2
    ensures Precedes(Padded(m, 2) + x, Padded(n, 2) + y) <==> m < n || (m == n && Precedes(x, y))
  {
    Pow10Of4();
    PaddedFits(m, 2);
    PaddedFits(n, 2);
    FixedKeepsOrder(m, n, 2);
    PrecedesByPrefix(Padded(m, 2), Padded(n, 2), x, y);
  }

  lemma Separated(mark: string, x: string, y: string)
    requires |mark| == 1
    ensures Precedes(mark + x, mark + y) <==> Precedes(x, y)
  {
    PrecedesByPrefix(mark, mark, x, y);
  }

  lemma MarkedNumber(mark: string, m: nat, n: nat, x: string, y: string)
    requires |mark| == 1 && m < 100 && n < 100
    ensures Precedes(mark + (Padded(m, 2) + x), mark + (Padded(n, 2) + y)) <==> m < n || (m == n && Precedes(x, y))
  {
    Separated(mark, Padded(m, 2) + x, Padded(n, 2) + y);
    TwoDigits(m, n, x, y);
  }

  lemma TimeTextOrder(a: Moment, b: Moment)
    requires Printable(a) && Printable(b)
    ensures Precedes(TimeText(a), TimeText(b)) <==> TimeBefore(a, b)
    ensures |TimeText(a)| == 9
  {
    TwoDigits(a.hour, b.hour, ":" + (Padded(a.minute, 2) + (":" + (Padded(a.second, 2) + "Z"))),
              ":" + (Padded(b.minute, 2) + (":" + (Padded(b.second, 2) + "Z"))));
    MarkedNumber(":", a.minute, b.minute, ":" + (Padded(a.second, 2) + "Z"), ":" + (Padded(b.second, 2) + "Z"));
    MarkedNumber(":", a.second, b.second, "Z", "Z");
    TwoDigits(a.minute, b.minute, "", "");
    TwoDigits(a.second, b.second, "", "");
    assert !Precedes("Z", "Z") by {
      assert "Z"[1..] == "";
    }
  }

  lemma MonthTextOrder(a: Moment, b: Moment)
    requires Printable(a) && Printable(b)
    ensures Precedes(MonthText(a), MonthText(b)) <==>
            a.date.month < b.date.month || (a.date.month == b.date.month &&
              (a.date.day < b.date.day || (a.date.day == b.date.day && TimeBefore(a, b))))
    ensures |MonthText(a)| == 15
  {
    TimeTextOrder(a, b);
    TwoDigits(a.date.month, b.date.month, "-" + (Padded(a.date.day, 2) + ("T" + TimeText(a))),
              "-" + (Padded(b.date.day, 2) + ("T" + TimeText(b))));
    MarkedNumber("-", a.date.day, b.date.day, "T" + TimeText(a), "T" + TimeText(b));
    Separated("T", TimeText(a), TimeText(b));
    TwoDigits(a.date.day, b.date.day, "", "");
  }

  /** Up to the year 9999 texts have one length and sort as their moments do. */
  lemma TextOrder(a: Moment, b: Moment)
    requires Printable(a) && Printable(b)
    ensures |TextOf(a)| == 20 <==> a.date.year < 10_000
    ensures a.date.year < 10_000 && b.date.year < 10_000 ==> (Precedes(TextOf(a), TextOf(b)) <==> Before(a, b))
  {
    MonthTextOrder(a, b);
    Pow10Of4();
    PaddedFits(a.date.year, 4);
    PaddedFits(b.date.year, 4);
    if a.date.year < 10_000 && b.date.year < 10_000 {
      FixedKeepsOrder(a.date.year, b.date.year, 4);
      PrecedesByPrefix(Padded(a.date.year, 4), Padded(b.date.year, 4), "-" + MonthText(a), "-" + MonthText(b));
      Separated("-", MonthText(a), MonthText(b));
    }
  }

  // ---- Reading a timestamp back ----

  /** A number of a fixed width, and whatever follows it. */
  lemma NumberThen(n: nat, width: nat, rest: string)
    requires 0 < width && n < Pow10(width)
    ensures |Padded(n, width)| == width
    ensures var s := Padded(n, width) + rest; |s| == width + |rest| && Value(s[..width]) == n && s[width..] == rest
  {
    PaddedFits(n, width);
    FixedReadsBack(n, width);
    assert (Padded(n, width) + rest)[..width] == Padded(n, width);
  }

  lemma TimeReads(moment: Moment)
    requires Printable(moment)
    ensures
      var s := TimeText(moment);
      && |s| == 9 && s[2] == ':' && s[5] == ':' && s[8] == 'Z'
      && Value(s[..2]) == moment.hour && Value(s[3..5]) == moment.minute && Value(s[6..8]) == moment.second
  {
    Pow10Of4();
    var second := Padded(moment.second, 2) + "Z";
    var minute := Padded(moment.minute, 2) + (":" + second);
    NumberThen(moment.second, 2, "Z");
    NumberThen(moment.minute, 2, ":" + second);
    NumberThen(moment.hour, 2, ":" + minute);
    var s := TimeText(moment);
    assert s[3..] == minute && s[6..] == second;
    assert s[3..5] == minute[..2] && s[6..8] == second[..2];
  }

  lemma MonthReads(moment: Moment)
    requires Printable(moment)
    ensures
      var s := MonthText(moment);
      && |s| == 15 && s[2] == '-' && s[5] == 'T' && s[6..] == TimeText(moment)
      && Value(s[..2]) == moment.date.month && Value(s[3..5]) == moment.date.day
  {
    Pow10Of4();
    TimeReads(moment);
    var day := Padded(moment.date.day, 2) + ("T" + TimeText(moment));
    NumberThen(moment.date.day, 2, "T" + TimeText(moment));
    NumberThen(moment.date.month, 2, "-" + day);
    var s := MonthText(moment);
    assert s[3..] == day;
    assert s[3..5] == day[..2] && s[6..] == day[3..];
  }

  /** The separators of section 5.6 of RFC 3339, each in its place. */
  predicate HasShape(s: string) {
    |s| == 20 && s[4] == '-' && s[7] == '-' && s[10] == 'T' && s[13] == ':' && s[16] == ':' && s[19] == 'Z'
  }

  /** The moment such a text states, read off its digits. */
  function Reading(s: string): (int, int, int, int, int, int)
    requires |s| == 20
  {
    (Value(s[..4]), Value(s[5..7]), Value(s[8..10]), Value(s[11..13]), Value(s[14..16]), Value(s[17..19]))
  }

  lemma TextReads(moment: Moment)
    requires Printable(moment) && moment.date.year < 10_000
    ensures HasShape(TextOf(moment))
    ensures Reading(TextOf(moment))
            == (moment.date.year, moment.date.month, moment.date.day, moment.hour, moment.minute, moment.second)
  {
    Pow10Of4();
    MonthReads(moment);
    TimeReads(moment);
    NumberThen(moment.date.year, 4, "-" + MonthText(moment));
    var s, month, time := TextOf(moment), MonthText(moment), TimeText(moment);
    assert s[5..] == month;
    assert s[5..7] == month[..2] && s[8..10] == month[3..5] && s[11..] == month[6..];
    assert s[11..13] == time[..2] && s[14..16] == time[3..5] && s[17..19] == time[6..8];
  }

  /** Before the year 10000 a timestamp has the standard's shape, and its digits, read as a date and a time
      of day, give back exactly the second it was made from. */
  lemma TimestampReadsBack(seconds: nat)
    requires seconds < FIVE_DIGIT_YEARS
    ensures HasShape(Rfc3339FromUnix(seconds))
    ensures
      var (year, month, day, hour, minute, second) := Reading(Rfc3339FromUnix(seconds));
      && year >= 0 && month >= 0 && day >= 0 && IsDate(Date(year, month, day))
      && DaysFromCivil(Date(year, month, day)) * SECONDS_PER_DAY + 3600 * hour + 60 * minute + second == seconds
  {
    var days, ofDay := seconds / SECONDS_PER_DAY, seconds % SECONDS_PER_DAY;
    MomentIsPrintable(seconds);
    YearOfMoment(seconds);
    TextReads(MomentOf(seconds));
    ClockParts(CivilFromDays(days), ofDay);
    DaysRoundTrip(days);
  }

  // ---- The year 10000 ----

  const LAST_FOUR_DIGIT_DAY: nat := 2_932_896

  lemma LastFourDigitDay()
    ensures CivilFromDays(LAST_FOUR_DIGIT_DAY) == Date(9999, 12, 31)
    ensures CivilFromDays(LAST_FOUR_DIGIT_DAY + 1) == Date(10_000, 1, 1)
  {
    PartsGiveDate(LAST_FOUR_DIGIT_DAY, 24, 399, 305);
    CivilFollowsTheCalendar(LAST_FOUR_DIGIT_DAY);
  }

  lemma YearOfDay(days: nat)
    ensures CivilFromDays(days).year < 10_000 <==> days <= LAST_FOUR_DIGIT_DAY
  {
    LastFourDigitDay();
    if days < LAST_FOUR_DIGIT_DAY {
      LaterDaysAreLaterDates(days, LAST_FOUR_DIGIT_DAY);
    } else if days > LAST_FOUR_DIGIT_DAY + 1 {
      LaterDaysAreLaterDates(LAST_FOUR_DIGIT_DAY + 1, days);
    }
  }

  lemma DayBeforeFiveDigits(seconds: nat)
    ensures seconds < FIVE_DIGIT_YEARS <==> seconds / SECONDS_PER_DAY <= LAST_FOUR_DIGIT_DAY
  {
  }

  lemma YearOfMoment(seconds: nat)
    ensures MomentOf(seconds).date.year < 10_000 <==> seconds < FIVE_DIGIT_YEARS
  {
    YearOfDay(seconds / SECONDS_PER_DAY);
    DayBeforeFiveDigits(seconds);
  }

  /** A timestamp has the standard's four-digit year, and so its fixed length, exactly before the
      year 10000. */
  lemma FixedLengthBeforeFiveDigitYears(seconds: nat)
    ensures |Rfc3339FromUnix(seconds)| == 20 <==> seconds < FIVE_DIGIT_YEARS
  {
    MomentIsPrintable(seconds);
    YearOfMoment(seconds);
    TextOrder(MomentOf(seconds), MomentOf(seconds));
  }

  /** Before the year 10000 timestamps sort as text exactly as their instants do. */
  lemma TimestampsSortAsTime(s: nat, t: nat)
    requires s < FIVE_DIGIT_YEARS && t < FIVE_DIGIT_YEARS
    ensures Precedes(Rfc3339FromUnix(s), Rfc3339FromUnix(t)) <==> s < t
  {
    MomentIsPrintable(s);
    MomentIsPrintable(t);
    YearOfMoment(s);
    YearOfMoment(t);
    TextOrder(MomentOf(s), MomentOf(t));
    MomentsInOrder(s, t);
  }

  lemma MomentsInOrder(s: nat, t: nat)
    ensures Before(MomentOf(s), MomentOf(t)) <==> s < t
  {
    if s < t {
      LaterSecondsAreLaterMoments(s, t);
    } else if t < s {
      LaterSecondsAreLaterMoments(t, s);
    }
  }

  lemma LeadingDigits()
    ensures Padded(9999, 4)[0] == '9' && Padded(10_000, 4)[0] == '1'
  {
    assert Digits(9) == "9" && Digits(99) == Digits(9) + "9";
    assert Digits(999) == Digits(99) + "9" && Digits(9999) == Digits(999) + "9";
    assert Digits(1) == "1" && Digits(10) == Digits(1) + "0" && Digits(100) == Digits(10) + "0";
    assert Digits(1000) == Digits(100) + "0" && Digits(10_000) == Digits(1000) + "0";
  }

  lemma FifthDigitTurnsBack(a: Moment, b: Moment)
    requires a.date.year == 9999 && b.date.year == 10_000
    ensures !Precedes(TextOf(a), TextOf(b))
  {
    LeadingDigits();
  }

  lemma FiveDigitYearSortsFirst()
    ensures !Precedes(Rfc3339FromUnix(FIVE_DIGIT_YEARS - 1), Rfc3339FromUnix(FIVE_DIGIT_YEARS))
  {
    LastFourDigitDay();
    assert (FIVE_DIGIT_YEARS - 1) / SECONDS_PER_DAY == LAST_FOUR_DIGIT_DAY;
    assert FIVE_DIGIT_YEARS / SECONDS_PER_DAY == LAST_FOUR_DIGIT_DAY + 1;
    FifthDigitTurnsBack(MomentOf(FIVE_DIGIT_YEARS - 1), MomentOf(FIVE_DIGIT_YEARS));
  }

  /** Sorting timestamps as text is sorting them by time exactly as long as none reaches the year
      10000: at that instant the text order turns back. */
  lemma SortingIsSafeExactlyBeforeFiveDigitYears(limit: nat)
    ensures (forall s, t | 0 <= s < t <= limit :: Precedes(Rfc3339FromUnix(s), Rfc3339FromUnix(t)))
            <==> limit < FIVE_DIGIT_YEARS
  {
    if limit < FIVE_DIGIT_YEARS {
      forall s, t | 0 <= s < t <= limit ensures Precedes(Rfc3339FromUnix(s), Rfc3339FromUnix(t)) {
        TimestampsSortAsTime(s, t);
      }
    } else {
      FiveDigitYearSortsFirst();
    }
  }
}
