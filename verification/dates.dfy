/**
 * Calendar helpers (internal/utils/utils.go and getPreviousSunday in
 * scripts/populate_db.go). The clock is never read: "now" is a parameter.
 *
 * Two views of a date are used. For week arithmetic a date is a day number,
 * day 0 being 1970-01-01 (a Thursday), and weekdays are numbered as Go's
 * time.Weekday does, Sunday = 0 through Saturday = 6. For ages a date is a
 * (year, month, day) triple compared lexicographically.
 */
module Dates {
  import opened Wrappers

  const Sunday := 0
  const Monday := 1

  function Weekday(n: int): (w: int)
    ensures 0 <= w < 7
  {
    (n + 4) % 7
  }

  /** Moving k days moves the weekday by k, modulo 7. */
  lemma WeekdayAfter(n: int, k: int)
    ensures Weekday(n + k) == (Weekday(n) + k) % 7
  {
    var q := (n + 4) / 7;
    assert n + k + 4 == 7 * q + (Weekday(n) + k);
  }

  /** Two days with the same weekday less than a week apart are the same day. */
  lemma SameWeekdayWithinWeek(a: int, b: int)
    requires Weekday(a) == Weekday(b)
    requires a <= b < a + 7
    ensures a == b
  {
    WeekdayAfter(a, b - a);
  }

  /**
   * getPreviousSunday: a Sunday is its own week key; any other day goes back
   * weekday(t) days. The result is the most recent Sunday at or before t.
   */
  function PreviousSunday(t: int): (r: int)
    ensures Weekday(r) == Sunday
    ensures r <= t < r + 7
    ensures Weekday(t) == Sunday ==> r == t
    ensures r == t - Weekday(t)
  {
    WeekdayAfter(t, -Weekday(t));
    if Weekday(t) == Sunday then t else t - Weekday(t)
  }

  /** The week key is the only Sunday in the seven days ending at t. */
  lemma PreviousSundayUnique(t: int, s: int)
    requires Weekday(s) == Sunday && s <= t < s + 7
    ensures s == PreviousSunday(t)
  {
    var p := PreviousSunday(t);
    if s <= p {
      SameWeekdayWithinWeek(s, p);
    } else {
      SameWeekdayWithinWeek(p, s);
    }
  }

  /** Taking the week key twice changes nothing. */
  lemma PreviousSundayIdempotent(t: int)
    ensures PreviousSunday(PreviousSunday(t)) == PreviousSunday(t)
  {
  }

  /** Going back a whole number of weeks moves the week key back by as many weeks. */
  lemma {:induction false} PreviousSundayShift(t: int, weeks: int)
    ensures PreviousSunday(t - 7 * weeks) == PreviousSunday(t) - 7 * weeks
  {
    var s := PreviousSunday(t) - 7 * weeks;
    WeekdayAfter(PreviousSunday(t), -7 * weeks);
    PreviousSundayUnique(t - 7 * weeks, s);
  }

  /**
   * The week keys the seeding script writes: for i = 12 down to 0, the week
   * key of (today - 7i days), oldest first.
   */
  function SeedWeekKeys(today: int): (keys: seq<int>)
    ensures |keys| == 13
    ensures forall j :: 0 <= j < 13 ==> keys[j] == PreviousSunday(today - 7 * (12 - j))
  {
    seq(13, j => PreviousSunday(today - 7 * (12 - j)))
  }

  /** The j-th seeded key is a Sunday, 12 - j weeks before today's key. */
  lemma SeedWeekKey(today: int, j: int)
    requires 0 <= j < 13
    ensures Weekday(PreviousSunday(today - 7 * (12 - j))) == Sunday
    ensures PreviousSunday(today - 7 * (12 - j)) == PreviousSunday(today) - 84 + 7 * j
  {
    PreviousSundayShift(today, 12 - j);
  }

  /** The seeded keys are thirteen Sundays exactly one week apart, the last being today's key. */
  lemma SeedWeekKeysSpacing(today: int)
    ensures forall j :: 0 <= j < 13 ==> Weekday(SeedWeekKeys(today)[j]) == Sunday
    ensures forall j :: 0 <= j < 12 ==> SeedWeekKeys(today)[j + 1] - SeedWeekKeys(today)[j] == 7
    ensures SeedWeekKeys(today)[12] == PreviousSunday(today)
  {
    var keys := SeedWeekKeys(today);
    var last := PreviousSunday(today);
    forall j | 0 <= j < 13
      ensures Weekday(keys[j]) == Sunday && keys[j] == last - 84 + 7 * j
    {
      SeedWeekKey(today, j);
    }
  }

  /**
   * GetCurrentWeekSundayDate: today if it is a Sunday, otherwise the
   * upcoming Sunday (today + 7 - weekday). Never in the past, at most six days ahead.
   */
  function CurrentWeekSunday(today: int): (r: int)
    ensures Weekday(r) == Sunday
    ensures today <= r <= today + 6
    ensures Weekday(today) == Sunday ==> r == today
  {
    WeekdayAfter(today, 7 - Weekday(today));
    if Weekday(today) == Sunday then today else today + (7 - Weekday(today))
  }

  /** The upcoming-Sunday key and the most-recent-Sunday key agree only on Sundays. */
  lemma CurrentWeekSundayVersusPrevious(today: int)
    ensures CurrentWeekSunday(today) == if Weekday(today) == Sunday then PreviousSunday(today) else PreviousSunday(today) + 7
  {
  }

  datatype Week = Week(monday: int, sunday: int)

  /**
   * The Monday-Sunday span used by GetCurrentWeekDateRange: on a Sunday,
   * Monday is six days back; otherwise Monday is weekday-1 days back and
   * Sunday is 7-weekday days ahead.
   */
  function CurrentWeekBounds(today: int): (w: Week)
    ensures w.sunday - w.monday == 6
    ensures Weekday(w.monday) == Monday && Weekday(w.sunday) == Sunday
    ensures w.monday <= today <= w.sunday
    ensures w.sunday == CurrentWeekSunday(today)
  {
    var wd := Weekday(today);
    if wd == Sunday then
      WeekdayAfter(today, -6);
      Week(today - 6, today)
    else
      WeekdayAfter(today, -(wd - 1));
      Week(today - (wd - 1), today + (7 - wd))
  }

  // ---------------------------------------------------------------------
  // Civil dates

  datatype Civil = Civil(year: int, month: int, day: int)

  /** a is strictly earlier than b: lexicographic on (year, month, day). */
  predicate Before(a: Civil, b: Civil) {
    a.year < b.year
    || (a.year == b.year && (a.month < b.month || (a.month == b.month && a.day < b.day)))
  }

  predicate IsLeapYear(y: int) {
    y % 4 == 0 && (y % 100 != 0 || y % 400 == 0)
  }

  function DaysIn(month: int, year: int): (n: int)
    requires 1 <= month <= 12
    ensures 28 <= n <= 31
    ensures month == 2 ==> (n == 29 <==> IsLeapYear(year))
  {
    if month == 2 then (if IsLeapYear(year) then 29 else 28)
    else if month == 4 || month == 6 || month == 9 || month == 11 then 30
    else 31
  }

  predicate ValidCivil(c: Civil) {
    0 <= c.year <= 9999 && 1 <= c.month <= 12 && 1 <= c.day <= DaysIn(c.month, c.year)
  }

  function YearLength(y: int): (n: int)
    ensures n == 365 || n == 366
  {
    if IsLeapYear(y) then 366 else 365
  }

  /**
   * The proleptic Gregorian date of a day number, day 0 being 1970-01-01:
   * whole years are walked off first, then whole months. Go's time package
   * is not part of this model; this stands for t.Date().
   */
  function CivilFromDays(n: int): (c: Civil)
    ensures 1 <= c.month <= 12 && 1 <= c.day <= DaysIn(c.month, c.year)
    ensures n == 0 ==> c == Civil(1970, 1, 1)
  {
    CivilFromYear(1970, n)
  }

  /** The date `n` days after January 1 of year y (before it when n is negative). */
  function CivilFromYear(y: int, n: int): (c: Civil)
    ensures 1 <= c.month <= 12 && 1 <= c.day <= DaysIn(c.month, c.year)
    decreases if n < 0 then 1 else 0, if n < 0 then -n else n
  {
    if n < 0 then CivilFromYear(y - 1, n + YearLength(y - 1))
    else if n >= YearLength(y) then CivilFromYear(y + 1, n - YearLength(y))
    else CivilFromMonth(y, 1, n)
  }

  /** Days in months m..12 of year y. */
  function DaysFrom(m: int, y: int): (n: int)
    requires 1 <= m <= 13
    decreases 13 - m
  {
    if m == 13 then 0 else DaysIn(m, y) + DaysFrom(m + 1, y)
  }

  /** The date `n` days after the first of month m of year y, within that year. */
  function CivilFromMonth(y: int, m: int, n: int): (c: Civil)
    requires 1 <= m <= 12 && 0 <= n < DaysFrom(m, y)
    ensures 1 <= c.month <= 12 && 1 <= c.day <= DaysIn(c.month, c.year)
    decreases 12 - m
  {
    if n < DaysIn(m, y) then Civil(y, m, n + 1)
    else CivilFromMonth(y, m + 1, n - DaysIn(m, y))
  }

  // The inverse, in closed form: a civil date back to its day number.

  /** Leap years among the years before y, counted from year 1. */
  function LeapsBefore(y: int): int {
    (y - 1) / 4 - (y - 1) / 100 + (y - 1) / 400
  }

  /** Days from 1970-01-01 to January 1 of year y (negative before 1970). */
  function DaysBeforeYear(y: int): int {
    365 * (y - 1970) + LeapsBefore(y) - LeapsBefore(1970)
  }

  /** Days of year y before the first of month m. */
  function DaysBeforeMonth(m: int, y: int): int
    requires 1 <= m <= 12
  {
    [0, 31, 59, 90, 120, 151, 181, 212, 243, 273, 304, 334][m - 1]
      + (if m > 2 && IsLeapYear(y) then 1 else 0)
  }

  /** The day number of a civil date, day 0 being 1970-01-01. */
  function DaysFromCivil(c: Civil): int
    requires 1 <= c.month <= 12
  {
    DaysBeforeYear(c.year) + DaysBeforeMonth(c.month, c.year) + c.day - 1
  }

  /** January 1 of the next year is a whole year later. */
  lemma YearStep(y: int)
    ensures DaysBeforeYear(y + 1) == DaysBeforeYear(y) + YearLength(y)
  {
    Step4(y);
    Step100(y);
    Step400(y);
  }

  // Going from y - 1 to y passes one more multiple of k exactly when k divides y.

  lemma Step4(y: int)
    ensures y / 4 - (y - 1) / 4 == if y % 4 == 0 then 1 else 0
  {
    var q := (y - 1) / 4;
    assert y - 1 == 4 * q + (y - 1) % 4;
  }

  lemma Step100(y: int)
    ensures y / 100 - (y - 1) / 100 == if y % 100 == 0 then 1 else 0
  {
    var q := (y - 1) / 100;
    assert y - 1 == 100 * q + (y - 1) % 100;
  }

  lemma Step400(y: int)
    ensures y / 400 - (y - 1) / 400 == if y % 400 == 0 then 1 else 0
  {
    var q := (y - 1) / 400;
    assert y - 1 == 400 * q + (y - 1) % 400;
  }

  lemma {:induction false} CivilFromMonthInverse(y: int, m: int, n: int)
    requires 1 <= m <= 12 && 0 <= n < DaysFrom(m, y)
    ensures var c := CivilFromMonth(y, m, n);
            c.year == y && DaysBeforeMonth(c.month, y) + c.day - 1 == DaysBeforeMonth(m, y) + n
    decreases 12 - m
  {
    if n >= DaysIn(m, y) {
      assert m < 12;
      CivilFromMonthInverse(y, m + 1, n - DaysIn(m, y));
      MonthStep(m, y);
    }
  }

  /** The first of the next month is a whole month later. */
  lemma MonthStep(m: int, y: int)
    requires 1 <= m < 12
    ensures DaysBeforeMonth(m + 1, y) == DaysBeforeMonth(m, y) + DaysIn(m, y)
  {
  }

  lemma {:induction false} CivilFromYearInverse(y: int, n: int)
    ensures DaysFromCivil(CivilFromYear(y, n)) == DaysBeforeYear(y) + n
    decreases if n < 0 then 1 else 0, if n < 0 then -n else n
  {
    if n < 0 {
      assert CivilFromYear(y, n) == CivilFromYear(y - 1, n + YearLength(y - 1));
      CivilFromYearInverse(y - 1, n + YearLength(y - 1));
      YearStep(y - 1);
    } else if n >= YearLength(y) {
      assert CivilFromYear(y, n) == CivilFromYear(y + 1, n - YearLength(y));
      CivilFromYearInverse(y + 1, n - YearLength(y));
      YearStep(y);
    } else {
      assert CivilFromYear(y, n) == CivilFromMonth(y, 1, n);
      CivilFromMonthInverse(y, 1, n);
    }
  }

  /**
   * CivilFromDays names the right date: counting whole years, the months
   * before it and its day gives back the day number, for every day number.
   * So distinct day numbers are distinct dates.
   */
  lemma CivilFromDaysInverse(n: int)
    ensures DaysFromCivil(CivilFromDays(n)) == n
  {
    CivilFromYearInverse(1970, n);
  }

  /** The parts of the "Mon DD - Mon DD[, YYYY]" label; month names are not modelled. */
  datatype RangeLabel = RangeLabel(monday: Civil, sunday: Civil, year: Option<int>)

  /** GetCurrentWeekDateRange: the year is appended only when the week straddles two years. */
  function CurrentWeekRangeLabel(today: int): (l: RangeLabel)
    ensures l.monday == CivilFromDays(CurrentWeekBounds(today).monday)
    ensures l.sunday == CivilFromDays(CurrentWeekBounds(today).sunday)
    ensures l.year.Some? <==> l.monday.year != l.sunday.year
    ensures l.year.Some? ==> l.year.value == l.sunday.year
  {
    var w := CurrentWeekBounds(today);
    var mon, sun := CivilFromDays(w.monday), CivilFromDays(w.sunday);
    RangeLabel(mon, sun, if mon.year == sun.year then None else Some(sun.year))
  }

  // ---------------------------------------------------------------------
  // "YYYY-MM-DD" text, as time.Parse and Time.Format use it with layout "2006-01-02"

  predicate IsDigit(c: char) {
    '0' <= c <= '9'
  }

  predicate AllDigits(s: string) {
    forall i :: 0 <= i < |s| ==> IsDigit(s[i])
  }

  /** The value of a string of decimal digits, most significant first. */
  function Number(s: string): (n: nat)
    requires AllDigits(s)
  {
    if s == [] then 0 else Number(s[..|s| - 1]) * 10 + (s[|s| - 1] as int - '0' as int)
  }

  function Pow10(k: nat): (p: nat)
    ensures p >= 1
  {
    if k == 0 then 1 else 10 * Pow10(k - 1)
  }

  /** n written with exactly `width` digits, zero-padded on the left. */
  function Digits(n: nat, width: nat): (s: string)
    ensures |s| == width && AllDigits(s)
  {
    if width == 0 then [] else Digits(n / 10, width - 1) + [('0' as int + n % 10) as char]
  }

  /** Reading back a zero-padded number gives the number, when it fits the width. */
  lemma {:induction false} NumberOfDigits(n: nat, width: nat)
    requires n < Pow10(width)
    ensures Number(Digits(n, width)) == n
  {
    if width > 0 {
      var s := Digits(n, width);
      assert s[..|s| - 1] == Digits(n / 10, width - 1);
      NumberOfDigits(n / 10, width - 1);
    }
  }

  /** Writing back a digit string at its own width gives the same string. */
  lemma {:induction false} DigitsOfNumber(s: string)
    requires AllDigits(s)
    ensures Number(s) < Pow10(|s|)
    ensures Digits(Number(s), |s|) == s
  {
    if s != [] {
      var init := s[..|s| - 1];
      DigitsOfNumber(init);
      var n := Number(s);
      assert n / 10 == Number(init) && n % 10 == s[|s| - 1] as int - '0' as int;
    }
  }

  /** Time.Format("2006-01-02") of a date of years 0-9999: every field reads back from its digits. */
  function FormatDate(c: Civil): (s: string)
    requires ValidCivil(c)
    ensures |s| == 10 && s[4] == '-' && s[7] == '-'
    ensures AllDigits(s[..4]) && AllDigits(s[5..7]) && AllDigits(s[8..])
    ensures Number(s[..4]) == c.year && Number(s[5..7]) == c.month && Number(s[8..]) == c.day
  {
    NumberOfDigits(c.year, 4);
    NumberOfDigits(c.month, 2);
    NumberOfDigits(c.day, 2);
    var s := Digits(c.year, 4) + "-" + Digits(c.month, 2) + "-" + Digits(c.day, 2);
    assert s[..4] == Digits(c.year, 4) && s[5..7] == Digits(c.month, 2) && s[8..] == Digits(c.day, 2);
    s
  }

  /**
   * time.Parse("2006-01-02", s): exactly four year digits, two month digits,
   * two day digits, with '-' between them and nothing after; the month must
   * be 1-12 and the day must exist in that month of that year.
   */
  function ParseDate(s: string): (r: Option<Civil>)
    ensures r.Some? ==> ValidCivil(r.value) && FormatDate(r.value) == s
  {
    if |s| == 10 && s[4] == '-' && s[7] == '-'
       && AllDigits(s[..4]) && AllDigits(s[5..7]) && AllDigits(s[8..]) then
      var c := Civil(Number(s[..4]), Number(s[5..7]), Number(s[8..]));
      if 1 <= c.month <= 12 && 1 <= c.day <= DaysIn(c.month, c.year) then
        DigitsOfNumber(s[..4]);
        DigitsOfNumber(s[5..7]);
        DigitsOfNumber(s[8..]);
        assert s == s[..4] + "-" + s[5..7] + "-" + s[8..];
        Some(c)
      else None
    else None
  }

  /** Every real calendar date of years 0-9999 survives formatting and parsing. */
  lemma ParseFormatRoundTrip(c: Civil)
    requires ValidCivil(c)
    ensures ParseDate(FormatDate(c)) == Some(c)
  {
  }

  // ---------------------------------------------------------------------
  // Age

  datatype AgeError = MissingBirthDate | InvalidBirthDate

  /** b's k-th birthday, written as a triple even when it does not exist (29 February). */
  function Anniversary(b: Civil, k: int): Civil {
    Civil(b.year + k, b.month, b.day)
  }

  /** On `now`, exactly k birthdays of someone born on b have passed. */
  predicate CompletedYears(b: Civil, now: Civil, k: int) {
    !Before(now, Anniversary(b, k)) && Before(now, Anniversary(b, k + 1))
  }

  /** At most one k can be the number of completed years. */
  lemma CompletedYearsUnique(b: Civil, now: Civil, j: int, k: int)
    requires CompletedYears(b, now, j) && CompletedYears(b, now, k)
    ensures j == k
  {
  }

  /**
   * The year difference, less one exactly when (now.month, now.day) comes
   * before (birth.month, birth.day). Shared by both GetAge revisions.
   */
  function YearsBetween(b: Civil, now: Civil): (age: int)
    ensures CompletedYears(b, now, age)
  {
    var age := now.year - b.year;
    if now.month < b.month || (now.month == b.month && now.day < b.day) then age - 1 else age
  }

  /** On or after the birth date the age is never negative. */
  lemma YearsBetweenNonNegative(b: Civil, now: Civil)
    requires !Before(now, b)
    ensures YearsBetween(b, now) >= 0
  {
  }

  /**
   * utils.GetAge(p, now): an empty birth date or one that is not a
   * "YYYY-MM-DD" date is an error; otherwise the number of completed years.
   */
  function GetAge(birthDate: string, now: Civil): (r: Result<int, AgeError>)
    ensures birthDate == "" ==> r == Failure(MissingBirthDate)
    ensures r.Failure? <==> ParseDate(birthDate).None?
    ensures r.Success? ==> CompletedYears(ParseDate(birthDate).value, now, r.value)
  {
    if birthDate == "" then Failure(MissingBirthDate)
    else match ParseDate(birthDate)
      case None => Failure(InvalidBirthDate)
      case Some(b) => Success(YearsBetween(b, now))
  }
}
