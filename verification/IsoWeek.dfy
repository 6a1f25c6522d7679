/**
  ISO 8601 week numbers of the chrono formatter, against the calendar itself.

  The code computes with C++ division, which truncates toward zero.  The calendar below is
  the proleptic Gregorian one, with an astronomical year 0, written with flooring division.
 */
module IsoWeek {
  import opened Arithmetic

  // ----- The code ------------------------------------------------------------------------

  function YearSum(year: int): int {
    TruncMod(year + TruncDiv(year, 4) - TruncDiv(year, 100) + TruncDiv(year, 400), 7)
  }

  function IsoYearWeeks(currYear: int): int {
    52 + (if YearSum(currYear) == 4 || YearSum(currYear - 1) == 3 then 1 else 0)
  }

  function IsoWeekNum(yday: int, wday: int): int {
    TruncDiv(yday + 11 - (if wday == 0 then 7 else wday), 7)
  }

  /** The fields of std::tm that matter here; `year` already has 1900 added. */
  datatype Tm = Tm(year: int, yday: int, wday: int)

  function IsoWeekYear(tm: Tm): int {
    var w := IsoWeekNum(tm.yday, tm.wday);
    if w < 1 then tm.year - 1
    else if w > IsoYearWeeks(tm.year) then tm.year + 1
    else tm.year
  }

  function IsoWeekOfYear(tm: Tm): int {
    var w := IsoWeekNum(tm.yday, tm.wday);
    if w < 1 then IsoYearWeeks(tm.year - 1)
    else if w > IsoYearWeeks(tm.year) then 1
    else w
  }

  // ----- The calendar --------------------------------------------------------------------

  function LeapDays(year: int): int { year / 4 - year / 100 + year / 400 }

  predicate IsLeap(year: int) {
    year % 4 == 0 && (year % 100 != 0 || year % 400 == 0)
  }

  function YearLength(year: int): int { if IsLeap(year) then 366 else 365 }

  /** Days from 1 January of year 1, a Monday, to 1 January of `year`. */
  function NewYear(year: int): int { 365 * (year - 1) + LeapDays(year - 1) }

  function DayNumber(tm: Tm): int { NewYear(tm.year) + tm.yday }

  /** A real date whose day of the year and day of the week agree (Sunday is 0). */
  predicate Consistent(tm: Tm) {
    0 <= tm.yday < YearLength(tm.year) && tm.wday == (DayNumber(tm) + 1) % 7
  }

  /** Weeks run from Monday to Sunday; a week belongs to the year that holds its Thursday. */
  function ThursdayOf(day: int): int { day - day % 7 + 3 }

  /** `day` lies in week `week` of ISO year `year`: its week's Thursday is the week-th
      Thursday of that year. */
  predicate InIsoWeek(day: int, year: int, week: int) {
    var th := ThursdayOf(day);
    NewYear(year) <= th < NewYear(year + 1) && week == (th - NewYear(year)) / 7 + 1
  }

  function ThursdaysIn(first: int, days: nat): nat {
    if days == 0 then 0
    else ThursdaysIn(first, days - 1) + (if (first + days - 1) % 7 == 3 then 1 else 0)
  }

  // ----- Facts about the calendar ---------------------------------------------------------

  lemma Mod7(a: int, b: int, q: int)
    requires a == b + 7 * q
    ensures a % 7 == b % 7
  {
  }

  lemma DivStep4(n: int)
    ensures n / 4 - (n - 1) / 4 == if n % 4 == 0 then 1 else 0
  {
  }

  lemma DivStep100(n: int)
    ensures n / 100 - (n - 1) / 100 == if n % 100 == 0 then 1 else 0
  {
  }

  lemma DivStep400(n: int)
    ensures n / 400 - (n - 1) / 400 == if n % 400 == 0 then 1 else 0
  {
  }

  lemma Divisors(n: int)
    ensures n % 100 == 0 ==> n % 4 == 0
    ensures n % 400 == 0 ==> n % 100 == 0
  {
    if n % 100 == 0 {
      Multiple4(n, 25 * (n / 100));
    }
    if n % 400 == 0 {
      Multiple100(n, 4 * (n / 400));
    }
  }

  lemma Multiple4(n: int, q: int)
    requires n == 4 * q
    ensures n % 4 == 0
  {
  }

  lemma Multiple100(n: int, q: int)
    requires n == 100 * q
    ensures n % 100 == 0
  {
  }

  lemma NextNewYear(year: int)
    ensures NewYear(year + 1) == NewYear(year) + YearLength(year)
  {
    DivStep4(year);
    DivStep100(year);
    DivStep400(year);
    Divisors(year);
  }

  lemma {:induction false} ThursdayCount(first: int, days: nat)
    ensures ThursdaysIn(first, days) == (days + 6 - (3 - first) % 7) / 7
  {
    if days > 0 {
      ThursdayCount(first, days - 1);
      OneMoreDay(first, days - 1);
    }
  }

  lemma OneMoreDay(first: int, x: nat)
    ensures (x + 1 + 6 - (3 - first) % 7) / 7
         == (x + 6 - (3 - first) % 7) / 7 + (if (first + x) % 7 == 3 then 1 else 0)
  {
    var f, q := (3 - first) % 7, (3 - first) / 7;
    Mod7(first + x, 3 + (x - f), -q);
    assert (x + 7 - f) / 7 - (x + 6 - f) / 7 == if (x + 7 - f) % 7 == 0 then 1 else 0;
    Mod7(x + 7 - f, x - f, 1);
    assert (3 + (x - f)) % 7 == 3 <==> (x - f) % 7 == 0;
  }

  /** Week 1 is the week with 4 January in it, and seven days on is one week on inside a year. */
  lemma WeekOneHoldsFourthJanuary(year: int)
    ensures InIsoWeek(NewYear(year) + 3, year, 1)
    ensures forall day, week :: InIsoWeek(day, year, week) && ThursdayOf(day) + 7 < NewYear(year + 1)
              ==> InIsoWeek(day + 7, year, week + 1)
  {
    NextNewYear(year);
    forall day, week | InIsoWeek(day, year, week) && ThursdayOf(day) + 7 < NewYear(year + 1)
      ensures InIsoWeek(day + 7, year, week + 1)
    {
      assert (day + 7) % 7 == day % 7;
    }
  }

  // ----- The main results ------------------------------------------------------------------

  /** The year of the Thursday in the date's week, and the number of that Thursday in it. */
  function CalendarYear(tm: Tm): int {
    var th := ThursdayOf(DayNumber(tm));
    if th < NewYear(tm.year) then tm.year - 1
    else if th >= NewYear(tm.year + 1) then tm.year + 1
    else tm.year
  }

  function CalendarWeek(tm: Tm): int {
    (ThursdayOf(DayNumber(tm)) - NewYear(CalendarYear(tm))) / 7 + 1
  }

  lemma CalendarIsInIsoWeek(tm: Tm)
    requires Consistent(tm)
    ensures InIsoWeek(DayNumber(tm), CalendarYear(tm), CalendarWeek(tm))
    ensures 1 <= CalendarWeek(tm) <= 53
  {
    NextNewYear(tm.year - 1);
    NextNewYear(tm.year);
    NextNewYear(tm.year + 1);
  }

  /** In C++ arithmetic the year sum is the weekday of the following New Year from year 0 on. */
  lemma YearSumIsWeekday(year: int)
    ensures year >= 0 ==> YearSum(year) == NewYear(year + 1) % 7
    ensures year < 0 ==> YearSum(year) <= 0
  {
    if year >= 0 {
      Mod7(NewYear(year + 1), year + LeapDays(year), 52 * year);
      assert LeapDays(year) >= 0;
    } else {
      var n := -year;
      assert n / 4 - n / 100 + n / 400 >= 0;
    }
  }

  /** Fifty-three Thursdays fit in a year just when it starts or ends with one. */
  lemma Weeks53(first: int, days: int)
    requires days == 365 || days == 366
    ensures (days + 6 - (3 - first) % 7) / 7
         == 52 + (if (first + days) % 7 == 4 || first % 7 == 3 then 1 else 0)
  {
    var m := first % 7;
    Mod7(3 - first, 3 - m, -(first / 7));
    Mod7(first + days, m + days, first / 7);
  }

  lemma YearZero()
    ensures NewYear(0) == -366
  {
  }

  /** `iso_year_weeks` is the number of Thursdays of the year, from year 0 on; before that it
      is 52 whatever the year. */
  lemma YearWeeksAreThursdays(year: int)
    ensures year >= 0 ==> IsoYearWeeks(year) == ThursdaysIn(NewYear(year), YearLength(year))
    ensures year < 0 ==> IsoYearWeeks(year) == 52
  {
    hide NewYear, YearSum;
    YearSumIsWeekday(year);
    YearSumIsWeekday(year - 1);
    if year >= 0 {
      NextNewYear(year);
      ThursdayCount(NewYear(year), YearLength(year));
      Weeks53(NewYear(year), YearLength(year));
      YearZero();
    }
  }

  lemma LastThursday(first: int, days: int, th: int)
    requires days == 365 || days == 366
    requires th % 7 == 3 && first + days - 7 <= th < first + days
    ensures (th - first) / 7 + 1 == (days + 6 - (3 - first) % 7) / 7
  {
    var m := first % 7;
    Mod7(3 - first, 3 - m, -(first / 7));
    Mod7(th - first, 3 - m, th / 7 - first / 7);
  }

  /** `iso_week_num` counts from the Thursday of the date's week, which may lie up to three
      days outside the date's own year. */
  lemma WeekNumFromThursday(first: int, yday: nat)
    ensures var day := first + yday; var r := ThursdayOf(day) - first;
      && yday - 3 <= r <= yday + 3
      && IsoWeekNum(yday, (day + 1) % 7) == (r + 7) / 7
  {
    var day := first + yday;
    assert (day + 1) % 7 == if day % 7 == 6 then 0 else day % 7 + 1;
  }

  /** In terms of the calendar, the pair is wrong exactly in week 53 of a year before year 0. */
  lemma OnlyWeek53Fails(tm: Tm)
    requires Consistent(tm)
    ensures IsoWeekYear(tm) == CalendarYear(tm) && IsoWeekOfYear(tm) == CalendarWeek(tm)
       <==> CalendarYear(tm) >= 0 || CalendarWeek(tm) <= 52
  {
    hide NewYear, IsoYearWeeks, ThursdaysIn, IsoWeekNum, IsLeap;
    var th, y := ThursdayOf(DayNumber(tm)), tm.year;
    WeekNumFromThursday(NewYear(y), tm.yday);
    NextNewYear(y - 1);
    NextNewYear(y);
    var z := if th < NewYear(y) then y - 1 else y;
    YearWeeksAreThursdays(z);
    ThursdayCount(NewYear(z), YearLength(z));
    ThursdayIsThursday(DayNumber(tm));
    if th < NewYear(y) {
      LastThursday(NewYear(z), YearLength(z), th);
      Week53AtMost(NewYear(z), YearLength(z));
    } else if th < NewYear(y + 1) {
      WeekInRange(NewYear(z), YearLength(z), th);
      Week53AtMost(NewYear(z), YearLength(z));
    } else {
      Week53AtMost(NewYear(z), YearLength(z));
      WeekPastEnd(NewYear(z), YearLength(z), th);
    }
  }

  /** The weekday of 1 January, Monday being 0. */
  function NewYearsDay(tm: Tm): int { (tm.wday + 6 - tm.yday) % 7 }

  /** What a caller can see in the fields: the year before is a long one and the week is still
      its last, or this year is a long one and its last week has come; and that year is
      negative.  A year is long when it starts on a Thursday, or on a Wednesday if it is a leap
      year; the next one then starts on a Friday, or on a Saturday behind a leap year. */
  predicate InLongWeekOfNegativeYear(tm: Tm) {
    var jan1, w := NewYearsDay(tm), IsoWeekNum(tm.yday, tm.wday);
    || (w < 1 && tm.year <= 0 && (jan1 == 4 || (jan1 == 5 && IsLeap(tm.year - 1))))
    || (w == 53 && tm.year < 0 && (jan1 == 3 || (jan1 == 2 && IsLeap(tm.year))))
  }

  /** %G and %V are the calendar's for every date with consistent yday and wday, except in the
      53rd week of a negative year. */
  lemma IsoWeekExact(tm: Tm)
    requires Consistent(tm)
    ensures IsoWeekYear(tm) == CalendarYear(tm) && IsoWeekOfYear(tm) == CalendarWeek(tm)
       <==> !InLongWeekOfNegativeYear(tm)
  {
    OnlyWeek53Fails(tm);
    GuardIsWeek53(tm);
  }

  lemma GuardIsWeek53(tm: Tm)
    requires Consistent(tm)
    ensures InLongWeekOfNegativeYear(tm) <==> CalendarYear(tm) < 0 && CalendarWeek(tm) == 53
  {
    hide NewYear, IsoYearWeeks, IsoWeekNum, IsLeap;
    var y, first, th := tm.year, NewYear(tm.year), ThursdayOf(DayNumber(tm));
    WeekNumFromThursday(first, tm.yday);
    ThursdayIsThursday(DayNumber(tm));
    JanuaryFirst(first, tm.yday, tm.wday);
    NextNewYear(y - 1);
    NextNewYear(y);
    if th < first {
      LastWeekBefore(first, YearLength(y - 1), th);
    } else {
      LastWeekWithin(first, YearLength(y), th);
    }
  }

  lemma JanuaryFirst(first: int, yday: int, wday: int)
    requires wday == (first + yday + 1) % 7
    ensures (wday + 6 - yday) % 7 == first % 7
  {
    Mod7(wday + 6 - yday, first, 1 - (first + yday + 1) / 7);
  }

  /** The Thursday before New Year is the 53rd of its year. */
  lemma LastWeekBefore(first: int, days: int, th: int)
    requires (days == 365 || days == 366) && th % 7 == 3 && first - 3 <= th < first
    ensures (th - first + 7) / 7 < 1
    ensures (th - (first - days)) / 7 + 1 == 53 <==> first % 7 == 4 || (first % 7 == 5 && days == 366)
  {
    var r := th - first;
    Mod7(first, 3 - r, th / 7);
  }

  /** The Thursday on or after New Year is the 53rd, and still in the year. */
  lemma LastWeekWithin(first: int, days: int, th: int)
    requires (days == 365 || days == 366) && th % 7 == 3 && first <= th < first + days + 3
    ensures (th - first + 7) / 7 == (th - first) / 7 + 1 >= 1
    ensures th >= first + days ==> (th - (first + days)) / 7 + 1 == 1
    ensures (th - first) / 7 + 1 == 53 && th < first + days
       <==> (th - first) / 7 + 1 == 53 && (first % 7 == 3 || (first % 7 == 2 && days == 366))
  {
    var r := th - first;
    Mod7(first, 3 - r, th / 7);
  }

  lemma ThursdayIsThursday(day: int)
    ensures ThursdayOf(day) % 7 == 3
  {
    Mod7(ThursdayOf(day), 3, day / 7);
  }

  lemma Week53AtMost(first: int, days: int)
    requires days == 365 || days == 366
    ensures 52 <= (days + 6 - (3 - first) % 7) / 7 <= 53
  {
  }

  lemma WeekInRange(first: int, days: int, th: int)
    requires days == 365 || days == 366
    requires th % 7 == 3 && first <= th < first + days
    ensures (th - first) / 7 + 1 <= (days + 6 - (3 - first) % 7) / 7
  {
    var m := first % 7;
    Mod7(3 - first, 3 - m, -(first / 7));
    Mod7(th - first, 3 - m, th / 7 - first / 7);
  }

  lemma WeekPastEnd(first: int, days: int, th: int)
    requires days == 365 || days == 366
    requires th % 7 == 3 && first + days <= th < first + days + 3
    ensures (th - first + 7) / 7 > (days + 6 - (3 - first) % 7) / 7
    ensures (th - (first + days)) / 7 == 0
  {
    var m := first % 7;
    Mod7(3 - first, 3 - m, -(first / 7));
    Mod7(th - first, 3 - m, th / 7 - first / 7);
  }

  /** What the standard promises: from year 1 on the pair names the week of the date. */
  lemma IsoWeekFromYearOne(tm: Tm)
    requires Consistent(tm) && tm.year >= 1
    ensures InIsoWeek(DayNumber(tm), IsoWeekYear(tm), IsoWeekOfYear(tm))
    ensures 1 <= IsoWeekOfYear(tm) <= 53
  {
    CalendarIsInIsoWeek(tm);
    OnlyWeek53Fails(tm);
  }

  /** The pair names one week: two days have the same pair just when they share a Thursday. */
  lemma PairNamesOneWeek(day: int, y: int, w: int, day': int, y': int, w': int)
    requires InIsoWeek(day, y, w) && InIsoWeek(day', y', w')
    ensures y == y' && w == w' <==> ThursdayOf(day) == ThursdayOf(day')
  {
    hide NewYear;
    if y < y' {
      NewYearsAscend(y + 1, y');
    } else if y' < y {
      NewYearsAscend(y' + 1, y);
    } else if w == w' {
      SameSeventh(ThursdayOf(day), ThursdayOf(day'), NewYear(y));
    }
  }

  lemma SameSeventh(th: int, th': int, first: int)
    requires th % 7 == 3 && th' % 7 == 3 && (th - first) / 7 == (th' - first) / 7
    ensures th == th'
  {
    assert th - th' == 7 * (th / 7 - th' / 7);
  }

  /** From one day to the next the pair changes exactly from Sunday to Monday. */
  lemma PairChangesOnMonday(tm: Tm, next: Tm)
    requires Consistent(tm) && Consistent(next) && tm.year >= 1
    requires DayNumber(next) == DayNumber(tm) + 1
    ensures IsoWeekYear(tm) != IsoWeekYear(next) || IsoWeekOfYear(tm) != IsoWeekOfYear(next)
       <==> tm.wday == 0
  {
    hide NewYear, IsoWeekYear, IsoWeekOfYear, YearLength;
    if next.year < 1 {
      NextNewYear(next.year);
      NewYearsAscend(next.year + 1, tm.year);
    }
    IsoWeekFromYearOne(tm);
    IsoWeekFromYearOne(next);
    PairNamesOneWeek(DayNumber(tm), IsoWeekYear(tm), IsoWeekOfYear(tm),
                     DayNumber(next), IsoWeekYear(next), IsoWeekOfYear(next));
    NextThursday(DayNumber(tm));
  }

  lemma NextThursday(day: int)
    ensures ThursdayOf(day + 1) == ThursdayOf(day) <==> (day + 1) % 7 != 0
  {
  }

  lemma {:induction false} NewYearsAscend(a: int, b: int)
    requires a <= b
    ensures NewYear(a) <= NewYear(b)
    decreases b - a
  {
    if a < b {
      NextNewYear(a);
      NewYearsAscend(a + 1, b);
    }
  }

  /** 1 January of year -1 is a Friday in week 53 of year -2; the code says week 52. */
  lemma NegativeYearExample()
    ensures Consistent(Tm(-1, 0, 5))
    ensures CalendarYear(Tm(-1, 0, 5)) == -2 && CalendarWeek(Tm(-1, 0, 5)) == 53
    ensures IsoWeekYear(Tm(-1, 0, 5)) == -2 && IsoWeekOfYear(Tm(-1, 0, 5)) == 52
  {
  }
}
