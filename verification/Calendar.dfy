/** The proleptic Gregorian calendar. Days are counted from 0001-01-01, minutes from its midnight (UTC). */
module Calendar {

  const MINUTES_PER_DAY := 1440

  predicate Leap(y: int) {
    y % 4 == 0 && (y % 100 != 0 || y % 400 == 0)
  }

  /** Days before the first day of year y. */
  function YearStart(y: int): int {
    365 * (y - 1) + LeapDays(y - 1)
  }

  function YearLength(y: int): int {
    if Leap(y) then 366 else 365
  }

  /** Days of year y before month m; month 13 stands for the end of the year. */
  function MonthStart(y: int, m: int): int
    requires 1 <= m <= 13
  {
    [0, 31, 59, 90, 120, 151, 181, 212, 243, 273, 304, 334, 365][m - 1] + if m > 2 && Leap(y) then 1 else 0
  }

  datatype Date = Date(year: int, month: int, day: int)

  predicate IsDate(d: Date) {
    1 <= d.month <= 12 && 1 <= d.day <= MonthStart(d.year, d.month + 1) - MonthStart(d.year, d.month)
  }

  function DayNumber(d: Date): int
    requires 1 <= d.month <= 12
  {
    YearStart(d.year) + MonthStart(d.year, d.month) + d.day - 1
  }

  /** Thirty days hath September. */
  lemma MonthLengths(y: int, m: int)
    requires 1 <= m <= 12
    ensures MonthStart(y, m + 1) - MonthStart(y, m)
         == if m == 2 then (if Leap(y) then 29 else 28) else if m in {4, 6, 9, 11} then 30 else 31
    ensures MonthStart(y, 1) == 0
  {
  }

  /** Two days that are known by their numbers, among them the first of Unix time. */
  lemma KnownDays()
    ensures DayNumber(Date(1, 1, 1)) == 0 && DayNumber(Date(1970, 1, 1)) == 719_162
    ensures DayNumber(Date(2026, 8, 17)) == 739_844
    ensures Leap(2000) && Leap(2024) && !Leap(1900) && !Leap(2026)
  {
  }

  /** The leap days among the years up to p. */
  function LeapDays(p: int): int {
    p / 4 - p / 100 + p / 400
  }

  lemma NextFourth(p: int)
    ensures (p + 1) / 4 - p / 4 == if (p + 1) % 4 == 0 then 1 else 0
  {
  }

  lemma NextHundredth(p: int)
    ensures (p + 1) / 100 - p / 100 == if (p + 1) % 100 == 0 then 1 else 0
  {
  }

  lemma NextFourHundredth(p: int)
    ensures (p + 1) / 400 - p / 400 == if (p + 1) % 400 == 0 then 1 else 0
  {
  }

  lemma HundredthsAreFourths(y: int)
    ensures y % 100 == 0 ==> y % 4 == 0
  {
  }

  lemma FourHundredthsAreHundredths(y: int)
    ensures y % 400 == 0 ==> y % 100 == 0
  {
  }

  lemma NextLeapDay(p: int)
    ensures LeapDays(p + 1) - LeapDays(p) == if Leap(p + 1) then 1 else 0
  {
    NextFourth(p);
    NextHundredth(p);
    NextFourHundredth(p);
    HundredthsAreFourths(p + 1);
    FourHundredthsAreHundredths(p + 1);
  }

  lemma NextYear(y: int)
    ensures YearStart(y + 1) == YearStart(y) + YearLength(y)
  {
    NextLeapDay(y - 1);
    assert y - 1 + 1 == y;
  }

  lemma {:induction false} YearsApart(a: int, b: int)
    requires a <= b
    ensures YearStart(b) - YearStart(a) >= 365 * (b - a)
    decreases b - a
  {
    if a < b {
      NextYear(b - 1);
      YearsApart(a, b - 1);
    }
  }

  function Era(n: int): int {
    n / 146_097
  }

  lemma EraShift(y: int, e: int)
    ensures YearStart(y + 400 * e) == YearStart(y) + 146_097 * e
  {
    var p := y - 1;
    assert (p + 400 * e) / 4 == p / 4 + 100 * e;
    assert (p + 400 * e) / 100 == p / 100 + 4 * e;
    assert (p + 400 * e) / 400 == p / 400 + e;
    assert y + 400 * e - 1 == p + 400 * e;
  }

  lemma EraEnds()
    ensures YearStart(1) == 0 && YearStart(401) == 146_097
  {
  }

  function YearWithinEra(r: int, y: int): (year: int)
    requires 1 <= y <= 400 && YearStart(y) <= r < YearStart(401)
    ensures YearStart(year) <= r < YearStart(year + 1)
    decreases 400 - y
  {
    if r < YearStart(y + 1) then y else YearWithinEra(r, y + 1)
  }

  function DayOfEra(n: int): (r: int)
    ensures 0 <= r < 146_097 && n == r + 146_097 * Era(n)
  {
    n - 146_097 * Era(n)
  }

  function YearIn(e: int, y: int): int {
    y + 400 * e
  }

  lemma YearFits(n: int, y: int)
    requires YearStart(y) <= DayOfEra(n) < YearStart(y + 1)
    ensures YearStart(YearIn(Era(n), y)) <= n < YearStart(YearIn(Era(n), y) + 1)
  {
    var e := Era(n);
    EraShift(y, e);
    EraShift(y + 1, e);
    assert y + 1 + 400 * e == y + 400 * e + 1;
    assert n == DayOfEra(n) + 146_097 * e;
  }

  /** The year that holds day n. */
  function YearOf(n: int): (year: int)
    ensures YearStart(year) <= n < YearStart(year + 1)
  {
    var y := YearInEra(DayOfEra(n));
    YearFits(n, y);
    YearIn(Era(n), y)
  }

  function YearInEra(r: int): (year: int)
    requires 0 <= r < 146_097
    ensures YearStart(year) <= r < YearStart(year + 1)
  {
    EraEnds();
    YearWithinEra(r, 1)
  }

  function MonthFrom(y: int, doy: int, m: int): (month: int)
    requires 1 <= m <= 12 && MonthStart(y, m) <= doy < MonthStart(y, 13)
    ensures 1 <= month <= 12 && MonthStart(y, month) <= doy < MonthStart(y, month + 1)
    decreases 12 - m
  {
    if doy < MonthStart(y, m + 1) then m else MonthFrom(y, doy, m + 1)
  }

  function DateOf(n: int): (d: Date)
    ensures IsDate(d) && DayNumber(d) == n
  {
    var y := YearOf(n);
    NextYear(y);
    var doy := n - YearStart(y);
    var m := MonthFrom(y, doy, 1);
    Date(y, m, doy - MonthStart(y, m) + 1)
  }

  lemma MonthsGrow(y: int, a: int, b: int)
    requires 1 <= a <= b <= 13
    ensures MonthStart(y, a) <= MonthStart(y, b)
  {
  }

  lemma LaterYear(d: Date, e: Date)
    requires IsDate(d) && IsDate(e) && d.year < e.year
    ensures DayNumber(d) < DayNumber(e)
  {
    MonthsGrow(d.year, d.month + 1, 13);
    MonthsGrow(e.year, 1, e.month);
    NextYear(d.year);
    YearsApart(d.year + 1, e.year);
  }

  lemma LaterMonth(d: Date, e: Date)
    requires IsDate(d) && IsDate(e) && d.year == e.year && d.month < e.month
    ensures DayNumber(d) < DayNumber(e)
  {
    MonthsGrow(d.year, d.month + 1, e.month);
  }

  /** A day has one date only. */
  lemma DateUnique(d: Date, e: Date)
    requires IsDate(d) && IsDate(e) && DayNumber(d) == DayNumber(e)
    ensures d == e
  {
    if d.year < e.year {
      LaterYear(d, e);
    } else if e.year < d.year {
      LaterYear(e, d);
    } else if d.month < e.month {
      LaterMonth(d, e);
    } else if e.month < d.month {
      LaterMonth(e, d);
    }
  }

  /** The same month and day in two different years are at least 365 days apart. */
  lemma AnniversaryGap(d: Date, e: Date)
    requires IsDate(d) && IsDate(e) && d.month == e.month && d.day == e.day && d.year < e.year
    ensures DayNumber(e) - DayNumber(d) >= 365
  {
    NextYear(d.year);
    YearsApart(d.year + 1, e.year);
    assert MonthStart(e.year, d.month) >= MonthStart(d.year, d.month) - 1;
  }

  // ----- the previous time the same month and day came round

  function PreviousYear(d: Date): int {
    if d.month != 2 || d.day != 29 then d.year - 1
    else if Leap(d.year - 4) then d.year - 4
    else d.year - 8
  }

  function PreviousAnniversary(d: Date): Date {
    d.(year := PreviousYear(d))
  }

  lemma LeapYearsBefore(y: int)
    requires Leap(y)
    ensures Leap(y - 4) || Leap(y - 8)
  {
  }

  lemma FebruaryTheTwentyNinth(d: Date)
    requires IsDate(d) && d.month == 2 && d.day == 29
    ensures Leap(d.year)
  {
  }

  /** It exists, and no date between it and d has d's month and day. */
  lemma PreviousIsLatest(d: Date, e: Date)
    requires IsDate(d) && IsDate(e) && d.month == e.month && d.day == e.day && e.year < d.year
    ensures IsDate(PreviousAnniversary(d)) && e.year <= PreviousYear(d)
  {
    PreviousExists(d);
    if d.month == 2 && d.day == 29 {
      FebruaryTheTwentyNinth(d);
      FebruaryTheTwentyNinth(e);
      FourYearsApart(e.year, d.year);
    }
  }

  lemma FourApart(a: int, b: int)
    requires a % 4 == 0 && b % 4 == 0 && a < b
    ensures a <= b - 4 && (b - 4) % 4 == 0
  {
  }

  lemma FourYearsApart(a: int, b: int)
    requires Leap(a) && Leap(b) && a < b
    ensures a <= b - 4 && (!Leap(b - 4) ==> a <= b - 8)
  {
    FourApart(a, b);
    if a < b - 4 {
      FourApart(a, b - 4);
    }
  }

  lemma PreviousExists(d: Date)
    requires IsDate(d)
    ensures IsDate(PreviousAnniversary(d)) && PreviousYear(d) < d.year
  {
    if d.month == 2 && d.day == 29 {
      FebruaryTheTwentyNinth(d);
      LeapYearsBefore(d.year);
    }
  }

  /** A later year puts the same month and day later. */
  lemma AnniversariesInOrder(d: Date, e: Date)
    requires IsDate(d) && IsDate(e) && d.month == e.month && d.day == e.day && d.year <= e.year
    ensures DayNumber(d) <= DayNumber(e)
  {
    if d.year < e.year {
      AnniversaryGap(d, e);
    }
  }

  lemma NoTwoLeapYears(y: int)
    ensures Leap(y) ==> !Leap(y - 1)
  {
    if y % 4 == 0 {
      assert (y - 1) % 4 == 3;
    }
  }

  lemma MonthsBefore(y: int, m: int)
    requires 1 <= m <= 12
    ensures MonthStart(y, m) - MonthStart(y - 1, m) <= if m > 2 && Leap(y) && !Leap(y - 1) then 1 else 0
  {
  }

  /** The 29th of February apart, a date comes round within 366 days. */
  lemma LastYearGap(d: Date)
    requires IsDate(d) && (d.month != 2 || d.day != 29)
    ensures DayNumber(d) - DayNumber(PreviousAnniversary(d)) <= 366
  {
    var y, e := d.year, PreviousAnniversary(d);
    NextYear(y - 1);
    assert y - 1 + 1 == y;
    NoTwoLeapYears(y);
    MonthsBefore(y, d.month);
    assert DayNumber(d) - DayNumber(e) == YearLength(y - 1) + (MonthStart(y, d.month) - MonthStart(y - 1, d.month));
  }
}
