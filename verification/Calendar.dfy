/** The proleptic Gregorian calendar on day numbers; day 0 is Monday, 1 January of year 1.
    Leap years follow Appendix C of RFC 3339. */
module Calendar {

  predicate Leap(y: int) {
    y % 4 == 0 && (y % 100 != 0 || y % 400 == 0)
  }

  function YearStart(y: int): int {
    365 * (y - 1) + (y - 1) / 4 - (y - 1) / 100 + (y - 1) / 400
  }

  /** Days before month `m`. */
  function MonthStart(leap: bool, m: int): int
    requires 1 <= m <= 13
  {
    [0, 31, 59, 90, 120, 151, 181, 212, 243, 273, 304, 334, 365][m - 1] + if leap && m > 2 then 1 else 0
  }

  function DaysInMonth(leap: bool, m: int): (n: int)
    requires 1 <= m <= 12
    ensures 28 <= n <= 31
  {
    MonthStart(leap, m + 1) - MonthStart(leap, m)
  }

  datatype Date = Date(year: int, month: int, day: int)

  predicate ValidDate(d: Date) {
    1 <= d.month <= 12 && 1 <= d.day <= DaysInMonth(Leap(d.year), d.month)
  }

  function DayNumber(d: Date): int
    requires ValidDate(d)
  {
    YearStart(d.year) + MonthStart(Leap(d.year), d.month) + d.day - 1
  }

  lemma YearLength(y: int)
    ensures YearStart(y + 1) == YearStart(y) + MonthStart(Leap(y), 13)
  {
    assert y / 4 - (y - 1) / 4 == if y % 4 == 0 then 1 else 0;
    assert y / 100 - (y - 1) / 100 == if y % 100 == 0 then 1 else 0;
    assert y / 400 - (y - 1) / 400 == if y % 400 == 0 then 1 else 0;
  }

  lemma {:induction false} YearSpan(y: int, k: nat)
    ensures 365 * k <= YearStart(y + k) - YearStart(y) <= 366 * k
  {
    if k > 0 {
      YearSpan(y, k - 1);
      YearLength(y + k - 1);
    }
  }

  /** The year containing day `n`, searched upwards from a year that starts no later. */
  function YearFrom(n: int, y: int): (r: int)
    requires YearStart(y) <= n
    ensures YearStart(r) <= n < YearStart(r + 1)
    decreases n - YearStart(y)
  {
    YearLength(y);
    if n < YearStart(y + 1) then y else YearFrom(n, y + 1)
  }

  function YearOf(n: int): (r: int)
    ensures YearStart(r) <= n < YearStart(r + 1)
  {
    YearFrom(n, if n >= 0 then 1 else n / 365 - 1)
  }

  function MonthFrom(leap: bool, yearDay: int, m: int): (r: int)
    requires 1 <= m <= 12 && MonthStart(leap, m) <= yearDay < MonthStart(leap, 13)
    ensures m <= r <= 12 && MonthStart(leap, r) <= yearDay < MonthStart(leap, r + 1)
    decreases 12 - m
  {
    if yearDay < MonthStart(leap, m + 1) then m else MonthFrom(leap, yearDay, m + 1)
  }

  function DateOf(n: int): (d: Date)
    ensures ValidDate(d) && DayNumber(d) == n
  {
    var y := YearOf(n);
    YearLength(y);
    var yearDay := n - YearStart(y);
    var m := MonthFrom(Leap(y), yearDay, 1);
    Date(y, m, yearDay - MonthStart(Leap(y), m) + 1)
  }

  /** 0 is Sunday. */
  function Weekday(n: int): (w: int)
    ensures 0 <= w <= 6
  {
    (n + 1) % 7
  }

  lemma YearStartMonotone(a: int, b: int)
    requires a <= b
    ensures YearStart(a) <= YearStart(b)
  {
  }

  lemma MonthStartMonotone(leap: bool, a: int, b: int)
    requires 1 <= a < b <= 13
    ensures MonthStart(leap, a) + 28 <= MonthStart(leap, b)
  {
  }

  lemma DayWithinYear(d: Date)
    requires ValidDate(d)
    ensures YearStart(d.year) <= DayNumber(d) < YearStart(d.year + 1)
  {
    YearLength(d.year);
    if d.month < 12 {
      MonthStartMonotone(Leap(d.year), d.month + 1, 13);
    }
    if d.month > 1 {
      MonthStartMonotone(Leap(d.year), 1, d.month);
    }
  }

  lemma EarlierYear(d: Date, e: Date)
    requires ValidDate(d) && ValidDate(e) && d.year < e.year
    ensures DayNumber(d) < DayNumber(e)
  {
    DayWithinYear(d);
    DayWithinYear(e);
    YearStartMonotone(d.year + 1, e.year);
  }

  lemma EarlierMonth(d: Date, e: Date)
    requires ValidDate(d) && ValidDate(e) && d.year == e.year && d.month < e.month
    ensures DayNumber(d) < DayNumber(e)
  {
  }

  /** Day numbers determine dates: the calendar is a bijection. */
  lemma DayNumberInjective(d: Date, e: Date)
    requires ValidDate(d) && ValidDate(e) && DayNumber(d) == DayNumber(e)
    ensures d == e
  {
    if d.year < e.year {
      EarlierYear(d, e);
    } else if e.year < d.year {
      EarlierYear(e, d);
    } else if d.month < e.month {
      EarlierMonth(d, e);
    } else if e.month < d.month {
      EarlierMonth(e, d);
    }
  }

  lemma DateRoundTrip(d: Date)
    requires ValidDate(d)
    ensures DateOf(DayNumber(d)) == d
  {
    DayNumberInjective(DateOf(DayNumber(d)), d);
  }

  // ------------------------------------------------------------ the real calendar

  /** Months have the lengths one knows, and years come in cycles of 400 with 146097 days. */
  lemma CivilYear(leap: bool, y: int)
    ensures forall m :: m in {1, 3, 5, 7, 8, 10, 12} ==> DaysInMonth(leap, m) == 31
    ensures forall m :: m in {4, 6, 9, 11} ==> DaysInMonth(leap, m) == 30
    ensures DaysInMonth(leap, 2) == if leap then 29 else 28
    ensures YearStart(y + 1) - YearStart(y) == if Leap(y) then 366 else 365
    ensures YearStart(y + 400) - YearStart(y) == 146097
    ensures Leap(2000) && Leap(2024) && !Leap(1900) && !Leap(2023)
  {
    YearLength(y);
    assert (y + 399) / 4 == (y - 1) / 4 + 100;
    assert (y + 399) / 100 == (y - 1) / 100 + 4;
    assert (y + 399) / 400 == (y - 1) / 400 + 1;
  }

  /** The next day of the month, the first of the next month, or of the next year. */
  function Tomorrow(d: Date): Date
    requires ValidDate(d)
  {
    if d.day < DaysInMonth(Leap(d.year), d.month) then Date(d.year, d.month, d.day + 1)
    else if d.month < 12 then Date(d.year, d.month + 1, 1)
    else Date(d.year + 1, 1, 1)
  }

  lemma TomorrowNumber(d: Date)
    requires ValidDate(d)
    ensures ValidDate(Tomorrow(d)) && DayNumber(Tomorrow(d)) == DayNumber(d) + 1
  {
    if d.day == DaysInMonth(Leap(d.year), d.month) && d.month == 12 {
      YearLength(d.year);
    }
  }

  /** Day numbers count the dates one by one. */
  lemma NextDate(d: Date)
    requires ValidDate(d)
    ensures DateOf(DayNumber(d) + 1) == Tomorrow(d)
  {
    TomorrowNumber(d);
    DateRoundTrip(Tomorrow(d));
  }

  /** 1 January 1970, a Thursday. */
  const EPOCH := Date(1970, 1, 1)

  /** Weekdays follow one another from Sunday, 0, to Saturday, 6, and the epoch is a Thursday. */
  ghost predicate IsWeekday(day: int -> int) {
    && day(DayNumber(EPOCH)) == 4
    && forall n :: day(n + 1) == if day(n) == 6 then 0 else day(n) + 1
  }

  lemma {:induction false} WeekdaysAhead(day: int -> int, k: nat)
    requires IsWeekday(day)
    ensures day(DayNumber(EPOCH) + k) == Weekday(DayNumber(EPOCH) + k)
  {
    WeekdayOfEpoch();
    if k > 0 {
      WeekdaysAhead(day, k - 1);
      var n := DayNumber(EPOCH) + k - 1;
      assert day(n + 1) == if day(n) == 6 then 0 else day(n) + 1;
      WeekdayNext(n);
    }
  }

  lemma {:induction false} WeekdaysBehind(day: int -> int, k: nat)
    requires IsWeekday(day) && forall n :: 0 <= day(n) <= 6
    ensures day(DayNumber(EPOCH) - k) == Weekday(DayNumber(EPOCH) - k)
  {
    WeekdayOfEpoch();
    if k > 0 {
      WeekdaysBehind(day, k - 1);
      var n := DayNumber(EPOCH) - k;
      assert day(n + 1) == if day(n) == 6 then 0 else day(n) + 1;
      WeekdayNext(n);
    }
  }

  lemma WeekdayOfEpoch()
    ensures Weekday(DayNumber(EPOCH)) == 4
  {
  }

  lemma WeekdayNext(n: int)
    ensures Weekday(n + 1) == if Weekday(n) == 6 then 0 else Weekday(n) + 1
  {
  }

  /** Only the weekdays fit that description. */
  lemma WeekdayExact(day: int -> int)
    requires forall n :: 0 <= day(n) <= 6
    ensures IsWeekday(day) <==> forall n :: day(n) == Weekday(n)
  {
    if IsWeekday(day) {
      forall n
        ensures day(n) == Weekday(n)
      {
        if n >= DayNumber(EPOCH) {
          WeekdaysAhead(day, n - DayNumber(EPOCH));
        } else {
          WeekdaysBehind(day, DayNumber(EPOCH) - n);
        }
      }
    } else if forall n :: day(n) == Weekday(n) {
      WeekdayOfEpoch();
      forall n
        ensures day(n + 1) == if day(n) == 6 then 0 else day(n) + 1
      {
        WeekdayNext(n);
      }
    }
  }

  // ------------------------------------------------------- recurrence of dates

  /** Two leap years are at most eight years apart. */
  lemma LeapAhead(y: int) returns (l: int)
    ensures y < l <= y + 8 && Leap(l)
  {
    var a := y + 4 - y % 4;
    assert a % 4 == 0 && (a + 4) % 4 == 0;
    if a % 100 == 0 {
      assert (a + 4) % 100 == 4;
      l := a + 4;
    } else {
      l := a;
    }
  }

  predicate SomeYearHas(m: int, d: int) {
    1 <= m <= 12 && 1 <= d <= DaysInMonth(true, m)
  }

  lemma YearWith(y: int, m: int, d: int) returns (l: int)
    requires SomeYearHas(m, d)
    ensures y < l <= y + 8 && ValidDate(Date(l, m, d))
  {
    if d <= DaysInMonth(false, m) {
      l := y + 1;
    } else {
      l := LeapAhead(y);
    }
  }

  lemma DateInYear(y: int, m: int, d: int) returns (n: int)
    requires ValidDate(Date(y, m, d))
    ensures DateOf(n) == Date(y, m, d)
  {
    n := DayNumber(Date(y, m, d));
    DateRoundTrip(Date(y, m, d));
  }

  /** Days of years at most eight apart are less than 3300 days apart. */
  lemma DaysBetween(a: int, b: int)
    requires DateOf(a).year < DateOf(b).year <= DateOf(a).year + 8
    ensures a < b < a + 3300
  {
    var y, z := DateOf(a).year, DateOf(b).year;
    DayWithinYear(DateOf(a));
    DayWithinYear(DateOf(b));
    YearStartMonotone(y + 1, z);
    YearStartMonotone(z + 1, y + 9);
    YearSpan(y, 9);
  }

  /** Every date that exists at all recurs within ten years, after any day ... */
  lemma DateAhead(s: int, m: int, d: int) returns (n: int)
    requires SomeYearHas(m, d)
    ensures s < n < s + 3300 && DateOf(n).month == m && DateOf(n).day == d
  {
    var l := YearWith(DateOf(s).year, m, d);
    n := DateInYear(l, m, d);
    DaysBetween(s, n);
  }

  /** ... and before any day. */
  lemma DateBehind(s: int, m: int, d: int) returns (n: int)
    requires SomeYearHas(m, d)
    ensures s - 3300 < n < s && DateOf(n).month == m && DateOf(n).day == d
  {
    var l := YearWith(DateOf(s).year - 9, m, d);
    n := DateInYear(l, m, d);
    DaysBetween(n, s);
  }

  lemma WeekdayShift(n: int, w: int) returns (k: int)
    requires 0 <= w <= 6
    ensures 0 <= k < 7 && Weekday(n + k) == w
  {
    var v := Weekday(n);
    k := if v <= w then w - v else w - v + 7;
    assert n + 1 == 7 * ((n + 1) / 7) + v;
    assert n + k + 1 == 7 * ((n + 1) / 7 + (if v <= w then 0 else 1)) + w;
  }

  /** The first week of a month holds every weekday. */
  lemma WeekdayInMonth(first: int, w: int) returns (n: int)
    requires DateOf(first).day == 1 && 0 <= w <= 6
    ensures first <= n < first + 7 && Weekday(n) == w && DateOf(n).month == DateOf(first).month
  {
    var k := WeekdayShift(first, w);
    n := first + k;
    var d := DateOf(first).(day := 1 + k);
    assert DayNumber(d) == DayNumber(DateOf(first)) + k;
    DateRoundTrip(d);
  }
}
