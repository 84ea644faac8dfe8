/** Wall-clock time as the batch job sees it: `time.Now()` in the server's
    location, the start of its year, and its day of the week (Sunday = 0).
    Dates are proleptic Gregorian, as in Go's `time` package. */
module Calendar {

  const NanosPerDay: int := 86_400_000_000_000

  /** An instant in one fixed location: civil date plus nanoseconds since midnight. */
  datatype Time = Time(year: int, month: int, day: int, clock: int)

  predicate IsLeapYear(y: int) {
    y % 4 == 0 && (y % 100 != 0 || y % 400 == 0)
  }

  function DaysInMonth(y: int, m: int): int {
    if m == 2 then (if IsLeapYear(y) then 29 else 28)
    else if m == 4 || m == 6 || m == 9 || m == 11 then 30
    else 31
  }

  /** A time that names a real date and a clock reading within that day. */
  predicate ValidTime(t: Time) {
    1 <= t.month <= 12 && 1 <= t.day <= DaysInMonth(t.year, t.month) &&
    0 <= t.clock < NanosPerDay
  }

  /** Strictly earlier, the order in which the database compares timestamps. */
  predicate Before(a: Time, b: Time) {
    a.year < b.year ||
    (a.year == b.year &&
      (a.month < b.month ||
      (a.month == b.month &&
        (a.day < b.day || (a.day == b.day && a.clock < b.clock)))))
  }

  /** `time.Date(now.Year(), 1, 1, 0, 0, 0, 0, now.Location())`. */
  function StartOfYear(now: Time): (s: Time)
    ensures ValidTime(s) && s.year == now.year
    ensures ValidTime(now) ==> !Before(now, s)
    ensures forall t :: ValidTime(t) ==> (Before(t, s) <==> t.year < now.year)
  {
    Time(now.year, 1, 1, 0)
  }

  /** Days from 0001-01-01 to January 1 of year `y` (Euclidean division is floor here). */
  function DaysBeforeYear(y: int): int {
    var p := y - 1;
    365 * p + p / 4 - p / 100 + p / 400
  }

  function DaysBeforeMonth(y: int, m: int): int
    decreases m
  {
    if m <= 1 then 0 else DaysBeforeMonth(y, m - 1) + DaysInMonth(y, m - 1)
  }

  /** Days since 0001-01-01, which was a Monday. */
  function DayNumber(t: Time): int {
    DaysBeforeYear(t.year) + DaysBeforeMonth(t.year, t.month) + (t.day - 1)
  }

  /** `int(t.Weekday())`: Sunday = 0, Monday = 1, ..., Saturday = 6. */
  function Weekday(t: Time): (d: int)
    ensures 0 <= d < 7
  {
    (DayNumber(t) + 1) % 7
  }

  /** 1 January 2023 was a Sunday. */
  lemma NewYear2023IsSunday(clock: int)
    ensures Weekday(Time(2023, 1, 1, clock)) == 0
  {
    assert DayNumber(Time(2023, 1, 1, clock)) == 738520;
  }

  /** The next day of the same month is one day of the week later. */
  lemma NextDayWeekday(y: int, m: int, d: int, clock: int)
    ensures Weekday(Time(y, m, d + 1, clock)) == (Weekday(Time(y, m, d, clock)) + 1) % 7
  {
    var n := DayNumber(Time(y, m, d, clock)) + 1;
    assert DayNumber(Time(y, m, d + 1, clock)) + 1 == n + 1;
    ModShift(n, 1);
  }

  /** The first of the next month is as many days of the week later as the month has days. */
  lemma NextMonthWeekday(y: int, m: int, clock: int)
    requires 1 <= m < 12
    ensures Weekday(Time(y, m + 1, 1, clock)) == (Weekday(Time(y, m, 1, clock)) + DaysInMonth(y, m)) % 7
  {
    var n := DayNumber(Time(y, m, 1, clock)) + 1;
    assert DayNumber(Time(y, m + 1, 1, clock)) + 1 == n + DaysInMonth(y, m);
    ModShift(n, DaysInMonth(y, m));
  }

  /** A year is 365 days, 366 in a leap year. */
  lemma {:induction false} YearLength(y: int)
    ensures DaysBeforeYear(y + 1) - DaysBeforeYear(y) == if IsLeapYear(y) then 366 else 365
  {
    CountStep(y, 4);
    CountStep(y, 100);
    CountStep(y, 400);
    var years := DaysBeforeYear(y + 1) - DaysBeforeYear(y);
    assert years == 365 + (y / 4 - (y - 1) / 4) - (y / 100 - (y - 1) / 100) + (y / 400 - (y - 1) / 400);
    if y % 100 == 0 {
      // every hundredth year is also a fourth year, and so is every 400th
      assert y == 4 * (25 * (y / 100));
    }
    if y % 400 == 0 {
      assert y == 100 * (4 * (y / 400));
    }
  }

  /** Among the years up to `y`, the multiples of `k` are one more than among
      those up to `y - 1` exactly when `y` is one. */
  lemma CountStep(y: int, k: int)
    requires k == 4 || k == 100 || k == 400
    ensures y / k - (y - 1) / k == if y % k == 0 then 1 else 0
  {
    if k == 4 {
      assert y / 4 - (y - 1) / 4 == if y % 4 == 0 then 1 else 0;
    } else if k == 100 {
      assert y / 100 - (y - 1) / 100 == if y % 100 == 0 then 1 else 0;
    } else {
      assert y / 400 - (y - 1) / 400 == if y % 400 == 0 then 1 else 0;
    }
  }

  /** The next January 1 is 365 days of the week later, 366 after a leap year. */
  lemma NextYearWeekday(y: int, clock: int)
    ensures Weekday(Time(y + 1, 1, 1, clock))
         == (Weekday(Time(y, 1, 1, clock)) + (if IsLeapYear(y) then 366 else 365)) % 7
  {
    YearLength(y);
    var n := DayNumber(Time(y, 1, 1, clock)) + 1;
    assert DayNumber(Time(y + 1, 1, 1, clock)) + 1 == n + (if IsLeapYear(y) then 366 else 365);
    ModShift(n, if IsLeapYear(y) then 366 else 365);
  }

  /** The days of the week on which January 1 to 7 of `year` fall. */
  function FirstWeekWeekdays(year: int, clock: int): set<int> {
    set k | 1 <= k <= 7 :: Weekday(Time(year, 1, k, clock))
  }

  /** Moving `k` days on moves the day of the week by `k` modulo 7. */
  lemma ModShift(n: int, k: int)
    ensures (n + k) % 7 == (n % 7 + k) % 7
  {
    var q := n / 7;
    assert n + k == 7 * q + (n % 7 + k);
  }

  /** Day `k` of January falls `k - 1` days of the week after January 1. */
  lemma JanuaryWeekday(year: int, k: int, clock: int)
    requires 1 <= k <= 7
    ensures Weekday(Time(year, 1, k, clock)) == (Weekday(Time(year, 1, 1, clock)) + k - 1) % 7
  {
    var n := DayNumber(Time(year, 1, 1, clock)) + 1;
    assert DayNumber(Time(year, 1, k, clock)) + 1 == n + (k - 1);
    ModShift(n, k - 1);
  }

  /** January 1 to 7 of any year fall on seven different days of the week,
      so between them they take every value 0..6 exactly once. */
  lemma FirstWeekCoversEveryWeekday(year: int, clock: int)
    ensures forall j, k :: 1 <= j < k <= 7 ==>
      Weekday(Time(year, 1, j, clock)) != Weekday(Time(year, 1, k, clock))
    ensures FirstWeekWeekdays(year, clock) == {0, 1, 2, 3, 4, 5, 6}
  {
    var w := Weekday(Time(year, 1, 1, clock));
    forall k | 1 <= k <= 7
      ensures Weekday(Time(year, 1, k, clock)) == if w + k - 1 < 7 then w + k - 1 else w + k - 8
    {
      JanuaryWeekday(year, k, clock);
    }
    forall d | 0 <= d < 7
      ensures d in FirstWeekWeekdays(year, clock)
    {
      var k := if d >= w then d - w + 1 else d - w + 8;
      assert Weekday(Time(year, 1, k, clock)) == d;
    }
  }
}
