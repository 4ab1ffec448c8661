/** Calendar dates in the proleptic Gregorian calendar, as java.time.LocalDate
    represents them, and day arithmetic on them (LocalDate.plusDays). */
module Gregorian {

  datatype Date = Date(year: int, month: int, day: int)

  /** Leap-year rule of the ISO (proleptic Gregorian) chronology. */
  predicate IsLeapYear(y: int) {
    y % 4 == 0 && (y % 100 != 0 || y % 400 == 0)
  }

  function DaysInMonth(y: int, m: int): (n: int)
    requires 1 <= m <= 12
    ensures 28 <= n <= 31
    ensures n == 29 <==> m == 2 && IsLeapYear(y)
    ensures n == 28 <==> m == 2 && !IsLeapYear(y)
    ensures n == 30 <==> m == 4 || m == 6 || m == 9 || m == 11
  {
    if m == 2 then (if IsLeapYear(y) then 29 else 28)
    else if m == 4 || m == 6 || m == 9 || m == 11 then 30
    else 31
  }

  /** A date LocalDate can hold: month 1..12, day within the month's length. */
  predicate Valid(d: Date) {
    1 <= d.month <= 12 && 1 <= d.day <= DaysInMonth(d.year, d.month)
  }

  /** Chronological order on dates: year, then month, then day. */
  predicate Before(a: Date, b: Date) {
    a.year < b.year ||
    (a.year == b.year && (a.month < b.month || (a.month == b.month && a.day < b.day)))
  }

  lemma BeforeTransitive(a: Date, b: Date, c: Date)
    requires Before(a, b) && Before(b, c)
    ensures Before(a, c)
  {
  }

  /** The day after d. */
  function Next(d: Date): (r: Date)
    requires Valid(d)
    ensures Valid(r) && Before(d, r)
    ensures r.year == d.year || (r.year == d.year + 1 && d.month == 12 && d.day == 31 && r.month == 1 && r.day == 1)
  {
    if d.day < DaysInMonth(d.year, d.month) then Date(d.year, d.month, d.day + 1)
    else if d.month < 12 then Date(d.year, d.month + 1, 1)
    else Date(d.year + 1, 1, 1)
  }

  /** The day before d. */
  function Prev(d: Date): (r: Date)
    requires Valid(d)
    ensures Valid(r) && Before(r, d)
    ensures r.year == d.year || (r.year == d.year - 1 && d.month == 1 && d.day == 1 && r.month == 12 && r.day == 31)
  {
    if d.day > 1 then Date(d.year, d.month, d.day - 1)
    else if d.month > 1 then Date(d.year, d.month - 1, DaysInMonth(d.year, d.month - 1))
    else Date(d.year - 1, 12, 31)
  }

  /** Next and Prev undo each other: there is exactly one day between
      consecutive calendar days, in either direction. */
  lemma NextPrevInverse(d: Date)
    requires Valid(d)
    ensures Prev(Next(d)) == d && Next(Prev(d)) == d
  {
  }

  function Abs(n: int): nat {
    if n < 0 then -n else n
  }

  /** Reference definition of adding n days: n single steps forward
      (or -n single steps backward). */
  function Step(d: Date, n: int): (r: Date)
    requires Valid(d)
    ensures Valid(r)
    decreases Abs(n)
  {
    if n == 0 then d
    else if n > 0 then Step(Next(d), n - 1)
    else Step(Prev(d), n + 1)
  }

  function FirstOfNextMonth(d: Date): (r: Date)
    requires Valid(d)
    ensures Valid(r) && r.day == 1
  {
    if d.month < 12 then Date(d.year, d.month + 1, 1) else Date(d.year + 1, 1, 1)
  }

  function LastOfPrevMonth(d: Date): (r: Date)
    requires Valid(d)
    ensures Valid(r) && r.day == DaysInMonth(r.year, r.month)
  {
    if d.month > 1 then Date(d.year, d.month - 1, DaysInMonth(d.year, d.month - 1))
    else Date(d.year - 1, 12, 31)
  }

  /** The date n days after d (before d for negative n): what
      LocalDate.plusDays computes. It stays in the month while the day fits,
      otherwise moves a whole month at a time. */
  function PlusDays(d: Date, n: int): (r: Date)
    requires Valid(d)
    ensures Valid(r)
    decreases Abs(n)
  {
    if n >= 0 then
      var dim := DaysInMonth(d.year, d.month);
      if d.day + n <= dim then Date(d.year, d.month, d.day + n)
      else PlusDays(FirstOfNextMonth(d), n - (dim - d.day + 1))
    else
      if d.day + n >= 1 then Date(d.year, d.month, d.day + n)
      else PlusDays(LastOfPrevMonth(d), n + d.day)
  }

  lemma {:induction false} StepNext(d: Date, k: int)
    requires Valid(d)
    ensures Step(Next(d), k) == Step(d, k + 1)
  {
    if k < 0 {
      NextPrevInverse(d);
    }
  }

  lemma {:induction false} StepPrev(d: Date, k: int)
    requires Valid(d)
    ensures Step(Prev(d), k) == Step(d, k - 1)
  {
    if k > 0 {
      NextPrevInverse(d);
    }
  }

  /** Stepping a then b days is stepping a + b days, whatever the signs. */
  lemma {:induction false} StepAdd(d: Date, a: int, b: int)
    requires Valid(d)
    ensures Step(Step(d, a), b) == Step(d, a + b)
    decreases Abs(a)
  {
    if a > 0 {
      StepAdd(Next(d), a - 1, b);
      StepNext(d, a - 1 + b);
    } else if a < 0 {
      StepAdd(Prev(d), a + 1, b);
      StepPrev(d, a + 1 + b);
    }
  }

  lemma {:induction false} StepWithinMonthForward(d: Date, k: nat)
    requires Valid(d) && d.day + k <= DaysInMonth(d.year, d.month)
    ensures Step(d, k) == Date(d.year, d.month, d.day + k)
    decreases k
  {
    if k > 0 {
      StepWithinMonthForward(Next(d), k - 1);
    }
  }

  lemma {:induction false} StepWithinMonthBackward(d: Date, k: nat)
    requires Valid(d) && d.day - k >= 1
    ensures Step(d, -(k as int)) == Date(d.year, d.month, d.day - k)
    decreases k
  {
    if k > 0 {
      StepWithinMonthBackward(Prev(d), k - 1);
    }
  }

  /** Forward, PlusDays agrees with the day-by-day reference. */
  lemma {:induction false} PlusDaysIsStepForward(d: Date, n: nat)
    requires Valid(d)
    ensures PlusDays(d, n) == Step(d, n)
    decreases n
  {
    var dim := DaysInMonth(d.year, d.month);
    if d.day + n <= dim {
      StepWithinMonthForward(d, n);
    } else {
      var j := dim - d.day;
      StepWithinMonthForward(d, j);
      var last := Date(d.year, d.month, dim);
      assert Step(d, j + 1) == Step(last, 1) by {
        StepAdd(d, j, 1);
      }
      assert Step(last, 1) == FirstOfNextMonth(d);
      StepAdd(d, j + 1, n - (j + 1));
      PlusDaysIsStepForward(FirstOfNextMonth(d), n - (j + 1));
    }
  }

  /** Backward, PlusDays agrees with the day-by-day reference. */
  lemma {:induction false} PlusDaysIsStepBackward(d: Date, k: nat)
    requires Valid(d)
    ensures PlusDays(d, -(k as int)) == Step(d, -(k as int))
    decreases k
  {
    var n := -(k as int);
    if d.day + n >= 1 {
      StepWithinMonthBackward(d, k);
    } else {
      var j := d.day - 1;
      StepWithinMonthBackward(d, j);
      var first := Date(d.year, d.month, 1);
      assert Step(d, -(j + 1)) == Step(first, -1) by {
        StepAdd(d, -j, -1);
      }
      assert Step(first, -1) == LastOfPrevMonth(d);
      StepAdd(d, -(j + 1), n + (j + 1));
      PlusDaysIsStepBackward(LastOfPrevMonth(d), k - (j + 1));
    }
  }

  /** The month-jumping PlusDays agrees with the day-by-day reference. */
  lemma PlusDaysIsStep(d: Date, n: int)
    requires Valid(d)
    ensures PlusDays(d, n) == Step(d, n)
  {
    if n >= 0 {
      PlusDaysIsStepForward(d, n);
    } else {
      PlusDaysIsStepBackward(d, -n);
    }
  }

  /** Adding a days then b days is adding a + b days. */
  lemma PlusDaysAdd(d: Date, a: int, b: int)
    requires Valid(d)
    ensures PlusDays(PlusDays(d, a), b) == PlusDays(d, a + b)
  {
    PlusDaysIsStep(d, a);
    PlusDaysIsStep(PlusDays(d, a), b);
    PlusDaysIsStep(d, a + b);
    StepAdd(d, a, b);
  }

  /** Adding n days and then -n days gives back the date. */
  lemma PlusDaysInverse(d: Date, n: int)
    requires Valid(d)
    ensures PlusDays(PlusDays(d, n), -n) == d
  {
    PlusDaysAdd(d, n, -n);
  }

  lemma {:induction false} StepForwardIsLater(d: Date, k: int)
    requires Valid(d) && k > 0
    ensures Before(d, Step(d, k))
    decreases k
  {
    if k > 1 {
      StepForwardIsLater(Next(d), k - 1);
      BeforeTransitive(d, Next(d), Step(Next(d), k - 1));
    }
  }

  /** Adding more days yields a strictly later date. */
  lemma PlusDaysStrictlyMonotonic(d: Date, n: int, m: int)
    requires Valid(d) && n < m
    ensures Before(PlusDays(d, n), PlusDays(d, m))
  {
    PlusDaysAdd(d, n, m - n);
    PlusDaysIsStep(PlusDays(d, n), m - n);
    StepForwardIsLater(PlusDays(d, n), m - n);
  }
}
