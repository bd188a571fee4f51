/**
 * The proleptic Gregorian calendar of Python's datetime.date, restricted to
 * years 1 through 9999 as Python is: validity, the tuple order dates are
 * compared by, the day number toordinal() gives, and the one-day steps
 * `d + timedelta(days=1)` and `d - timedelta(days=1)` with their
 * OverflowError at the ends of the range.
 */
module Dates {
  import opened Wrappers

  const MinYear := 1
  const MaxYear := 9999

  datatype Date = Date(year: int, month: int, day: int)

  predicate IsLeap(y: int)
  {
    y % 4 == 0 && (y % 100 != 0 || y % 400 == 0)
  }

  function DaysInMonth(y: int, m: int): (n: int)
    requires 1 <= m <= 12
    ensures 28 <= n <= 31
  {
    if m == 2 then (if IsLeap(y) then 29 else 28)
    else if m == 4 || m == 6 || m == 9 || m == 11 then 30
    else 31
  }

  function DaysInYear(y: int): int
  {
    if IsLeap(y) then 366 else 365
  }

  /** What date(year, month, day) accepts without ValueError. */
  predicate Valid(d: Date)
  {
    MinYear <= d.year <= MaxYear && 1 <= d.month <= 12 && 1 <= d.day <= DaysInMonth(d.year, d.month)
  }

  /** `a < b` on dates: Python compares (year, month, day) tuples. */
  predicate Before(a: Date, b: Date)
  {
    a.year < b.year || (a.year == b.year && (a.month < b.month || (a.month == b.month && a.day < b.day)))
  }

  lemma BeforeTransitive(a: Date, b: Date, c: Date)
    requires Before(a, b) && Before(b, c)
    ensures Before(a, c)
  {
  }

  // ---------------------------------------------------------------------
  // Day numbers, as date.toordinal(): 0001-01-01 is day 1

  function DaysBeforeYear(y: int): int
    requires y >= 1
  {
    var p := y - 1;
    p * 365 + p / 4 - p / 100 + p / 400
  }

  function DaysBeforeMonth(y: int, m: int): int
    requires 1 <= m <= 12
  {
    [0, 0, 31, 59, 90, 120, 151, 181, 212, 243, 273, 304, 334][m] + (if m > 2 && IsLeap(y) then 1 else 0)
  }

  function Ordinal(d: Date): int
    requires Valid(d)
  {
    DaysBeforeYear(d.year) + DaysBeforeMonth(d.year, d.month) + d.day
  }

  lemma DaysBeforeNextYear(y: int)
    requires y >= 1
    ensures DaysBeforeYear(y + 1) == DaysBeforeYear(y) + DaysInYear(y)
  {
    var p := y - 1;
    assert (p + 1) / 4 == p / 4 + (if y % 4 == 0 then 1 else 0);
    assert (p + 1) / 100 == p / 100 + (if y % 100 == 0 then 1 else 0);
    assert (p + 1) / 400 == p / 400 + (if y % 400 == 0 then 1 else 0);
  }

  lemma DaysBeforeNextMonth(y: int, m: int)
    requires 1 <= m < 12
    ensures DaysBeforeMonth(y, m + 1) == DaysBeforeMonth(y, m) + DaysInMonth(y, m)
  {
  }

  lemma DaysBeforeLastMonth(y: int)
    ensures DaysBeforeMonth(y, 12) + DaysInMonth(y, 12) == DaysInYear(y)
  {
  }

  lemma {:induction false} DaysBeforeMonthGrows(y: int, m1: int, m2: int)
    requires 1 <= m1 < m2 <= 12
    ensures DaysBeforeMonth(y, m1) + DaysInMonth(y, m1) <= DaysBeforeMonth(y, m2)
    decreases m2 - m1
  {
    DaysBeforeNextMonth(y, m1);
    if m1 + 1 < m2 {
      DaysBeforeMonthGrows(y, m1 + 1, m2);
    }
  }

  lemma {:induction false} DaysBeforeYearGrows(y1: int, y2: int)
    requires 1 <= y1 < y2
    ensures DaysBeforeYear(y1) + DaysInYear(y1) <= DaysBeforeYear(y2)
    decreases y2 - y1
  {
    DaysBeforeNextYear(y1);
    if y1 + 1 < y2 {
      DaysBeforeYearGrows(y1 + 1, y2);
    }
  }

  /** A date's day number lies within its year. */
  lemma OrdinalWithinYear(d: Date)
    requires Valid(d)
    ensures DaysBeforeYear(d.year) < Ordinal(d) <= DaysBeforeYear(d.year) + DaysInYear(d.year)
  {
    if d.month < 12 {
      DaysBeforeMonthGrows(d.year, d.month, 12);
    }
    DaysBeforeLastMonth(d.year);
  }

  /** Comparing dates is comparing their day numbers. */
  lemma BeforeIsOrdinalOrder(a: Date, b: Date)
    requires Valid(a) && Valid(b)
    ensures Before(a, b) <==> Ordinal(a) < Ordinal(b)
  {
    if a.year != b.year {
      var (x, y) := if a.year < b.year then (a, b) else (b, a);
      OrdinalWithinYear(x);
      OrdinalWithinYear(y);
      DaysBeforeYearGrows(x.year, y.year);
    } else if a.month != b.month {
      if a.month < b.month {
        DaysBeforeMonthGrows(a.year, a.month, b.month);
      } else {
        DaysBeforeMonthGrows(a.year, b.month, a.month);
      }
    }
  }

  /** Different valid dates have different day numbers. */
  lemma OrdinalInjective(a: Date, b: Date)
    requires Valid(a) && Valid(b) && Ordinal(a) == Ordinal(b)
    ensures a == b
  {
    BeforeIsOrdinalOrder(a, b);
    BeforeIsOrdinalOrder(b, a);
  }

  // ---------------------------------------------------------------------
  // Steps of one day

  const FirstDate := Date(MinYear, 1, 1)
  const LastDate := Date(MaxYear, 12, 31)

  /** d + timedelta(days=1); None where Python raises OverflowError. */
  function NextDay(d: Date): (r: Option<Date>)
    requires Valid(d)
    ensures r.Some? <==> d != LastDate
    ensures r.Some? ==> Valid(r.value)
  {
    if d.day < DaysInMonth(d.year, d.month) then Some(Date(d.year, d.month, d.day + 1))
    else if d.month < 12 then Some(Date(d.year, d.month + 1, 1))
    else if d.year < MaxYear then Some(Date(d.year + 1, 1, 1))
    else None
  }

  /** d - timedelta(days=1); None where Python raises OverflowError. */
  function PrevDay(d: Date): (r: Option<Date>)
    requires Valid(d)
    ensures r.Some? <==> d != FirstDate
    ensures r.Some? ==> Valid(r.value)
  {
    if d.day > 1 then Some(Date(d.year, d.month, d.day - 1))
    else if d.month > 1 then Some(Date(d.year, d.month - 1, DaysInMonth(d.year, d.month - 1)))
    else if d.year > MinYear then Some(Date(d.year - 1, 12, 31))
    else None
  }

  /** The next day is exactly one day number later. */
  lemma NextDayIsSuccessor(d: Date)
    requires Valid(d) && d != LastDate
    ensures Ordinal(NextDay(d).value) == Ordinal(d) + 1
  {
    if d.day == DaysInMonth(d.year, d.month) {
      if d.month < 12 {
        DaysBeforeNextMonth(d.year, d.month);
      } else {
        DaysBeforeLastMonth(d.year);
        DaysBeforeNextYear(d.year);
      }
    }
  }

  /** The previous day is exactly one day number earlier. */
  lemma PrevDayIsPredecessor(d: Date)
    requires Valid(d) && d != FirstDate
    ensures Ordinal(PrevDay(d).value) == Ordinal(d) - 1
  {
    if d.day == 1 {
      if d.month > 1 {
        DaysBeforeNextMonth(d.year, d.month - 1);
      } else {
        DaysBeforeLastMonth(d.year - 1);
        DaysBeforeNextYear(d.year - 1);
      }
    }
  }

  /** Stepping forward then back returns to the same date. */
  lemma PrevOfNext(d: Date)
    requires Valid(d) && d != LastDate
    ensures NextDay(d).value != FirstDate
    ensures PrevDay(NextDay(d).value) == Some(d)
  {
    var n := NextDay(d).value;
    NextDayIsSuccessor(d);
    BeforeIsOrdinalOrder(FirstDate, d);
    assert n != FirstDate;
    PrevDayIsPredecessor(n);
    OrdinalInjective(PrevDay(n).value, d);
  }

  /** d + timedelta(days=n) for n >= 0; None where Python raises OverflowError. */
  function AddDays(d: Date, n: nat): (r: Option<Date>)
    requires Valid(d)
    ensures r.None? <==> Ordinal(d) + n > Ordinal(LastDate)
    ensures r.Some? ==> Valid(r.value) && Ordinal(r.value) == Ordinal(d) + n
    decreases n
  {
    BeforeIsOrdinalOrder(LastDate, d);
    if n == 0 then Some(d)
    else match NextDay(d)
      case None => None
      case Some(e) =>
        NextDayIsSuccessor(d);
        AddDays(e, n - 1)
  }

  /** d.replace(day=day); None where Python raises ValueError. Also date(d.year, d.month, day). */
  function WithDay(d: Date, day: int): (r: Option<Date>)
    requires Valid(d)
    ensures r.Some? <==> 1 <= day <= DaysInMonth(d.year, d.month)
    ensures r.Some? ==> Valid(r.value) && r.value.year == d.year && r.value.month == d.month
    ensures r.Some? ==> Ordinal(r.value) == Ordinal(d) - d.day + day
  {
    if Valid(Date(d.year, d.month, day)) then Some(Date(d.year, d.month, day)) else None
  }
}
