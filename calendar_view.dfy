/**
 * CalendarView from clock/calendar_view.py: the date the daily view shows,
 * the earliest date with data, and the two day-navigation buttons. Today's
 * date (date.today()) is a parameter of every operation that reads it; the
 * widgets, the usage table display and the month grid are not modelled.
 */
module Calendar {
  import opened Wrappers
  import Dates

  type Date = Dates.Date

  /** Inside the range the day buttons keep the view in: min_date <= current <= today. */
  predicate InRange(minDate: Date, current: Date, today: Date)
  {
    !Dates.Before(current, minDate) && !Dates.Before(today, current)
  }

  /** The date previous_day leaves: one day back when it is after min_date, else unchanged. */
  function StepBack(minDate: Date, current: Date): (r: Date)
    requires Dates.Valid(minDate) && Dates.Valid(current)
    ensures Dates.Valid(r)
    ensures Dates.Before(minDate, current) ==> Dates.Ordinal(r) == Dates.Ordinal(current) - 1
    ensures !Dates.Before(minDate, current) ==> r == current
  {
    if Dates.Before(minDate, current) then
      Dates.PrevDayIsPredecessor(current);
      Dates.PrevDay(current).value
    else
      current
  }

  /** The date next_day leaves: one day forward when it is before today, else unchanged. */
  function StepForward(current: Date, today: Date): (r: Date)
    requires Dates.Valid(current) && Dates.Valid(today)
    ensures Dates.Valid(r)
    ensures Dates.Before(current, today) ==> Dates.Ordinal(r) == Dates.Ordinal(current) + 1
    ensures !Dates.Before(current, today) ==> r == current
  {
    if Dates.Before(current, today) then
      Dates.NextDayIsSuccessor(current);
      Dates.NextDay(current).value
    else
      current
  }

  /** Day stepping keeps the shown date between min_date and today. */
  lemma DayStepsStayInRange(minDate: Date, current: Date, today: Date)
    requires Dates.Valid(minDate) && Dates.Valid(current) && Dates.Valid(today)
    requires InRange(minDate, current, today)
    ensures InRange(minDate, StepBack(minDate, current), today)
    ensures InRange(minDate, StepForward(current, today), today)
  {
    var back, forward := StepBack(minDate, current), StepForward(current, today);
    Dates.BeforeIsOrdinalOrder(current, minDate);
    Dates.BeforeIsOrdinalOrder(minDate, current);
    Dates.BeforeIsOrdinalOrder(today, current);
    Dates.BeforeIsOrdinalOrder(current, today);
    Dates.BeforeIsOrdinalOrder(back, minDate);
    Dates.BeforeIsOrdinalOrder(today, back);
    Dates.BeforeIsOrdinalOrder(forward, minDate);
    Dates.BeforeIsOrdinalOrder(today, forward);
  }

  /** A step forward is undone by a step back. */
  lemma StepBackUndoesStepForward(minDate: Date, current: Date, today: Date)
    requires Dates.Valid(minDate) && Dates.Valid(current) && Dates.Valid(today)
    requires !Dates.Before(current, minDate) && Dates.Before(current, today)
    ensures StepBack(minDate, StepForward(current, today)) == current
  {
    var forward := StepForward(current, today);
    Dates.BeforeIsOrdinalOrder(current, minDate);
    Dates.BeforeIsOrdinalOrder(minDate, forward);
    Dates.OrdinalInjective(StepBack(minDate, forward), current);
  }

  /** current_date.replace(day=1) - timedelta(days=1); None where Python raises OverflowError. */
  function MonthBefore(d: Date): (r: Option<Date>)
    requires Dates.Valid(d)
    ensures r.None? <==> d.year == Dates.MinYear && d.month == 1
    ensures r.Some? ==> Dates.Valid(r.value)
    ensures r.Some? && d.month > 1 ==> r.value == Dates.Date(d.year, d.month - 1, Dates.DaysInMonth(d.year, d.month - 1))
    ensures r.Some? && d.month == 1 ==> r.value == Dates.Date(d.year - 1, 12, 31)
  {
    var first := Dates.WithDay(d, 1).value;
    Dates.PrevDay(first)
  }

  /**
   * (current_date.replace(day=28) + timedelta(days=4)).replace(day=1); None
   * where Python raises OverflowError. Day 28 plus four days always lands in
   * the following month, whatever the month's length.
   */
  function MonthAfter(d: Date): (r: Option<Date>)
    requires Dates.Valid(d)
    ensures r.None? <==> d.year == Dates.MaxYear && d.month == 12
    ensures r.Some? && d.month < 12 ==> r.value == Dates.Date(d.year, d.month + 1, 1)
    ensures r.Some? && d.month == 12 ==> r.value == Dates.Date(d.year + 1, 1, 1)
  {
    var late := Dates.WithDay(d, 28).value;
    FourDaysAfterTwentyEighth(late);
    match Dates.AddDays(late, 4)
    case None => None
    case Some(e) => Dates.WithDay(e, 1)
  }

  lemma FourDaysAfterTwentyEighth(d: Date)
    requires Dates.Valid(d) && d.day == 28
    ensures var r := Dates.AddDays(d, 4);
      && (r.None? <==> d.year == Dates.MaxYear && d.month == 12)
      && (r.Some? && d.month < 12 ==> r.value.year == d.year && r.value.month == d.month + 1)
      && (r.Some? && d.month == 12 ==> r.value.year == d.year + 1 && r.value.month == 1)
  {
    var n := Dates.DaysInMonth(d.year, d.month);
    var d1 := Dates.NextDay(d).value;
    var d2 := Dates.NextDay(d1);
    assert Dates.AddDays(d, 4) == Dates.AddDays(d1, 3);
    if n == 28 {
      assert d1.day == 1;
    } else {
      assert d2.Some?;
      var d3 := Dates.NextDay(d2.value);
      assert Dates.AddDays(d1, 3) == Dates.AddDays(d2.value, 2);
      if n == 29 {
        assert d2.value.day == 1;
      } else {
        assert d3.Some?;
        assert Dates.AddDays(d2.value, 2) == Dates.AddDays(d3.value, 1);
        if n == 30 {
          assert d3.value.day == 1;
        }
      }
    }
  }

  /** The earliest date in the usage table's date column, or today when it is empty (get_earliest_date). */
  function EarliestDate(dates: seq<Date>, today: Date): (r: Date)
    ensures dates == [] ==> r == today
    ensures dates != [] ==> r in dates && forall d <- dates :: !Dates.Before(d, r)
  {
    if dates == [] then today
    else if |dates| == 1 then dates[0]
    else
      var rest := EarliestDate(dates[1..], today);
      if Dates.Before(dates[0], rest) then
        assert forall d <- dates[1..] :: !Dates.Before(d, dates[0]) by {
          forall d <- dates[1..] ensures !Dates.Before(d, dates[0]) {
            if Dates.Before(d, dates[0]) { Dates.BeforeTransitive(d, dates[0], rest); }
          }
        }
        dates[0]
      else rest
  }

  class CalendarView {
    var currentDate: Date
    var minDate: Date
    /** Whether the "◀" (previous day) button is enabled. */
    var previousEnabled: bool
    /** Whether the "▶" (next day) button is enabled. */
    var nextEnabled: bool

    ghost predicate Valid()
      reads this
    {
      Dates.Valid(currentDate) && Dates.Valid(minDate)
    }

    /** The view opens on today, and min_date is the earliest date in the usage table (or today). */
    constructor (today: Date, ledgerDates: seq<Date>)
      requires Dates.Valid(today)
      requires forall d <- ledgerDates :: Dates.Valid(d)
      ensures Valid()
      ensures currentDate == today && minDate == EarliestDate(ledgerDates, today)
    {
      currentDate := today;
      minDate := EarliestDate(ledgerDates, today);
    }

    /** previous_day: step back while after min_date, then set both buttons from the new date. */
    method PreviousDay(today: Date)
      requires Valid() && Dates.Valid(today)
      modifies this
      ensures Valid() && minDate == old(minDate)
      ensures currentDate == StepBack(minDate, old(currentDate))
      ensures previousEnabled <==> Dates.Before(minDate, currentDate)
      ensures nextEnabled <==> Dates.Before(currentDate, today)
    {
      if Dates.Before(minDate, currentDate) {
        currentDate := Dates.PrevDay(currentDate).value;
      }
      previousEnabled := Dates.Before(minDate, currentDate);
      nextEnabled := Dates.Before(currentDate, today);
    }

    /** next_day: step forward while before today, then set both buttons from the new date. */
    method NextDay(today: Date)
      requires Valid() && Dates.Valid(today)
      modifies this
      ensures Valid() && minDate == old(minDate)
      ensures currentDate == StepForward(old(currentDate), today)
      ensures previousEnabled <==> Dates.Before(minDate, currentDate)
      ensures nextEnabled <==> Dates.Before(currentDate, today)
    {
      if Dates.Before(currentDate, today) {
        currentDate := Dates.NextDay(currentDate).value;
      }
      previousEnabled := Dates.Before(minDate, currentDate);
      nextEnabled := Dates.Before(currentDate, today);
    }

    /** previous_month: to the last day of the preceding month, not clamped to min_date; `ok` is false where Python raises. */
    method PreviousMonth() returns (ok: bool)
      requires Valid()
      modifies this`currentDate
      ensures Valid()
      ensures ok <==> MonthBefore(old(currentDate)).Some?
      ensures currentDate == if ok then MonthBefore(old(currentDate)).value else old(currentDate)
    {
      var first := Dates.WithDay(currentDate, 1).value;
      var before := Dates.PrevDay(first);
      ok := before.Some?;
      if ok {
        currentDate := before.value;
      }
    }

    /** next_month: to the first day of the following month, not clamped to today; `ok` is false where Python raises. */
    method NextMonth() returns (ok: bool)
      requires Valid()
      modifies this`currentDate
      ensures Valid()
      ensures ok <==> MonthAfter(old(currentDate)).Some?
      ensures currentDate == if ok then MonthAfter(old(currentDate)).value else old(currentDate)
    {
      var late := Dates.WithDay(currentDate, 28).value;
      var later := Dates.AddDays(late, 4);
      ok := later.Some?;
      if ok {
        currentDate := Dates.WithDay(later.value, 1).value;
      }
    }

    /**
     * select_date: the chosen day of the shown month becomes the date, the
     * daily view is rebuilt (fresh buttons; "▶" disabled on today) and both
     * buttons are then set from the new date. `ok` is false where date()
     * raises ValueError for a day the month does not have.
     */
    method SelectDate(day: int, today: Date) returns (ok: bool)
      requires Valid() && Dates.Valid(today)
      modifies this
      ensures Valid() && minDate == old(minDate)
      ensures ok <==> Dates.Valid(Dates.Date(old(currentDate).year, old(currentDate).month, day))
      ensures !ok ==> (currentDate == old(currentDate) && previousEnabled == old(previousEnabled)
                       && nextEnabled == old(nextEnabled))
      ensures ok ==> (currentDate == Dates.Date(old(currentDate).year, old(currentDate).month, day)
                      && (previousEnabled <==> Dates.Before(minDate, currentDate))
                      && (nextEnabled <==> Dates.Before(currentDate, today)))
    {
      var chosen := Dates.WithDay(currentDate, day);
      ok := chosen.Some?;
      if ok {
        currentDate := chosen.value;
        ShowCalendar(today);
        previousEnabled := Dates.Before(minDate, currentDate);
        nextEnabled := Dates.Before(currentDate, today);
      }
    }

    /** The button part of show_calendar: new buttons start enabled and "▶" is disabled on today. */
    method ShowCalendar(today: Date)
      modifies this`previousEnabled, this`nextEnabled
      ensures previousEnabled
      ensures nextEnabled <==> currentDate != today
    {
      previousEnabled := true;
      nextEnabled := currentDate != today;
    }
  }

  /** previous_month does not respect min_date: from 2024-03-20 with data from 2024-03-15 it shows 2024-02-29. */
  lemma PreviousMonthIgnoresMinDate()
    ensures MonthBefore(Dates.Date(2024, 3, 20)) == Some(Dates.Date(2024, 2, 29))
    ensures Dates.Before(Dates.Date(2024, 2, 29), Dates.Date(2024, 3, 15))
  {
  }

  /** The earliest-date fallback: an empty usage table makes min_date today. */
  lemma EmptyLedgerStartsToday(today: Date)
    ensures EarliestDate([], today) == today
  {
  }
}
