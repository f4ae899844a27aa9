/** The two weeks the meal-order calendar shows: the week containing "now",
    starting on Monday, followed by the next week. */
module Window {
  import opened LocalTime
  import opened Eligibility

  /** `weekStartsOn: 1`: weeks begin on Monday. */
  const Monday: nat := 1

  /** Number of days shown: this week and next week. */
  const WindowLength: nat := 2 * DaysPerWeek

  /** `currentWeekStart`: midnight of the Monday on or before `now`. */
  function CurrentWeekStart(now: Instant): (r: Instant)
    ensures IsMidnight(r) && Weekday(DayOf(r)) == Monday
    ensures r <= now < AddDays(r, DaysPerWeek)
  {
    StartOfWeek(now, Monday)
  }

  /** `nextWeekStart`: seven days after `currentWeekStart`, the first Monday
      after `now`. */
  function NextWeekStart(now: Instant): (r: Instant)
    ensures IsMidnight(r) && Weekday(DayOf(r)) == Monday
    ensures DayOf(r) == DayOf(CurrentWeekStart(now)) + DaysPerWeek
    ensures now < r
  {
    var start := CurrentWeekStart(now);
    assert Weekday(DayOf(start) + DaysPerWeek) == Weekday(DayOf(start));
    AddDays(start, DaysPerWeek)
  }

  /** `daysToDisplay`: each day from `currentWeekStart` through the Sunday
      six days after `nextWeekStart`. */
  function DaysToDisplay(now: Instant): (r: seq<Instant>)
    ensures |r| == WindowLength
    ensures forall i :: 0 <= i < |r| ==> r[i] == StartOfDay(DayOf(CurrentWeekStart(now)) + i)
  {
    EachDayOfInterval(CurrentWeekStart(now), AddDays(NextWeekStart(now), 6))
  }

  /** `isCurrentWeek`: the shown date lies before `nextWeekStart`, that is,
      on a day before the next Monday. */
  predicate IsCurrentWeek(date: Instant, now: Instant)
    ensures IsCurrentWeek(date, now) <==> DayOf(date) < DayOf(CurrentWeekStart(now)) + DaysPerWeek
  {
    date < NextWeekStart(now)
  }

  /** The window is 14 consecutive midnights, starting on the Monday of the
      week that contains `now`; `isCurrentWeek` holds for the first seven
      and for no others. */
  lemma {:induction false} WindowShape(now: Instant)
    ensures |DaysToDisplay(now)| == WindowLength
    ensures DaysToDisplay(now)[0] == CurrentWeekStart(now)
    ensures Weekday(DayOf(DaysToDisplay(now)[0])) == Monday
    ensures DaysToDisplay(now)[0] <= now < AddDays(DaysToDisplay(now)[0], DaysPerWeek)
    ensures forall i :: 0 <= i < WindowLength ==>
      && IsMidnight(DaysToDisplay(now)[i])
      && DayOf(DaysToDisplay(now)[i]) == DayOf(CurrentWeekStart(now)) + i
    ensures forall i :: 0 <= i < WindowLength ==>
      (IsCurrentWeek(DaysToDisplay(now)[i], now) <==> i < DaysPerWeek)
  {
  }

  /** Position `i` of the window falls on weekday `(i + 1) % 7`, so exactly
      positions 5, 6, 12 and 13 are weekend days, which are never orderable. */
  lemma {:induction false} WindowWeekdays(now: Instant)
    ensures forall i :: 0 <= i < |DaysToDisplay(now)| ==>
      Weekday(DayOf(DaysToDisplay(now)[i])) == (i + 1) % DaysPerWeek
    ensures forall i :: 0 <= i < |DaysToDisplay(now)| ==>
      (IsWeekend(DaysToDisplay(now)[i]) <==> i % DaysPerWeek == 5 || i % DaysPerWeek == 6)
  {
    WindowShape(now);
    var d0 := DayOf(CurrentWeekStart(now));
    var w := DaysToDisplay(now);
    forall i | 0 <= i < |w|
      ensures Weekday(DayOf(w[i])) == (i + 1) % DaysPerWeek
    {
      var q := (d0 + 4) / DaysPerWeek;
      assert d0 + 4 == DaysPerWeek * q + 1;
      assert DayOf(w[i]) + 4 == DaysPerWeek * q + 1 + i;
      if i >= DaysPerWeek {
        assert DayOf(w[i]) + 4 == DaysPerWeek * (q + 1) + (i - DaysPerWeek + 1);
      }
    }
  }

  /** The window depends only on the calendar day of `now`: recomputing it
      later the same day gives the same dates. */
  lemma {:induction false} WindowStableWithinDay(a: Instant, b: Instant)
    requires DayOf(a) == DayOf(b)
    ensures DaysToDisplay(a) == DaysToDisplay(b)
  {
  }

  /** The enabled buttons of the window (`disabled={!canOrder}`): with today
      at position `j` of the window, position `i` is enabled exactly when it
      is not a Saturday or Sunday position and it is at least two days after
      today, or it is tomorrow and the clock is before 21:00:00. In
      particular today and every earlier position are disabled, and so is
      every position of the current week when today is Sunday. */
  lemma {:induction false} WindowOrderable(now: Instant)
    ensures 0 <= DayOf(now) - DayOf(CurrentWeekStart(now)) < DaysPerWeek
    ensures var j := DayOf(now) - DayOf(CurrentWeekStart(now));
      forall i :: 0 <= i < WindowLength ==>
        (IsOrderable(DaysToDisplay(now)[i], now) <==>
          && i % DaysPerWeek != 5 && i % DaysPerWeek != 6
          && (i > j + 1 || (i == j + 1 && SecondOfDay(now) < CutoffHour * SecondsPerHour)))
  {
    WindowShape(now);
    WindowWeekdays(now);
    var start := CurrentWeekStart(now);
    assert start <= now < AddDays(start, DaysPerWeek);
    assert StartOfDay(DayOf(now)) <= now;
    var w := DaysToDisplay(now);
    forall i | 0 <= i < WindowLength
      ensures IsOrderable(w[i], now) <==>
        && i % DaysPerWeek != 5 && i % DaysPerWeek != 6
        && (|| DayOf(now) < DayOf(w[i]) - 1
            || (DayOf(now) == DayOf(w[i]) - 1 && SecondOfDay(now) < CutoffHour * SecondsPerHour))
    {
      OrderableInCalendarTerms(w[i], now);
    }
  }
}
