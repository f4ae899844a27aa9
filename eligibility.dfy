/** The rule that decides whether a meal may still be ordered for a date:
    `isOrderable` in the meal-order calendar. */
module Eligibility {
  import opened LocalTime

  /** Clock time of the cutoff on the day before the meal: 21:00:00. */
  const CutoffHour: nat := 21

  /** The instant from which `date` can no longer be ordered: 21:00:00 on
      the day before it. */
  function OrderCutoff(date: Instant): (c: Instant)
    ensures DayOf(c) == DayOf(date) - 1
    ensures SecondOfDay(c) == CutoffHour * SecondsPerHour
  {
    SetTime(AddDays(date, -1), CutoffHour, 0, 0)
  }

  /** A meal can be ordered for `date` at `now` when the date lies strictly
      after `now`, is not a Saturday or Sunday, and `now` is strictly
      before the cutoff. */
  predicate IsOrderable(date: Instant, now: Instant)
  {
    date > now && !IsWeekend(date) && now < OrderCutoff(date)
  }

  /** A Saturday or a Sunday is never orderable, at any time. */
  lemma WeekendNeverOrderable(date: Instant, now: Instant)
    requires IsWeekend(date)
    ensures !IsOrderable(date, now)
  {
  }

  /** A date at or before `now` is never orderable. */
  lemma PastNeverOrderable(date: Instant, now: Instant)
    requires date <= now
    ensures !IsOrderable(date, now)
  {
  }

  /** The cutoff lies three hours before the day of `date` begins, hence
      before `date` itself. */
  lemma {:induction false} CutoffPrecedesDate(date: Instant)
    ensures OrderCutoff(date) == StartOfDay(DayOf(date)) - 3 * SecondsPerHour
    ensures OrderCutoff(date) < date
  {
  }

  /** Being before the cutoff already implies being before the date, so the
      rule reduces to two checks: a weekday, and `now` before the cutoff. */
  lemma {:induction false} OrderableByCutoffAlone(date: Instant, now: Instant)
    ensures IsOrderable(date, now) <==> !IsWeekend(date) && now < OrderCutoff(date)
  {
  }

  /** The rule in calendar terms: the date is a weekday and `now` is on an
      earlier day than the eve of the date, or on the eve before 21:00:00. */
  lemma {:induction false} OrderableInCalendarTerms(date: Instant, now: Instant)
    ensures IsOrderable(date, now) <==>
      && !IsWeekend(date)
      && (|| DayOf(now) < DayOf(date) - 1
          || (DayOf(now) == DayOf(date) - 1 && SecondOfDay(now) < CutoffHour * SecondsPerHour))
  {
  }

  /** The boundary is exclusive: at exactly the cutoff nothing is orderable,
      and one second earlier the date is orderable precisely when it is a
      weekday. */
  lemma {:induction false} CutoffBoundary(date: Instant)
    ensures !IsOrderable(date, OrderCutoff(date))
    ensures IsOrderable(date, OrderCutoff(date) - 1) <==> !IsWeekend(date)
  {
  }

  /** Nothing is orderable for today or an earlier day. */
  lemma {:induction false} NoOrderForTodayOrEarlier(date: Instant, now: Instant)
    requires DayOf(date) <= DayOf(now)
    ensures !IsOrderable(date, now)
  {
  }

  /** Day 19885 is 2024-06-11, a Tuesday; its cutoff is 2024-06-10T21:00:00.
      At 20:59:59 it is orderable, at 21:00:00 it is not. */
  lemma {:induction false} TuesdayExample()
    ensures Weekday(19885) == 2
    ensures OrderCutoff(StartOfDay(19885)) == StartOfDay(19884) + 21 * 3600
    ensures IsOrderable(StartOfDay(19885), StartOfDay(19884) + 20 * 3600 + 59 * 60 + 59)
    ensures !IsOrderable(StartOfDay(19885), StartOfDay(19884) + 21 * 3600)
  {
  }
}
