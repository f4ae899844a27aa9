/** The date-fns primitives the meal-order calendar uses, on local time
    measured in whole seconds from 1970-01-01T00:00:00 (a Thursday), with
    every day exactly 86400 seconds long. */
module LocalTime {

  /** A point in local time, in seconds since the local epoch. */
  type Instant = int

  /** A calendar day, numbered from the local epoch (day 0 is 1970-01-01). */
  type Day = int

  const SecondsPerDay: int := 86400
  const SecondsPerHour: int := 3600
  const DaysPerWeek: int := 7

  /** The calendar day an instant falls on (Euclidean division, so instants
      before the epoch fall on negative days). */
  function DayOf(t: Instant): (d: Day)
    ensures StartOfDay(d) <= t < StartOfDay(d) + SecondsPerDay
  {
    t / SecondsPerDay
  }

  /** Seconds elapsed since the midnight that starts `t`'s day. */
  function SecondOfDay(t: Instant): (s: nat)
    ensures s < SecondsPerDay
    ensures t == StartOfDay(DayOf(t)) + s
  {
    t % SecondsPerDay
  }

  /** Midnight at the start of day `d`. */
  function StartOfDay(d: Day): Instant
  {
    d * SecondsPerDay
  }

  predicate IsMidnight(t: Instant)
  {
    SecondOfDay(t) == 0
  }

  lemma {:induction false} DayOfStartOfDay(d: Day)
    ensures DayOf(StartOfDay(d)) == d
    ensures IsMidnight(StartOfDay(d))
  {
  }

  /** The day of the week of day `d`, numbered as `Date.getDay` numbers
      them: 0 is Sunday, 1 Monday, ..., 6 Saturday. */
  function Weekday(d: Day): (w: nat)
    ensures w < DaysPerWeek
  {
    (d + 4) % DaysPerWeek
  }

  /** `addDays(t, n)`: the same time of day, `n` days later. */
  function AddDays(t: Instant, n: int): (r: Instant)
    ensures DayOf(r) == DayOf(t) + n
    ensures SecondOfDay(r) == SecondOfDay(t)
  {
    var r := t + n * SecondsPerDay;
    assert r == StartOfDay(DayOf(t) + n) + SecondOfDay(t);
    DayOfPlusSecond(DayOf(t) + n, SecondOfDay(t));
    r
  }

  /** `set(t, {hours, minutes, seconds})`: `t`'s day at the given clock time. */
  function SetTime(t: Instant, hours: nat, minutes: nat, seconds: nat): (r: Instant)
    requires hours < 24 && minutes < 60 && seconds < 60
    ensures DayOf(r) == DayOf(t)
    ensures SecondOfDay(r) == hours * SecondsPerHour + minutes * 60 + seconds
  {
    DayOfPlusSecond(DayOf(t), hours * SecondsPerHour + minutes * 60 + seconds);
    StartOfDay(DayOf(t)) + hours * SecondsPerHour + minutes * 60 + seconds
  }

  /** An instant is determined by its day and its second of day. */
  lemma {:induction false} DayOfPlusSecond(d: Day, s: int)
    requires 0 <= s < SecondsPerDay
    ensures DayOf(StartOfDay(d) + s) == d
    ensures SecondOfDay(StartOfDay(d) + s) == s
  {
  }

  /** `isWeekend`: the instant falls on a Saturday or a Sunday. */
  predicate IsWeekend(t: Instant)
  {
    Weekday(DayOf(t)) == 0 || Weekday(DayOf(t)) == 6
  }

  /** `startOfWeek(t, {weekStartsOn})`: midnight of the latest day on or
      before `t` whose weekday is `weekStartsOn`. */
  function StartOfWeek(t: Instant, weekStartsOn: nat): (r: Instant)
    requires weekStartsOn < DaysPerWeek
    ensures IsMidnight(r)
    ensures Weekday(DayOf(r)) == weekStartsOn
    ensures r <= t < AddDays(r, DaysPerWeek)
  {
    var day := Weekday(DayOf(t));
    var diff := (if day < weekStartsOn then DaysPerWeek else 0) + day - weekStartsOn;
    WeekdayBack(DayOf(t), diff);
    DayOfStartOfDay(DayOf(t) - diff);
    StartOfDay(DayOf(t) - diff)
  }

  /** Stepping back `k` days within a week steps the weekday back by `k`. */
  lemma {:induction false} WeekdayBack(d: Day, k: int)
    requires 0 <= k < DaysPerWeek
    ensures Weekday(d - k) == (Weekday(d) - k + DaysPerWeek) % DaysPerWeek
  {
  }

  /** `eachDayOfInterval({start, end})` for `start` on or before `end`: the
      midnights of every day from `start`'s day through `end`'s day. */
  function EachDayOfInterval(start: Instant, end: Instant): (r: seq<Instant>)
    requires start <= end
    ensures |r| == DayOf(end) - DayOf(start) + 1
    ensures forall i :: 0 <= i < |r| ==> r[i] == StartOfDay(DayOf(start) + i)
  {
    DayRange(DayOf(start), DayOf(end))
  }

  /** Midnights of the days `first` through `last`, in order. */
  function DayRange(first: Day, last: Day): (r: seq<Instant>)
    ensures |r| == if first <= last then last - first + 1 else 0
    ensures forall i :: 0 <= i < |r| ==> r[i] == StartOfDay(first + i)
    decreases last - first
  {
    if first > last then [] else [StartOfDay(first)] + DayRange(first + 1, last)
  }
}
