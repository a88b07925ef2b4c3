/**
 * Calendar arithmetic as moment does it on the local clock: an instant is a
 * number of milliseconds on the local wall clock (a timeline without
 * daylight-saving jumps), so a calendar day is a block of 24 hours.
 */
module Calendar {

  const MsPerMinute: int := 60_000
  const MsPerHour: int := 60 * MsPerMinute
  const MsPerDay: int := 24 * MsPerHour

  /** The calendar day that holds `t` (days since the epoch, negative before it). */
  function Day(t: int): int {
    t / MsPerDay
  }

  /** `moment(t).startOf('day')`. */
  function StartOfDay(t: int): int {
    Day(t) * MsPerDay
  }

  /** `moment(t).endOf('day')`: the last millisecond of the day. */
  function EndOfDay(t: int): int {
    StartOfDay(t) + MsPerDay - 1
  }

  /** `moment(t).set({hour: 8, minute: 0, second: 0, millisecond: 0})`. */
  function AtEightOClock(t: int): int {
    StartOfDay(t) + 8 * MsPerHour
  }

  /** `moment(t).add(n, 'days')`; a negative `n` subtracts. */
  function AddDays(t: int, n: int): int {
    t + n * MsPerDay
  }

  /** `moment(a).isSame(b, 'day')`. */
  predicate SameDay(a: int, b: int) {
    Day(a) == Day(b)
  }

  /** Every instant lies between the start and the end of its own day. */
  lemma {:induction false} DayBounds(t: int)
    ensures StartOfDay(t) <= t <= EndOfDay(t)
  {
    assert t == Day(t) * MsPerDay + t % MsPerDay;
  }

  /** An instant is on the day of `t` exactly when it lies in [startOf(day), endOf(day)]. */
  lemma {:induction false} SameDayIsWithinDay(t: int, u: int)
    ensures SameDay(t, u) <==> StartOfDay(t) <= u <= EndOfDay(t)
  {
    DayBounds(u);
  }

  /** Shifting by `n` days moves to the `n`-th next day and keeps the time of day. */
  lemma {:induction false} AddDaysShiftsDay(t: int, n: int)
    ensures Day(AddDays(t, n)) == Day(t) + n
    ensures AddDays(t, n) - StartOfDay(AddDays(t, n)) == t - StartOfDay(t)
  {
    var u := AddDays(t, n);
    DayBounds(t);
    var s := StartOfDay(t) + n * MsPerDay;
    assert s == (Day(t) + n) * MsPerDay;
    assert s <= u < s + MsPerDay;
    SameDayIsWithinDay(s, u);
    assert Day(s) == Day(t) + n by {
      assert s / MsPerDay == Day(t) + n;
    }
  }

  /** Paging back one day and then forward one day returns to the same instant. */
  lemma {:induction false} PagingRoundTrip(t: int)
    ensures AddDays(AddDays(t, -1), 1) == t
    ensures AddDays(AddDays(t, 1), -1) == t
    ensures Day(AddDays(t, -1)) == Day(t) - 1 && Day(AddDays(t, 1)) == Day(t) + 1
  {
    AddDaysShiftsDay(t, -1);
    AddDaysShiftsDay(t, 1);
  }

  /** Normalising to 08:00 stays on the same day, and normalising twice changes nothing. */
  lemma {:induction false} AtEightOClockSameDay(t: int)
    ensures SameDay(AtEightOClock(t), t)
    ensures AtEightOClock(t) - StartOfDay(t) == 8 * MsPerHour
    ensures AtEightOClock(AtEightOClock(t)) == AtEightOClock(t)
  {
    var s := StartOfDay(t);
    DayBounds(t);
    SameDayIsWithinDay(t, AtEightOClock(t));
  }
}
