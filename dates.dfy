/**
 * Date-time values as the booking code uses them. Every date in the system is a PHP
 * DateTime (the database columns are DATETIME and the booking form uses a date-time
 * widget), so a value is an instant in whole seconds; `setTime(0, 0, 0)` is Midnight,
 * and `diff()->days` is the number of whole days between two instants, whatever their order.
 */
module Dates {

  /** Seconds since an arbitrary epoch, in one fixed timezone with no daylight-saving shifts. */
  type Instant = int

  const SecondsPerDay: int := 86400

  /** The calendar day an instant falls on. */
  function DayOf(t: Instant): int {
    t / SecondsPerDay
  }

  /** `$t->setTime(0, 0, 0)`: the start of the day of `t`. */
  function Midnight(t: Instant): (m: Instant)
    ensures m <= t < m + SecondsPerDay
    ensures DayOf(m) == DayOf(t)
    ensures m == DayOf(t) * SecondsPerDay
  {
    t - t % SecondsPerDay
  }

  /** `$a->diff($b)->days`: whole days between the two instants, never negative. */
  function DiffDays(a: Instant, b: Instant): (d: nat)
    ensures d * SecondsPerDay <= Abs(a - b) < (d + 1) * SecondsPerDay
  {
    Abs(a - b) / SecondsPerDay
  }

  function Abs(x: int): nat {
    if x < 0 then -x else x
  }

  function Max(a: int, b: int): int {
    if a > b then a else b
  }

  function Min(a: int, b: int): int {
    if a < b then a else b
  }

  /** Normalising twice is normalising once. */
  lemma MidnightIdempotent(t: Instant)
    ensures Midnight(Midnight(t)) == Midnight(t)
  {
    assert DayOf(Midnight(t)) == DayOf(t);
  }

  /** Normalisation never reorders two instants. */
  lemma MidnightMonotone(a: Instant, b: Instant)
    requires a <= b
    ensures Midnight(a) <= Midnight(b)
  {
  }

  /** Comparing normalised instants is comparing their days. */
  lemma MidnightOrder(a: Instant, b: Instant)
    ensures Midnight(a) <= Midnight(b) <==> DayOf(a) <= DayOf(b)
    ensures Midnight(a) < Midnight(b) <==> DayOf(a) < DayOf(b)
  {
  }

  /** Between two normalised instants, `diff()->days` is the distance between their days. */
  lemma DiffDaysOfMidnights(a: Instant, b: Instant)
    ensures DiffDays(Midnight(a), Midnight(b)) == Abs(DayOf(a) - DayOf(b))
  {
    var k := Abs(DayOf(a) - DayOf(b));
    assert Abs(Midnight(a) - Midnight(b)) == k * SecondsPerDay;
  }
}
