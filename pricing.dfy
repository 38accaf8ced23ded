/**
 * The seasonal price formula both booking controllers compute. A stay is priced per
 * overlapping season: the stay is clipped to the season, the clipped days are counted
 * inclusively, and each day costs `percentage`% of the base daily price. PHP divides every
 * season's product by 100 as a float and the sum is truncated by the `int` return type; the
 * model adds the products exactly and truncates their sum divided by 100 once.
 */
module Pricing {
  import opened Dates
  import opened SeasonRepository

  /**
   * Days of the stay [dateStart, dateEnd] (already at midnight) that fall into season `s`,
   * both ends counted: a season bills at least one day, and a stay inside it bills every day.
   */
  function ClipDays(dateStart: Instant, dateEnd: Instant, s: Season): (days: nat)
    ensures days >= 1
    ensures Midnight(s.dateStart) <= dateStart && dateEnd <= Midnight(s.dateEnd) ==>
              days == DiffDays(dateStart, dateEnd) + 1
  {
    var start := if dateStart > Midnight(s.dateStart) then dateStart else Midnight(s.dateStart);
    var end := if dateEnd < Midnight(s.dateEnd) then dateEnd else Midnight(s.dateEnd);
    DiffDays(start, end) + 1
  }

  /** One season's share in hundredths: clipped days × percentage × base price. */
  function SeasonCost(dateStart: Instant, dateEnd: Instant, s: Season, basePrice: int): int {
    ClipDays(dateStart, dateEnd, s) * s.percentage * basePrice
  }

  /** Σ clipped days × percentage × base price over `seasons`: the total price in hundredths. */
  function SeasonalSum(seasons: seq<Season>, dateStart: Instant, dateEnd: Instant, basePrice: int): (hundredths: int)
    ensures seasons == [] ==> hundredths == 0
    ensures |seasons| == 1 ==> hundredths == SeasonCost(dateStart, dateEnd, seasons[0], basePrice)
  {
    if seasons == [] then 0
    else
      SeasonalSum(seasons[..|seasons| - 1], dateStart, dateEnd, basePrice)
        + SeasonCost(dateStart, dateEnd, seasons[|seasons| - 1], basePrice)
  }

  /** The running total after one more season, as the pricing loops accumulate it. */
  lemma SeasonalSumStep(seasons: seq<Season>, i: nat, dateStart: Instant, dateEnd: Instant, basePrice: int)
    requires i < |seasons|
    ensures SeasonalSum(seasons[..i + 1], dateStart, dateEnd, basePrice)
            == SeasonalSum(seasons[..i], dateStart, dateEnd, basePrice) + SeasonCost(dateStart, dateEnd, seasons[i], basePrice)
  {
    assert seasons[..i + 1][..i] == seasons[..i];
  }

  /** PHP's float-to-int conversion of `n / 100`: truncation toward zero. */
  function TruncHundredth(n: int): (r: int)
    ensures n >= 0 ==> 0 <= r && 100 * r <= n < 100 * (r + 1)
    ensures n < 0 ==> r <= 0 && 100 * (r - 1) < n <= 100 * r
  {
    if n >= 0 then n / 100 else -((-n) / 100)
  }

  /**
   * For a stay at midnight and a season it overlaps (with the season's own dates in order),
   * the clipped count is exactly the number of calendar days the two share.
   */
  lemma ClipDaysCountsSharedDays(dateStart: Instant, dateEnd: Instant, s: Season)
    requires dateStart == Midnight(dateStart) && dateEnd == Midnight(dateEnd)
    requires dateStart <= dateEnd && s.dateStart <= s.dateEnd
    requires OverlapsStay(s, dateStart, dateEnd)
    ensures ClipDays(dateStart, dateEnd, s)
            == Min(DayOf(dateEnd), DayOf(s.dateEnd)) - Max(DayOf(dateStart), DayOf(s.dateStart)) + 1
    ensures ClipDays(dateStart, dateEnd, s) >= 1
  {
    MidnightMonotone(s.dateStart, dateEnd);
    MidnightMonotone(dateStart, s.dateEnd);
    MidnightMonotone(s.dateStart, s.dateEnd);
    var start := if dateStart > Midnight(s.dateStart) then dateStart else Midnight(s.dateStart);
    var end := if dateEnd < Midnight(s.dateEnd) then dateEnd else Midnight(s.dateEnd);
    assert start == Midnight(start) && end == Midnight(end);
    DiffDaysOfMidnights(start, end);
  }

  /** With a non-negative base price and non-negative percentages, no season lowers the total below zero. */
  lemma {:induction false} SeasonalSumNonNegative(seasons: seq<Season>, dateStart: Instant, dateEnd: Instant, basePrice: int)
    requires basePrice >= 0
    requires forall s :: s in seasons ==> s.percentage >= 0
    ensures SeasonalSum(seasons, dateStart, dateEnd, basePrice) >= 0
  {
    if seasons != [] {
      var init, last := seasons[..|seasons| - 1], seasons[|seasons| - 1];
      assert forall s :: s in init ==> s in seasons;
      SeasonalSumNonNegative(init, dateStart, dateEnd, basePrice);
      CostNonNegative(dateStart, dateEnd, last, basePrice);
    }
  }

  lemma CostNonNegative(dateStart: Instant, dateEnd: Instant, s: Season, basePrice: int)
    requires basePrice >= 0 && s.percentage >= 0
    ensures SeasonCost(dateStart, dateEnd, s, basePrice) >= 0
  {
    var d := ClipDays(dateStart, dateEnd, s);
    assert d * s.percentage >= 0;
  }

  /** The sum over the seasons of a concatenation is the sum of the two sums. */
  lemma {:induction false} SeasonalSumAppend(a: seq<Season>, b: seq<Season>, dateStart: Instant, dateEnd: Instant, basePrice: int)
    ensures SeasonalSum(a + b, dateStart, dateEnd, basePrice)
            == SeasonalSum(a, dateStart, dateEnd, basePrice) + SeasonalSum(b, dateStart, dateEnd, basePrice)
    decreases |b|
  {
    if b == [] {
      assert a + b == a;
    } else {
      var b' := b[..|b| - 1];
      SeasonalSumAppend(a, b', dateStart, dateEnd, basePrice);
      assert (a + b)[..|a + b| - 1] == a + b';
    }
  }
}
