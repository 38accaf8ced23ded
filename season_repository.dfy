/** The two season queries of the season repository, over the season table as a sequence. */
module SeasonRepository {
  import opened Dates
  import opened Seqs

  /** A pricing season; `percentage` scales the base price, `isClosed` marks the camp closed. */
  datatype Season = Season(
    seasonLabel: string,
    isClosed: bool,
    percentage: int,
    dateStart: Instant,
    dateEnd: Instant)

  /** The query condition of `findSeasonsBetweenDates`: the inclusive ranges touch on both sides. */
  predicate OverlapsStay(s: Season, dateStart: Instant, dateEnd: Instant) {
    s.dateStart <= dateEnd && s.dateEnd >= dateStart
  }

  /** `findSeasonsBetweenDates`: every season of the table that overlaps [dateStart, dateEnd]. */
  function SeasonsBetweenDates(table: seq<Season>, dateStart: Instant, dateEnd: Instant): (r: seq<Season>)
    ensures forall s :: s in r <==> s in table && s.dateStart <= dateEnd && s.dateEnd >= dateStart
    ensures IsSubsequence(r, table)
  {
    var p := (s: Season) => OverlapsStay(s, dateStart, dateEnd);
    FilterIsSubsequence(table, p);
    Filter(table, p)
  }

  /**
   * The query returns a season exactly as many times as the table holds it when it overlaps
   * the stay, and never otherwise: two equal rows are billed twice.
   */
  lemma SeasonsBetweenDatesMultiplicity(table: seq<Season>, dateStart: Instant, dateEnd: Instant)
    ensures forall s :: multiset(SeasonsBetweenDates(table, dateStart, dateEnd))[s] ==
              if OverlapsStay(s, dateStart, dateEnd) then multiset(table)[s] else 0
  {
    FilterMultiset(table, (s: Season) => OverlapsStay(s, dateStart, dateEnd));
  }

  /** `findSeasonsClosed`: every season of the table whose closed flag is set. */
  function SeasonsClosed(table: seq<Season>): (r: seq<Season>)
    ensures forall s :: s in r <==> s in table && s.isClosed
    ensures IsSubsequence(r, table)
    ensures forall s :: multiset(r)[s] == if s.isClosed then multiset(table)[s] else 0
  {
    var p := (s: Season) => s.isClosed;
    FilterIsSubsequence(table, p);
    FilterMultiset(table, p);
    Filter(table, p)
  }

  /**
   * For a well-formed stay and a well-formed season that the query returns, the stay
   * clipped to the season is not empty, so the clipped day count the pricing loops use is
   * the plain difference of days plus one.
   */
  lemma ClipNonEmpty(table: seq<Season>, s: Season, a: Instant, b: Instant)
    requires a <= b && s.dateStart <= s.dateEnd
    requires s in SeasonsBetweenDates(table, a, b)
    ensures Max(a, s.dateStart) <= Min(b, s.dateEnd)
    ensures DiffDays(Midnight(Max(a, s.dateStart)), Midnight(Min(b, s.dateEnd))) + 1
            == DayOf(Min(b, s.dateEnd)) - DayOf(Max(a, s.dateStart)) + 1 >= 1
  {
    var lo, hi := Max(a, s.dateStart), Min(b, s.dateEnd);
    MidnightMonotone(lo, hi);
    DiffDaysOfMidnights(lo, hi);
  }

  /** Widening the stay never drops a season, and the seasons keep their table order. */
  lemma {:induction false} WideningKeepsSeasons(table: seq<Season>, a: Instant, b: Instant, a': Instant, b': Instant)
    requires a' <= a && b <= b'
    ensures IsSubsequence(SeasonsBetweenDates(table, a, b), SeasonsBetweenDates(table, a', b'))
  {
    FilterWeakerIsSupersequence(table,
      (s: Season) => OverlapsStay(s, a, b),
      (s: Season) => OverlapsStay(s, a', b'));
  }
}
