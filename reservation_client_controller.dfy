/**
 * The client booking flow: the admission checks of `new`, its price computation, the
 * cancellation window shown by `show` and the cancellation done by `delete`.
 */
module ReservationClientController {
  import opened Dates
  import opened Wrappers
  import opened Seqs
  import opened SeasonRepository
  import opened Booking
  import opened Pricing
  import opened Entity
  import opened EntityManager

  /**
   * The client's closed-season test, as written: each half compares a date with the same
   * season bound from both sides, so it holds only on equality with the season's start or end.
   */
  function ClosedSeasonHit(s: Season, dateStart: Instant, dateEnd: Instant): (hit: bool)
    ensures hit <==> dateStart == s.dateStart || dateEnd == s.dateEnd
  {
    (dateStart >= s.dateStart && dateStart <= s.dateStart) ||
    (dateEnd <= s.dateEnd && dateEnd >= s.dateEnd)
  }

  /**
   * The admission checks of `new`, in their order; the first that fails decides. The
   * closed-season test sees the dates as submitted; every later test sees them at midnight,
   * and so are the blocked ranges and the rental's reservations (all of them, whatever their
   * status) they are compared with.
   */
  function Admission(table: seq<Season>, blocked: seq<Range>, booked: seq<Range>, bedding: Option<int>,
                     req: Request, now: Instant): (v: Verdict)
    // the closed-season message names a closed season of the table the request touches
    ensures v.Reject? && v.reason.CampClosed? ==>
              exists s :: s in table && s.isClosed && v.reason == CampClosed(s.dateStart, s.dateEnd)
                          && (req.dateStart == s.dateStart || req.dateEnd == s.dateEnd)
    // an admitted request starts today or later, ends on a later day, and fits the rental
    ensures v == Admit ==>
              DatesPass(req, now) && OccupancyPasses(req) && !ExceedsBedding(req.adults + req.kids, bedding)
  {
    var closed := SeasonsClosed(table);
    var k := FirstIndex(closed, (s: Season) => ClosedSeasonHit(s, req.dateStart, req.dateEnd));
    if k < |closed| then
      assert closed[k] in closed;
      Reject(CampClosed(closed[k].dateStart, closed[k].dateEnd))
    else
      MidnightOrder(req.dateStart, now);
      MidnightOrder(req.dateEnd, req.dateStart);
      var dateStart, dateEnd := Midnight(req.dateStart), Midnight(req.dateEnd);
      if dateStart < Midnight(now) then Reject(StartInPast)
      else if dateEnd <= dateStart then Reject(EndNotAfterStart)
      else if req.adults <= 0 || req.kids < 0 then Reject(InvalidOccupancy)
      else if ExceedsBedding(req.adults + req.kids, bedding) then Reject(OverCapacity)
      else if AnyEndpointInside(seq(|blocked|, i requires 0 <= i < |blocked| => Normalised(blocked[i])), dateStart, dateEnd)
      then Reject(DatesBlocked)
      else if AnyEndpointInside(seq(|booked|, i requires 0 <= i < |booked| => Normalised(booked[i])), dateStart, dateEnd)
      then Reject(DatesReserved)
      else Admit
  }

  /**
   * `calculateTotalPrice` as a function of the reservation's dates and its type's daily price.
   * With no overlapping season every calendar day of the stay, both ends included, costs the
   * daily price.
   */
  function Price(table: seq<Season>, dateStart: Instant, dateEnd: Instant, basePrice: int): (price: int)
    ensures SeasonsBetweenDates(table, Midnight(dateStart), Midnight(dateEnd)) == [] && DayOf(dateStart) <= DayOf(dateEnd)
            ==> price == (DayOf(dateEnd) - DayOf(dateStart) + 1) * basePrice
  {
    var start, end := Midnight(dateStart), Midnight(dateEnd);
    var seasons := SeasonsBetweenDates(table, start, end);
    if seasons == [] then
      DiffDaysOfMidnights(dateStart, dateEnd);
      (DiffDays(start, end) + 1) * basePrice
    else TruncHundredth(SeasonalSum(seasons, start, end, basePrice))
  }

  /**
   * `calculateTotalPrice`: sets the reservation's own dates to midnight (setTime works in
   * place), then prices the stay season by season at the daily price of the reservation's
   * rental's type, which both branches read.
   */
  method CalculateTotalPrice(reservation: Reservation, table: seq<Season>) returns (total: int)
    requires reservation.rental != null && reservation.rental.rentalType.Some?
    modifies reservation`dateStart, reservation`dateEnd
    ensures reservation.dateStart == Midnight(old(reservation.dateStart))
    ensures reservation.dateEnd == Midnight(old(reservation.dateEnd))
    ensures total == Price(table, old(reservation.dateStart), old(reservation.dateEnd),
                           reservation.rental.rentalType.value.price)
  {
    var basePrice := reservation.rental.rentalType.value.price;
    ghost var expected := Price(table, reservation.dateStart, reservation.dateEnd, basePrice);
    reservation.dateStart := Midnight(reservation.dateStart);
    reservation.dateEnd := Midnight(reservation.dateEnd);
    var dateStart, dateEnd := reservation.dateStart, reservation.dateEnd;
    var seasons := SeasonsBetweenDates(table, dateStart, dateEnd);
    assert expected == if seasons == [] then (DiffDays(dateStart, dateEnd) + 1) * basePrice
                       else TruncHundredth(SeasonalSum(seasons, dateStart, dateEnd, basePrice));
    if |seasons| == 0 {
      var days := DiffDays(dateStart, dateEnd) + 1;
      total := days * basePrice;
    } else {
      var hundredths := AccumulateSeasons(seasons, dateStart, dateEnd, basePrice);
      total := TruncHundredth(hundredths);
    }
  }

  /** The foreach of `calculateTotalPrice`: adds up every season's share, in hundredths. */
  method AccumulateSeasons(seasons: seq<Season>, dateStart: Instant, dateEnd: Instant, basePrice: int)
    returns (hundredths: int)
    ensures hundredths == SeasonalSum(seasons, dateStart, dateEnd, basePrice)
  {
    hundredths := 0;
    for i := 0 to |seasons|
      invariant hundredths == SeasonalSum(seasons[..i], dateStart, dateEnd, basePrice)
    {
      var season := seasons[i];
      var start := if dateStart > Midnight(season.dateStart) then dateStart else Midnight(season.dateStart);
      var end := if dateEnd < Midnight(season.dateEnd) then dateEnd else Midnight(season.dateEnd);
      var days := DiffDays(start, end) + 1;
      var cost := days * season.percentage * basePrice;
      assert cost == SeasonCost(dateStart, dateEnd, season, basePrice);
      SeasonalSumStep(seasons, i, dateStart, dateEnd, basePrice);
      hundredths := hundredths + cost;
    }
    assert seasons[..|seasons|] == seasons;
  }

  /** `show`: a reservation may be cancelled while its start is at least two whole days from now. */
  function IsCancelable(dateStart: Instant, now: Instant): (cancelable: bool)
    ensures cancelable <==> Abs(dateStart - now) >= 2 * SecondsPerDay
  {
    DiffDays(dateStart, now) >= 2
  }

  /**
   * `new`, for a rental that exists. A rejected request redirects; an admitted one gets the rental, its type, status Confirmed
   * and its price, and is then either quoted (calculate), stored (confirm on a valid form)
   * or shown again.
   */
  method New(reservation: Reservation, rental: Rental, rentalType: RentalType, table: seq<Season>,
             blocked: seq<Range>, now: Instant, action: Action, formValid: bool, store: Store)
    returns (response: Response)
    requires store.Valid()
    modifies reservation`rental, reservation`dateStart, reservation`dateEnd, reservation`status,
             reservation`price, rental`rentalType, store
    ensures store.Valid()
    ensures var verdict := Admission(table, blocked, old(ReservationRanges(rental.reservations)),
                                       old(rental.bedding), old(FormRequest(reservation)), now);
              var normalised := !(verdict.Reject? && verdict.reason.CampClosed?);
              && reservation.dateStart == (if normalised then Midnight(old(reservation.dateStart)) else old(reservation.dateStart))
              && reservation.dateEnd == (if normalised then Midnight(old(reservation.dateEnd)) else old(reservation.dateEnd))
              && (verdict.Reject? ==>
                    && response == Redirect(verdict.reason)
                    && store.reservations == old(store.reservations)
                    && reservation.rental == old(reservation.rental)
                    && reservation.status == old(reservation.status)
                    && reservation.price == old(reservation.price)
                    && rental.rentalType == old(rental.rentalType))
              && (verdict == Admit ==>
                    && reservation.rental == rental
                    && rental.rentalType == Some(rentalType)
                    && reservation.status == StatusConfirmed
                    && reservation.price == Price(table, old(reservation.dateStart), old(reservation.dateEnd), rentalType.price)
                    && response == (if action == Calculate then ShowPrice(reservation.price)
                                    else if action == Confirm && formValid then Saved
                                    else ShowForm)
                    && store.reservations == (if response == Saved && old(reservation !in store.reservations)
                                              then old(store.reservations) + [reservation]
                                              else old(store.reservations)))
  {
    var verdict := Admission(table, blocked, ReservationRanges(rental.reservations), rental.bedding,
                             FormRequest(reservation), now);
    if !(verdict.Reject? && verdict.reason.CampClosed?) {
      // setTime(0, 0, 0) on the submitted dates, which are the reservation's own date objects
      reservation.dateStart := Midnight(reservation.dateStart);
      reservation.dateEnd := Midnight(reservation.dateEnd);
    }
    if verdict.Reject? {
      return Redirect(verdict.reason);
    }
    MidnightIdempotent(old(reservation.dateStart));
    MidnightIdempotent(old(reservation.dateEnd));
    response := Accept(reservation, rental, rentalType, table, action, formValid, store);
  }

  /**
   * The admitted branch of `new`: links the reservation to the rental and the rental to its
   * type, confirms it, prices it, then answers according to the button pressed.
   */
  method Accept(reservation: Reservation, rental: Rental, rentalType: RentalType, table: seq<Season>,
                action: Action, formValid: bool, store: Store)
    returns (response: Response)
    requires store.Valid()
    modifies reservation`rental, reservation`dateStart, reservation`dateEnd, reservation`status,
             reservation`price, rental`rentalType, store
    ensures store.Valid()
    ensures reservation.dateStart == Midnight(old(reservation.dateStart))
    ensures reservation.dateEnd == Midnight(old(reservation.dateEnd))
    ensures reservation.rental == rental && rental.rentalType == Some(rentalType)
    ensures reservation.status == StatusConfirmed
    ensures reservation.price == Price(table, old(reservation.dateStart), old(reservation.dateEnd), rentalType.price)
    ensures response == (if action == Calculate then ShowPrice(reservation.price)
                         else if action == Confirm && formValid then Saved
                         else ShowForm)
    ensures store.reservations == (if response == Saved && old(reservation !in store.reservations)
                                   then old(store.reservations) + [reservation]
                                   else old(store.reservations))
  {
    reservation.rental := rental;
    rental.rentalType := Some(rentalType);
    reservation.status := StatusConfirmed;
    var totalPrice := CalculateTotalPrice(reservation, table);
    reservation.price := totalPrice;
    if action == Calculate {
      return ShowPrice(totalPrice);
    }
    if action == Confirm && formValid {
      store.Persist(reservation);
      return Saved;
    }
    return ShowForm;
  }

  /** `delete`: with a valid CSRF token the reservation becomes Refused; nothing else changes. */
  method Delete(reservation: Reservation, csrfTokenValid: bool)
    modifies reservation`status
    ensures reservation.status == if csrfTokenValid then StatusRefused else old(reservation.status)
  {
    if csrfTokenValid {
      reservation.status := StatusRefused;
    }
  }

  // ---- properties of the admission checks ----

  /** No closed season starts exactly at the requested start or ends exactly at the requested end. */
  predicate ClosedSeasonsPass(table: seq<Season>, req: Request) {
    forall s :: s in table && s.isClosed ==> req.dateStart != s.dateStart && req.dateEnd != s.dateEnd
  }

  /** Start not before today and end at least a day after the start, comparing calendar days. */
  predicate DatesPass(req: Request, now: Instant) {
    DayOf(now) <= DayOf(req.dateStart) < DayOf(req.dateEnd)
  }

  predicate OccupancyPasses(req: Request) {
    req.adults > 0 && req.kids >= 0
  }

  /** The new start or end, at midnight, falls inside one of the ranges, at midnight. */
  predicate HitsAnyNormalised(ranges: seq<Range>, req: Request) {
    exists r :: r in ranges && EndpointInside(Midnight(req.dateStart), Midnight(req.dateEnd), Normalised(r))
  }

  lemma NormalisedRanges(ranges: seq<Range>, req: Request)
    ensures AnyEndpointInside(seq(|ranges|, i requires 0 <= i < |ranges| => Normalised(ranges[i])),
                              Midnight(req.dateStart), Midnight(req.dateEnd))
            <==> HitsAnyNormalised(ranges, req)
  {
    var ns := seq(|ranges|, i requires 0 <= i < |ranges| => Normalised(ranges[i]));
    var ds, de := Midnight(req.dateStart), Midnight(req.dateEnd);
    if HitsAnyNormalised(ranges, req) {
      var r :| r in ranges && EndpointInside(ds, de, Normalised(r));
      var i :| 0 <= i < |ranges| && ranges[i] == r;
      assert ns[i] in ns;
    }
    if AnyEndpointInside(ns, ds, de) {
      var n :| n in ns && EndpointInside(ds, de, n);
      var i :| 0 <= i < |ns| && ns[i] == n;
      assert ranges[i] in ranges;
    }
  }

  /** The closed-season check rejects exactly when a closed season's start or end equals the requested one. */
  lemma {:induction false} ClosedRejectionIsEndpointEquality(table: seq<Season>, blocked: seq<Range>, booked: seq<Range>,
                                                             bedding: Option<int>, req: Request, now: Instant)
    ensures Admission(table, blocked, booked, bedding, req, now).Reject?
            && Admission(table, blocked, booked, bedding, req, now).reason.CampClosed?
            <==> !ClosedSeasonsPass(table, req)
  {
    var closed := SeasonsClosed(table);
    var p := (s: Season) => ClosedSeasonHit(s, req.dateStart, req.dateEnd);
    var k := FirstIndex(closed, p);
    if k < |closed| {
      assert closed[k] in closed;
    }
  }

  /**
   * The checks run in a fixed order and the first failure decides: each outcome holds
   * exactly when every earlier check passes and its own fails.
   */
  lemma ClientCheckOrder(table: seq<Season>, blocked: seq<Range>, booked: seq<Range>, bedding: Option<int>,
                         req: Request, now: Instant)
    ensures var v := Admission(table, blocked, booked, bedding, req, now);
      && (v == Reject(StartInPast) <==>
            ClosedSeasonsPass(table, req) && DayOf(req.dateStart) < DayOf(now))
      && (v == Reject(EndNotAfterStart) <==>
            ClosedSeasonsPass(table, req) && DayOf(now) <= DayOf(req.dateStart) && DayOf(req.dateEnd) <= DayOf(req.dateStart))
      && (v == Reject(InvalidOccupancy) <==>
            ClosedSeasonsPass(table, req) && DatesPass(req, now) && !OccupancyPasses(req))
      && (v == Reject(OverCapacity) <==>
            ClosedSeasonsPass(table, req) && DatesPass(req, now) && OccupancyPasses(req)
            && ExceedsBedding(req.adults + req.kids, bedding))
      && (v == Reject(DatesBlocked) <==>
            ClosedSeasonsPass(table, req) && DatesPass(req, now) && OccupancyPasses(req)
            && !ExceedsBedding(req.adults + req.kids, bedding) && HitsAnyNormalised(blocked, req))
      && (v == Reject(DatesReserved) <==>
            ClosedSeasonsPass(table, req) && DatesPass(req, now) && OccupancyPasses(req)
            && !ExceedsBedding(req.adults + req.kids, bedding) && !HitsAnyNormalised(blocked, req)
            && HitsAnyNormalised(booked, req))
      && (v == Admit <==>
            ClosedSeasonsPass(table, req) && DatesPass(req, now) && OccupancyPasses(req)
            && !ExceedsBedding(req.adults + req.kids, bedding) && !HitsAnyNormalised(blocked, req)
            && !HitsAnyNormalised(booked, req))
  {
    ClosedRejectionIsEndpointEquality(table, blocked, booked, bedding, req, now);
    NormalisedRanges(blocked, req);
    NormalisedRanges(booked, req);
    MidnightOrder(req.dateStart, now);
    MidnightOrder(now, req.dateStart);
    MidnightOrder(req.dateEnd, req.dateStart);
    MidnightOrder(req.dateStart, req.dateEnd);
  }

  /**
   * A rental whose bedding was never set refuses for capacity every request that passes the
   * closed-season, date and occupancy checks, since PHP compares the party with null as booleans.
   */
  lemma NoBeddingRefusesEveryParty(table: seq<Season>, blocked: seq<Range>, booked: seq<Range>,
                                   req: Request, now: Instant)
    requires ClosedSeasonsPass(table, req) && DatesPass(req, now) && OccupancyPasses(req)
    ensures Admission(table, blocked, booked, None, req, now) == Reject(OverCapacity)
  {
    ClientCheckOrder(table, blocked, booked, None, req, now);
  }

  /** A party no larger than a set bedding is never refused for capacity. */
  lemma PartyWithinBeddingFits(table: seq<Season>, blocked: seq<Range>, booked: seq<Range>, bedding: int,
                               req: Request, now: Instant)
    requires req.adults + req.kids <= bedding
    ensures Admission(table, blocked, booked, Some(bedding), req, now) != Reject(OverCapacity)
  {
    ClientCheckOrder(table, blocked, booked, Some(bedding), req, now);
  }

  /** A stay that starts and ends on the same calendar day is always refused once the earlier checks pass. */
  lemma SameDayStayRejected(table: seq<Season>, blocked: seq<Range>, booked: seq<Range>, bedding: Option<int>,
                            req: Request, now: Instant)
    requires ClosedSeasonsPass(table, req) && DayOf(now) <= DayOf(req.dateStart)
    requires DayOf(req.dateEnd) == DayOf(req.dateStart)
    ensures Admission(table, blocked, booked, bedding, req, now) == Reject(EndNotAfterStart)
  {
    ClientCheckOrder(table, blocked, booked, bedding, req, now);
  }

  /** A rejection for existing reservations or blocked ranges always names a range the stay overlaps. */
  lemma RangeRejectionOverlaps(table: seq<Season>, blocked: seq<Range>, booked: seq<Range>, bedding: Option<int>,
                               req: Request, now: Instant)
    ensures Admission(table, blocked, booked, bedding, req, now) == Reject(DatesReserved) ==>
              exists r :: r in booked && Overlaps(Midnight(req.dateStart), Midnight(req.dateEnd), Normalised(r))
    ensures Admission(table, blocked, booked, bedding, req, now) == Reject(DatesBlocked) ==>
              exists r :: r in blocked && Overlaps(Midnight(req.dateStart), Midnight(req.dateEnd), Normalised(r))
  {
    ClientCheckOrder(table, blocked, booked, bedding, req, now);
    MidnightOrder(req.dateStart, req.dateEnd);
    var ds, de := Midnight(req.dateStart), Midnight(req.dateEnd);
    if Admission(table, blocked, booked, bedding, req, now) == Reject(DatesReserved) {
      var r :| r in booked && EndpointInside(ds, de, Normalised(r));
      assert Overlaps(ds, de, Normalised(r));
    }
    if Admission(table, blocked, booked, bedding, req, now) == Reject(DatesBlocked) {
      var r :| r in blocked && EndpointInside(ds, de, Normalised(r));
      assert Overlaps(ds, de, Normalised(r));
    }
  }

  /** Any existing reservation with exactly the requested dates, whatever its status, refuses the request. */
  lemma SameDatesAsExistingRejected(table: seq<Season>, blocked: seq<Range>, booked: seq<Range>, bedding: Option<int>,
                                    req: Request, now: Instant)
    requires ClosedSeasonsPass(table, req) && DatesPass(req, now) && OccupancyPasses(req)
    requires !ExceedsBedding(req.adults + req.kids, bedding) && !HitsAnyNormalised(blocked, req)
    requires Range(req.dateStart, req.dateEnd) in booked
    ensures Admission(table, blocked, booked, bedding, req, now) == Reject(DatesReserved)
  {
    ClientCheckOrder(table, blocked, booked, bedding, req, now);
    var r := Range(req.dateStart, req.dateEnd);
    MidnightOrder(req.dateStart, req.dateEnd);
    assert EndpointInside(Midnight(req.dateStart), Midnight(req.dateEnd), Normalised(r));
  }

  /**
   * A stay strictly enclosing an existing reservation is admitted: concretely, a confirmed
   * stay of days 10 to 12 does not stop a booking of days 9 to 13 of the same rental.
   */
  lemma EnclosingStayAdmitted()
    ensures var day := SecondsPerDay;
            var existing := Range(10 * day, 12 * day);
            var req := Request(9 * day, 13 * day, 2, 0);
            && Admission([], [], [existing], Some(4), req, 0) == Admit
            && Overlaps(req.dateStart, req.dateEnd, existing)
  {
    var day := SecondsPerDay;
    var existing := Range(10 * day, 12 * day);
    var req := Request(9 * day, 13 * day, 2, 0);
    ClientCheckOrder([], [], [existing], Some(4), req, 0);
    assert Normalised(existing) == existing;
    assert !HitsAnyNormalised([existing], req);
  }

  /** A stay starting the day after an existing one ends is not refused by it. */
  lemma AdjacentStayNotReserved(table: seq<Season>, blocked: seq<Range>, bedding: Option<int>,
                                existing: Range, req: Request, now: Instant)
    requires DayOf(existing.dateStart) <= DayOf(existing.dateEnd) < DayOf(req.dateStart)
    ensures Admission(table, blocked, [existing], bedding, req, now) != Reject(DatesReserved)
  {
    ClientCheckOrder(table, blocked, [existing], bedding, req, now);
    if DatesPass(req, now) {
      MidnightOrder(existing.dateEnd, req.dateStart);
      MidnightOrder(req.dateStart, req.dateEnd);
      assert !HitsAnyNormalised([existing], req);
    }
  }

  // ---- properties of the price ----

  /** Non-negative daily price and percentages give a non-negative price. */
  lemma PriceNonNegative(table: seq<Season>, dateStart: Instant, dateEnd: Instant, basePrice: int)
    requires basePrice >= 0
    requires forall s :: s in table ==> s.percentage >= 0
    ensures Price(table, dateStart, dateEnd, basePrice) >= 0
  {
    var start, end := Midnight(dateStart), Midnight(dateEnd);
    var seasons := SeasonsBetweenDates(table, start, end);
    if seasons != [] {
      SeasonalSumNonNegative(seasons, start, end, basePrice);
    } else {
      assert (DiffDays(start, end) + 1) * basePrice >= 0;
    }
  }

  /** A single season covering the whole stay prices every day of it at the season's percentage. */
  lemma PriceOneCoveringSeason(s: Season, dateStart: Instant, dateEnd: Instant, basePrice: int)
    requires dateStart == Midnight(dateStart) && dateEnd == Midnight(dateEnd)
    requires s.dateStart <= dateStart <= dateEnd <= s.dateEnd
    ensures Price([s], dateStart, dateEnd, basePrice)
            == TruncHundredth((DayOf(dateEnd) - DayOf(dateStart) + 1) * s.percentage * basePrice)
  {
    assert SeasonsBetweenDates([s], dateStart, dateEnd) == [s] by {
      assert [s][..0] == [];
    }
    ClipDaysCountsSharedDays(dateStart, dateEnd, s);
    MidnightOrder(s.dateStart, dateStart);
    MidnightOrder(dateEnd, s.dateEnd);
    assert [s][..0] == [];
    assert SeasonalSum([s], dateStart, dateEnd, basePrice) == ClipDays(dateStart, dateEnd, s) * s.percentage * basePrice;
  }

  /** Ten days wholly inside a 120% season at 1000 a day. */
  lemma PriceTenDaysHighSeason()
    ensures var day := SecondsPerDay;
            Price([Season("high", false, 120, 1 * day, 31 * day)], 1 * day, 10 * day, 1000) == 12000
  {
    var day := SecondsPerDay;
    PriceOneCoveringSeason(Season("high", false, 120, 1 * day, 31 * day), 1 * day, 10 * day, 1000);
  }

  /** The day count of 1 to 30 April 2025 (days 20179 to 20208) at 1000 a day. */
  lemma PriceThirtyDaysNoSeason()
    ensures Price([], 20179 * SecondsPerDay, 20208 * SecondsPerDay, 1000) == 30000
  {
    assert DayOf(20179 * SecondsPerDay) == 20179 && DayOf(20208 * SecondsPerDay) == 20208;
  }

  /**
   * A stay that overlaps a single season pays that season's percentage for the shared days
   * and nothing for the others.
   */
  lemma PriceOneOverlappingSeason(s: Season, dateStart: Instant, dateEnd: Instant, basePrice: int)
    requires dateStart == Midnight(dateStart) && dateEnd == Midnight(dateEnd)
    requires dateStart <= dateEnd && s.dateStart <= s.dateEnd && OverlapsStay(s, dateStart, dateEnd)
    ensures Price([s], dateStart, dateEnd, basePrice)
            == TruncHundredth((Min(DayOf(dateEnd), DayOf(s.dateEnd)) - Max(DayOf(dateStart), DayOf(s.dateStart)) + 1)
                              * s.percentage * basePrice)
  {
    assert SeasonsBetweenDates([s], dateStart, dateEnd) == [s] by {
      assert [s][..0] == [];
    }
    ClipDaysCountsSharedDays(dateStart, dateEnd, s);
    assert [s][..0] == [];
    assert SeasonalSum([s], dateStart, dateEnd, basePrice) == SeasonCost(dateStart, dateEnd, s, basePrice);
  }

  /** Days not covered by any season cost nothing once some season overlaps the stay. */
  lemma GapDaysAreFree()
    ensures var day := SecondsPerDay;
            Price([Season("low", false, 100, 1 * day, 5 * day)], 1 * day, 10 * day, 1000) == 5000
  {
    var day := SecondsPerDay;
    assert Midnight(1 * day) == 1 * day && Midnight(10 * day) == 10 * day;
    assert DayOf(1 * day) == 1 && DayOf(5 * day) == 5 && DayOf(10 * day) == 10;
    PriceOneOverlappingSeason(Season("low", false, 100, 1 * day, 5 * day), 1 * day, 10 * day, 1000);
  }

  /** Two adjacent seasons, five days at 80% and five at 120%, at 1000 a day. */
  lemma PriceTwoSeasons()
    ensures var day := SecondsPerDay;
            Price([Season("mid", false, 80, 1 * day, 5 * day), Season("high", false, 120, 6 * day, 10 * day)],
                  1 * day, 10 * day, 1000) == 10000
  {
    var day := SecondsPerDay;
    var s1, s2 := Season("mid", false, 80, 1 * day, 5 * day), Season("high", false, 120, 6 * day, 10 * day);
    var table := [s1, s2];
    assert Midnight(1 * day) == 1 * day && Midnight(10 * day) == 10 * day;
    BothSeasonsSelected(s1, s2, 1 * day, 10 * day);
    ClipDaysCountsSharedDays(1 * day, 10 * day, s1);
    ClipDaysCountsSharedDays(1 * day, 10 * day, s2);
    TwoSeasonSum(s1, s2, 1 * day, 10 * day, 1000);
  }

  lemma BothSeasonsSelected(s1: Season, s2: Season, a: Instant, b: Instant)
    requires OverlapsStay(s1, a, b) && OverlapsStay(s2, a, b)
    ensures SeasonsBetweenDates([s1, s2], a, b) == [s1, s2]
  {
    var p := (s: Season) => OverlapsStay(s, a, b);
    FilterAppend([s1], [s2], p);
    assert [s1] + [s2] == [s1, s2];
    assert [s1][..0] == [] && [s2][..0] == [];
  }

  lemma TwoSeasonSum(s1: Season, s2: Season, a: Instant, b: Instant, basePrice: int)
    ensures SeasonalSum([s1, s2], a, b, basePrice)
            == ClipDays(a, b, s1) * s1.percentage * basePrice + ClipDays(a, b, s2) * s2.percentage * basePrice
  {
    assert [s1, s2][..1] == [s1];
    assert [s1][..0] == [];
    assert SeasonalSum([s1], a, b, basePrice) == ClipDays(a, b, s1) * s1.percentage * basePrice;
    assert SeasonalSum([s1, s2], a, b, basePrice)
           == SeasonalSum([s1], a, b, basePrice) + ClipDays(a, b, s2) * s2.percentage * basePrice;
  }

  // ---- cancellation ----

  /** The window has no direction: a start two days in the past is as cancelable as one two days ahead. */
  lemma CancelableEitherSide(dateStart: Instant, now: Instant)
    ensures IsCancelable(dateStart, now) == IsCancelable(now, dateStart)
    ensures IsCancelable(now + 2 * SecondsPerDay, now) && IsCancelable(now - 2 * SecondsPerDay, now)
  {
  }

  /** A stay that began three days ago still shows as cancelable. */
  lemma StartedStayCancelable(now: Instant)
    ensures IsCancelable(now - 3 * SecondsPerDay, now)
  {
    CancelableEitherSide(now - 3 * SecondsPerDay, now);
  }
}
