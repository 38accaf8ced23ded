/**
 * The admin booking flow: the admission checks of `new` (in their own order, with their own
 * closed-season and end-date rules, on the dates exactly as submitted), its price
 * computation, and `delete`, which removes the reservation from the store.
 */
module ReservationController {
  import opened Dates
  import opened Wrappers
  import opened Seqs
  import opened SeasonRepository
  import opened Booking
  import opened Pricing
  import opened Entity
  import opened EntityManager
  import Client = ReservationClientController

  /**
   * The admin's closed-season test: the stay lies entirely inside the closed season. A
   * well-ordered stay it catches overlaps the season, and the season is then well-ordered too.
   */
  function ClosedSeasonContains(s: Season, dateStart: Instant, dateEnd: Instant): (inside: bool)
    ensures inside && dateStart <= dateEnd ==> OverlapsStay(s, dateStart, dateEnd) && s.dateStart <= s.dateEnd
  {
    dateStart >= s.dateStart && dateEnd <= s.dateEnd
  }

  /**
   * The blocked-range step as written. The blocked-range query selects scalar columns, so its
   * rows are arrays, and calling `getDateStart()` on the first of them is a fatal error:
   * any rental with at least one blocked range cannot be booked here. `None` is that error.
   */
  function BlockedStepAsWritten(blocked: seq<Range>, dateStart: Instant, dateEnd: Instant): (r: Option<bool>)
    ensures r.None? <==> blocked != []
    // where it does not fail, it agrees with the intended step
    ensures r.Some? ==> r.value == BlockedStep(blocked, dateStart, dateEnd)
  {
    if blocked == [] then Some(false) else None
  }

  /**
   * The blocked-range step as evidently intended: the new start or end falls inside a blocked
   * range. It is the client's blocked-range test on unnormalised dates, and for a well-ordered
   * stay it refuses only stays that overlap a blocked range.
   */
  function BlockedStep(blocked: seq<Range>, dateStart: Instant, dateEnd: Instant): (rejected: bool)
    ensures rejected == AnyEndpointInside(blocked, dateStart, dateEnd)
    ensures rejected && dateStart <= dateEnd ==> exists r :: r in blocked && Overlaps(dateStart, dateEnd, r)
    ensures (forall r :: r in blocked ==> !Overlaps(dateStart, dateEnd, r)) && dateStart <= dateEnd ==> !rejected
  {
    exists r :: r in blocked && EndpointInside(dateStart, dateEnd, r)
  }

  /** The position of the first closed season that contains the whole stay, or the count of closed seasons. */
  function FirstClosedContaining(table: seq<Season>, dateStart: Instant, dateEnd: Instant): (k: nat)
    ensures k <= |SeasonsClosed(table)|
    ensures k < |SeasonsClosed(table)| ==> ClosedSeasonContains(SeasonsClosed(table)[k], dateStart, dateEnd)
    ensures k < |SeasonsClosed(table)| <==>
              exists s :: s in table && s.isClosed && ClosedSeasonContains(s, dateStart, dateEnd)
  {
    var closed := SeasonsClosed(table);
    var k := FirstIndex(closed, (s: Season) => ClosedSeasonContains(s, dateStart, dateEnd));
    if k < |closed| then
      assert closed[k] in closed;
      k
    else
      k
  }

  /**
   * The admission checks of `new`, in their order; the first that fails decides. Nothing is
   * set to midnight: dates are compared with the current instant and with the stored ranges
   * as they are. The blocked-range step is the intended one (see BlockedStepAsWritten).
   */
  function Admission(table: seq<Season>, blocked: seq<Range>, booked: seq<Range>, bedding: Option<int>,
                     req: Request, now: Instant): (v: Verdict)
    // the closed-season message names a closed season of the table that contains the stay
    ensures v.Reject? && v.reason.CampClosed? ==>
              exists s :: s in table && s.isClosed && v.reason == CampClosed(s.dateStart, s.dateEnd)
                          && s.dateStart <= req.dateStart && req.dateEnd <= s.dateEnd
    // an admitted request starts now or later, does not end before it starts, and fits the rental
    ensures v == Admit ==>
              now <= req.dateStart <= req.dateEnd && !ExceedsBedding(req.adults + req.kids, bedding)
    // occupancy counts are never checked
    ensures v != Reject(InvalidOccupancy)
  {
    if BlockedStep(blocked, req.dateStart, req.dateEnd) then Reject(DatesBlocked)
    else
      var closed := SeasonsClosed(table);
      var k := FirstClosedContaining(table, req.dateStart, req.dateEnd);
      if k < |closed| then
        assert closed[k] in closed;
        Reject(CampClosed(closed[k].dateStart, closed[k].dateEnd))
      else if req.dateStart < now then Reject(StartInPast)
      else if req.dateEnd < req.dateStart then Reject(EndNotAfterStart)
      else if ExceedsBedding(req.adults + req.kids, bedding) then Reject(OverCapacity)
      else if AnyEndpointInside(booked, req.dateStart, req.dateEnd) then Reject(DatesReserved)
      else Admit
  }

  /** The admission checks exactly as written: `None` when the blocked-range step fails with an error. */
  function AdmissionAsWritten(table: seq<Season>, blocked: seq<Range>, booked: seq<Range>, bedding: Option<int>,
                              req: Request, now: Instant): (r: Option<Verdict>)
    // fails exactly when the rental has a blocked range, and otherwise decides as intended
    ensures r.None? <==> blocked != []
    ensures r.Some? ==> r.value == Admission(table, blocked, booked, bedding, req, now)
  {
    match BlockedStepAsWritten(blocked, req.dateStart, req.dateEnd)
    case None => None
    case Some(_) => Some(Admission(table, blocked, booked, bedding, req, now))
  }

  /**
   * `calculateTotalPrice` as a function of the reservation's dates: the seasons are looked up
   * with the dates as they are, the clipping uses them at midnight, and a stay that no season
   * overlaps costs nothing.
   */
  function Price(table: seq<Season>, dateStart: Instant, dateEnd: Instant, basePrice: int): (price: int)
    ensures SeasonsBetweenDates(table, dateStart, dateEnd) == [] ==> price == 0
  {
    var seasons := SeasonsBetweenDates(table, dateStart, dateEnd);
    TruncHundredth(SeasonalSum(seasons, Midnight(dateStart), Midnight(dateEnd), basePrice))
  }

  /**
   * `calculateTotalPrice`. Inside the loop `setTime(0, 0, 0)` is applied to the reservation's
   * own date objects, so the reservation ends at midnight exactly when some season was found.
   * The daily price is read from the rental's type inside the loop, so only when some season
   * was found does the rental need a type.
   */
  method CalculateTotalPrice(reservation: Reservation, table: seq<Season>) returns (total: int)
    requires reservation.rental != null
    requires SeasonsBetweenDates(table, reservation.dateStart, reservation.dateEnd) != [] ==>
               reservation.rental.rentalType.Some?
    modifies reservation`dateStart, reservation`dateEnd
    ensures var found := SeasonsBetweenDates(table, old(reservation.dateStart), old(reservation.dateEnd)) != [];
            && reservation.dateStart == (if found then Midnight(old(reservation.dateStart)) else old(reservation.dateStart))
            && reservation.dateEnd == (if found then Midnight(old(reservation.dateEnd)) else old(reservation.dateEnd))
    ensures reservation.rental.rentalType.Some? ==>
              total == Price(table, old(reservation.dateStart), old(reservation.dateEnd),
                             reservation.rental.rentalType.value.price)
    ensures SeasonsBetweenDates(table, old(reservation.dateStart), old(reservation.dateEnd)) == [] ==> total == 0
  {
    var seasons := SeasonsBetweenDates(table, reservation.dateStart, reservation.dateEnd);
    ghost var start0, end0 := reservation.dateStart, reservation.dateEnd;
    ghost var basePrice := if reservation.rental.rentalType.Some? then reservation.rental.rentalType.value.price else 0;
    MidnightIdempotent(start0);
    MidnightIdempotent(end0);
    var hundredths := 0;
    for i := 0 to |seasons|
      invariant reservation.dateStart == (if i == 0 then start0 else Midnight(start0))
      invariant reservation.dateEnd == (if i == 0 then end0 else Midnight(end0))
      invariant hundredths == SeasonalSum(seasons[..i], Midnight(start0), Midnight(end0), basePrice)
    {
      var season := seasons[i];
      var price := reservation.rental.rentalType.value.price;
      reservation.dateStart := Midnight(reservation.dateStart);
      reservation.dateEnd := Midnight(reservation.dateEnd);
      var start := if reservation.dateStart > Midnight(season.dateStart) then reservation.dateStart else Midnight(season.dateStart);
      var end := if reservation.dateEnd < Midnight(season.dateEnd) then reservation.dateEnd else Midnight(season.dateEnd);
      var days := DiffDays(start, end) + 1;
      var cost := days * season.percentage * price;
      assert cost == SeasonCost(Midnight(start0), Midnight(end0), season, basePrice);
      SeasonalSumStep(seasons, i, Midnight(start0), Midnight(end0), basePrice);
      hundredths := hundredths + cost;
    }
    assert seasons[..|seasons|] == seasons;
    total := TruncHundredth(hundredths);
  }

  /**
   * `new`. The rental comes from the form; without one, `getId()` fails before anything
   * changes. A rejected request redirects; an admitted one gets its price and is then
   * quoted, stored or shown again. The status is left as the form bound it. Pricing reads
   * the rental's type only when some season is found, and fails when the rental has none.
   */
  method New(reservation: Reservation, table: seq<Season>, blocked: seq<Range>,
             now: Instant, action: Action, formValid: bool, store: Store)
    returns (response: Response)
    requires store.Valid()
    modifies reservation`dateStart, reservation`dateEnd, reservation`price, store
    ensures store.Valid()
    ensures reservation.rental == null ==>
              && response == Fault
              && store.reservations == old(store.reservations)
              && reservation.price == old(reservation.price)
              && reservation.dateStart == old(reservation.dateStart)
              && reservation.dateEnd == old(reservation.dateEnd)
    ensures reservation.rental != null ==>
              var verdict := Admission(table, blocked, old(ReservationRanges(reservation.rental.reservations)),
                                       old(reservation.rental.bedding), old(FormRequest(reservation)), now);
              && (verdict.Reject? ==>
                    && response == Redirect(verdict.reason)
                    && store.reservations == old(store.reservations)
                    && reservation.price == old(reservation.price)
                    && reservation.dateStart == old(reservation.dateStart)
                    && reservation.dateEnd == old(reservation.dateEnd))
              && var found := SeasonsBetweenDates(table, old(reservation.dateStart), old(reservation.dateEnd)) != [];
              && (verdict == Admit && found && reservation.rental.rentalType.None? ==>
                    && response == Fault
                    && store.reservations == old(store.reservations)
                    && reservation.price == old(reservation.price)
                    && reservation.dateStart == old(reservation.dateStart)
                    && reservation.dateEnd == old(reservation.dateEnd))
              && (verdict == Admit && !(found && reservation.rental.rentalType.None?) ==>
                    && reservation.price == (if reservation.rental.rentalType.Some?
                                             then Price(table, old(reservation.dateStart), old(reservation.dateEnd),
                                                        reservation.rental.rentalType.value.price)
                                             else 0)
                    && reservation.dateStart == (if found then Midnight(old(reservation.dateStart)) else old(reservation.dateStart))
                    && reservation.dateEnd == (if found then Midnight(old(reservation.dateEnd)) else old(reservation.dateEnd))
                    && response == (if action == Calculate then ShowPrice(reservation.price)
                                    else if action == Confirm && formValid then Saved
                                    else ShowForm)
                    && store.reservations == (if response == Saved && old(reservation !in store.reservations)
                                              then old(store.reservations) + [reservation]
                                              else old(store.reservations)))
  {
    var rental := reservation.rental;
    if rental == null {
      return Fault;
    }
    var verdict := Admission(table, blocked, ReservationRanges(rental.reservations), rental.bedding,
                             FormRequest(reservation), now);
    if verdict.Reject? {
      return Redirect(verdict.reason);
    }
    if SeasonsBetweenDates(table, reservation.dateStart, reservation.dateEnd) != [] && rental.rentalType.None? {
      return Fault;
    }
    var totalPrice := CalculateTotalPrice(reservation, table);
    reservation.price := totalPrice;
    if action == Calculate {
      return ShowPrice(totalPrice);
    }
    if action == Confirm && formValid {
      store.Persist(reservation);
      return Saved;
    }
    return ShowForm;
  }

  /** `delete`: with a valid CSRF token the reservation leaves the store; its status is not touched. */
  method Delete(reservation: Reservation, csrfTokenValid: bool, store: Store)
    requires store.Valid()
    modifies store
    ensures store.Valid()
    ensures store.reservations ==
              if csrfTokenValid then RemoveFirst(old(store.reservations), reservation) else old(store.reservations)
    ensures csrfTokenValid ==> reservation !in store.reservations
  {
    if csrfTokenValid {
      store.Remove(reservation);
    }
  }

  // ---- properties of the admission checks ----

  /** No closed season contains the whole stay. */
  predicate ClosedSeasonsPass(table: seq<Season>, req: Request) {
    forall s :: s in table && s.isClosed ==> !ClosedSeasonContains(s, req.dateStart, req.dateEnd)
  }

  /** The closed-season check rejects exactly when some closed season contains the whole stay. */
  lemma {:induction false} ClosedRejectionIsContainment(table: seq<Season>, blocked: seq<Range>, booked: seq<Range>,
                                                        bedding: Option<int>, req: Request, now: Instant)
    ensures Admission(table, blocked, booked, bedding, req, now).Reject?
            && Admission(table, blocked, booked, bedding, req, now).reason.CampClosed?
            <==> !BlockedStep(blocked, req.dateStart, req.dateEnd) && !ClosedSeasonsPass(table, req)
  {
    var k := FirstClosedContaining(table, req.dateStart, req.dateEnd);
    assert k < |SeasonsClosed(table)| <==> !ClosedSeasonsPass(table, req);
  }

  /** The checks run in their fixed order and the first failure decides. */
  lemma AdminCheckOrder(table: seq<Season>, blocked: seq<Range>, booked: seq<Range>, bedding: Option<int>,
                        req: Request, now: Instant)
    ensures var v := Admission(table, blocked, booked, bedding, req, now);
      var blockedOk := !BlockedStep(blocked, req.dateStart, req.dateEnd);
      && (v == Reject(DatesBlocked) <==> !blockedOk)
      && (v == Reject(StartInPast) <==>
            blockedOk && ClosedSeasonsPass(table, req) && req.dateStart < now)
      && (v == Reject(EndNotAfterStart) <==>
            blockedOk && ClosedSeasonsPass(table, req) && now <= req.dateStart && req.dateEnd < req.dateStart)
      && (v == Reject(OverCapacity) <==>
            blockedOk && ClosedSeasonsPass(table, req) && now <= req.dateStart <= req.dateEnd
            && ExceedsBedding(req.adults + req.kids, bedding))
      && (v == Reject(DatesReserved) <==>
            blockedOk && ClosedSeasonsPass(table, req) && now <= req.dateStart <= req.dateEnd
            && !ExceedsBedding(req.adults + req.kids, bedding)
            && AnyEndpointInside(booked, req.dateStart, req.dateEnd))
      && (v == Admit <==>
            blockedOk && ClosedSeasonsPass(table, req) && now <= req.dateStart <= req.dateEnd
            && !ExceedsBedding(req.adults + req.kids, bedding)
            && !AnyEndpointInside(booked, req.dateStart, req.dateEnd))
      && v != Reject(InvalidOccupancy)
  {
    ClosedRejectionIsContainment(table, blocked, booked, bedding, req, now);
  }

  /**
   * With no bedding set, the admin refuses for capacity exactly the non-empty parties among the
   * requests that pass the earlier checks; having no occupancy test of its own, it lets an empty
   * party through.
   */
  lemma NoBeddingRefusesNonEmptyParty(table: seq<Season>, blocked: seq<Range>, booked: seq<Range>,
                                      req: Request, now: Instant)
    requires !BlockedStep(blocked, req.dateStart, req.dateEnd) && ClosedSeasonsPass(table, req)
    requires now <= req.dateStart <= req.dateEnd
    ensures Admission(table, blocked, booked, None, req, now) == Reject(OverCapacity) <==>
              req.adults + req.kids != 0
  {
    AdminCheckOrder(table, blocked, booked, None, req, now);
  }

  /** A rejection for an existing reservation or a blocked range names a range the stay overlaps. */
  lemma RangeRejectionOverlaps(table: seq<Season>, blocked: seq<Range>, booked: seq<Range>, bedding: Option<int>,
                               req: Request, now: Instant)
    requires req.dateStart <= req.dateEnd
    ensures Admission(table, blocked, booked, bedding, req, now) == Reject(DatesReserved) ==>
              exists r :: r in booked && Overlaps(req.dateStart, req.dateEnd, r)
    ensures Admission(table, blocked, booked, bedding, req, now) == Reject(DatesBlocked) ==>
              exists r :: r in blocked && Overlaps(req.dateStart, req.dateEnd, r)
  {
    AdminCheckOrder(table, blocked, booked, bedding, req, now);
    if Admission(table, blocked, booked, bedding, req, now) == Reject(DatesReserved) {
      EndpointRejectionOverlaps(booked, req.dateStart, req.dateEnd);
    }
    if Admission(table, blocked, booked, bedding, req, now) == Reject(DatesBlocked) {
      EndpointRejectionOverlaps(blocked, req.dateStart, req.dateEnd);
    }
  }

  /**
   * The admin path accepts what the client path refuses: a stay that ends at the very instant
   * it starts, and occupancy counts the client path would call invalid.
   */
  lemma AdminAcceptsWhatClientRefuses()
    ensures var req := Request(5 * SecondsPerDay, 5 * SecondsPerDay, 1, -1);
            && Admission([], [], [], Some(4), req, 0) == Admit
            && Client.Admission([], [], [], Some(4), req, 0) == Reject(EndNotAfterStart)
    ensures var req := Request(5 * SecondsPerDay, 6 * SecondsPerDay, 0, 2);
            && Admission([], [], [], Some(4), req, 0) == Admit
            && Client.Admission([], [], [], Some(4), req, 0) == Reject(InvalidOccupancy)
  {
    var r1 := Request(5 * SecondsPerDay, 5 * SecondsPerDay, 1, -1);
    var r2 := Request(5 * SecondsPerDay, 6 * SecondsPerDay, 0, 2);
    AdminCheckOrder([], [], [], Some(4), r1, 0);
    AdminCheckOrder([], [], [], Some(4), r2, 0);
    Client.ClientCheckOrder([], [], [], Some(4), r1, 0);
    Client.ClientCheckOrder([], [], [], Some(4), r2, 0);
  }

  /** The past-start test compares instants: earlier today is refused, later today passes. */
  lemma PastTestIsInstantComparison(table: seq<Season>, blocked: seq<Range>, booked: seq<Range>,
                                    bedding: Option<int>, req: Request, now: Instant)
    requires !BlockedStep(blocked, req.dateStart, req.dateEnd) && ClosedSeasonsPass(table, req)
    requires DayOf(req.dateStart) == DayOf(now)
    ensures req.dateStart < now ==> Admission(table, blocked, booked, bedding, req, now) == Reject(StartInPast)
    ensures now <= req.dateStart ==> Admission(table, blocked, booked, bedding, req, now) != Reject(StartInPast)
  {
    AdminCheckOrder(table, blocked, booked, bedding, req, now);
  }

  // ---- the two closed-season tests against the overlap test ----

  /**
   * For a well-ordered stay and season, both closed-season tests imply overlap, and a stay
   * that overlaps the closed season without touching either bound passes them both.
   */
  lemma ClosedTestsVersusOverlap(s: Season, dateStart: Instant, dateEnd: Instant)
    requires dateStart <= dateEnd && s.dateStart <= s.dateEnd
    ensures Client.ClosedSeasonHit(s, dateStart, dateEnd) ==> OverlapsStay(s, dateStart, dateEnd)
    ensures dateStart < s.dateStart <= dateEnd < s.dateEnd ==>
              OverlapsStay(s, dateStart, dateEnd)
              && !Client.ClosedSeasonHit(s, dateStart, dateEnd)
              && !ClosedSeasonContains(s, dateStart, dateEnd)
  {
  }

  // ---- properties of the price ----

  lemma PriceNonNegative(table: seq<Season>, dateStart: Instant, dateEnd: Instant, basePrice: int)
    requires basePrice >= 0
    requires forall s :: s in table ==> s.percentage >= 0
    ensures Price(table, dateStart, dateEnd, basePrice) >= 0
  {
    var seasons := SeasonsBetweenDates(table, dateStart, dateEnd);
    SeasonalSumNonNegative(seasons, Midnight(dateStart), Midnight(dateEnd), basePrice);
  }

  /** Where some season overlaps the stay, both paths charge the same clipped seasonal sum. */
  lemma PriceAgreesWithClient(table: seq<Season>, dateStart: Instant, dateEnd: Instant, basePrice: int)
    requires dateStart == Midnight(dateStart) && dateEnd == Midnight(dateEnd)
    requires SeasonsBetweenDates(table, dateStart, dateEnd) != []
    ensures Price(table, dateStart, dateEnd, basePrice) == Client.Price(table, dateStart, dateEnd, basePrice)
  {
  }

  // ---- the blocked-range step: as written and as intended ----

  /**
   * The discrepancy: a blocked range weeks away from the stay makes the as-written handler
   * fail, while the intended check admits the stay.
   */
  lemma BlockedRangeElsewhereBreaksAdmin()
    ensures var req := Request(40 * SecondsPerDay, 45 * SecondsPerDay, 2, 0);
            var blocked := [Range(1 * SecondsPerDay, 3 * SecondsPerDay)];
            && AdmissionAsWritten([], blocked, [], Some(4), req, 0) == None
            && Admission([], blocked, [], Some(4), req, 0) == Admit
  {
    var req := Request(40 * SecondsPerDay, 45 * SecondsPerDay, 2, 0);
    var blocked := [Range(1 * SecondsPerDay, 3 * SecondsPerDay)];
    AdminCheckOrder([], blocked, [], Some(4), req, 0);
  }
}
