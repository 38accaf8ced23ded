/**
 * What the two booking controllers share: the request as the booking form binds it, the
 * inclusive date ranges they test against, the rejection reasons and the two range tests
 * (the endpoint-containment test the controllers use and the two-sided overlap test the
 * season query uses).
 */
module Booking {
  import opened Dates
  import opened Wrappers

  /** The dates and occupancy of a booking request. */
  datatype Request = Request(dateStart: Instant, dateEnd: Instant, adults: int, kids: int)

  /** An inclusive date range: a blocked range ("availability") or an existing reservation. */
  datatype Range = Range(dateStart: Instant, dateEnd: Instant)

  /**
   * Why a request is sent back. The blocked-range and the existing-reservation rejections
   * show the same message; they are told apart here so that the check order can be stated.
   */
  datatype Reason =
    | CampClosed(closedFrom: Instant, closedTo: Instant)
    | StartInPast
    | EndNotAfterStart
    | InvalidOccupancy
    | OverCapacity
    | DatesBlocked
    | DatesReserved

  datatype Verdict = Admit | Reject(reason: Reason)

  /** Which button submitted the booking form. */
  datatype Action = Calculate | Confirm | NoButton

  /** What a booking request handler answers. */
  datatype Response =
    | Redirect(reason: Reason)   // flash message and back to the form
    | ShowPrice(price: int)      // price shown, nothing stored
    | Saved                      // reservation stored
    | ShowForm                   // form shown again
    | Fault                      // a PHP error: a method called on null or on an array

  /**
   * The controllers' range test: the new start or the new end lies inside the range. For a
   * well-ordered stay it only ever catches ranges the stay overlaps.
   */
  function EndpointInside(dateStart: Instant, dateEnd: Instant, r: Range): (inside: bool)
    ensures inside && dateStart <= dateEnd ==> Overlaps(dateStart, dateEnd, r)
  {
    (dateStart >= r.dateStart && dateStart <= r.dateEnd) ||
    (dateEnd >= r.dateStart && dateEnd <= r.dateEnd)
  }

  /** Two inclusive ranges overlap: the test the season query uses. */
  predicate Overlaps(dateStart: Instant, dateEnd: Instant, r: Range) {
    dateStart <= r.dateEnd && r.dateStart <= dateEnd
  }

  /** Some range of `ranges` contains the new start or the new end. */
  predicate AnyEndpointInside(ranges: seq<Range>, dateStart: Instant, dateEnd: Instant) {
    exists r :: r in ranges && EndpointInside(dateStart, dateEnd, r)
  }

  /** A range with both its dates set to midnight, as `setTime(0, 0, 0)` leaves it. */
  function Normalised(r: Range): (n: Range)
    ensures DayOf(n.dateStart) == DayOf(r.dateStart) && DayOf(n.dateEnd) == DayOf(r.dateEnd)
    ensures n.dateStart <= r.dateStart && n.dateEnd <= r.dateEnd
  {
    Range(Midnight(r.dateStart), Midnight(r.dateEnd))
  }

  /**
   * Capacity test `$nbPersons > $rental->getBedding()`. A rental whose bedding was never set
   * compares against null, which PHP does by converting both sides to bool.
   */
  function ExceedsBedding(persons: int, bedding: Option<int>): bool {
    match bedding
    case Some(b) => persons > b
    case None => persons != 0
  }

  /** A larger party never fits where a smaller non-empty one did not. */
  lemma ExceedsBeddingMonotone(p: int, q: int, bedding: Option<int>)
    requires 0 < p <= q && ExceedsBedding(p, bedding)
    ensures ExceedsBedding(q, bedding)
  {
  }

  /** For a well-ordered stay, the endpoint test is the overlap test minus strict enclosure. */
  lemma EndpointInsideVersusOverlap(dateStart: Instant, dateEnd: Instant, r: Range)
    requires dateStart <= dateEnd && r.dateStart <= r.dateEnd
    ensures Overlaps(dateStart, dateEnd, r) <==>
              EndpointInside(dateStart, dateEnd, r) || (dateStart < r.dateStart && r.dateEnd < dateEnd)
  {
  }

  /** A stay that strictly encloses every range passes the endpoint test, although it overlaps them all. */
  lemma EnclosingStayPasses(ranges: seq<Range>, dateStart: Instant, dateEnd: Instant)
    requires forall r :: r in ranges ==> dateStart < r.dateStart && r.dateEnd < dateEnd
    ensures !AnyEndpointInside(ranges, dateStart, dateEnd)
    ensures forall r :: r in ranges && r.dateStart <= r.dateEnd ==> Overlaps(dateStart, dateEnd, r)
  {
  }

  /** A rejection by the endpoint test always names a range the stay overlaps. */
  lemma EndpointRejectionOverlaps(ranges: seq<Range>, dateStart: Instant, dateEnd: Instant)
    requires dateStart <= dateEnd
    requires AnyEndpointInside(ranges, dateStart, dateEnd)
    ensures exists r :: r in ranges && Overlaps(dateStart, dateEnd, r)
  {
    var r :| r in ranges && EndpointInside(dateStart, dateEnd, r);
    assert Overlaps(dateStart, dateEnd, r);
  }
}
