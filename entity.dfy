/**
 * The Rental aggregate and the entities it refers to. Rental's collections are ordered,
 * identity-compared collections (Doctrine ArrayCollection) and become sequences of object
 * references; the inverse-side back-references are the `rental` fields of Reservation and
 * Availability.
 */
module Entity {
  import opened Dates
  import opened Seqs
  import opened Wrappers
  import opened Booking

  /** Reservation status codes, as the client booking controller numbers them. */
  const StatusRefused: int := 0
  const StatusConfirmed: int := 1
  const StatusPending: int := 2

  /** The rental's accommodation type; only the fields the booking engine reads. */
  datatype RentalType = RentalType(typeLabel: string, price: int)

  class Equipment {
    var equipmentLabel: string

    constructor (equipmentLabel: string)
      ensures this.equipmentLabel == equipmentLabel
    {
      this.equipmentLabel := equipmentLabel;
    }
  }

  /** An owner-imposed blocked date range of one rental. */
  class Availability {
    var rental: Rental?
    var dateStart: Instant
    var dateEnd: Instant

    constructor (dateStart: Instant, dateEnd: Instant)
      ensures this.rental == null && this.dateStart == dateStart && this.dateEnd == dateEnd
    {
      rental := null;
      this.dateStart, this.dateEnd := dateStart, dateEnd;
    }
  }

  /**
   * A reservation as the booking form leaves it: the form binds the dates and the
   * occupancy; the controllers then set the rental, the status and the price.
   */
  class Reservation {
    var rental: Rental?
    var dateStart: Instant
    var dateEnd: Instant
    var adultsNumber: int
    var kidsNumber: int
    var price: int
    var status: int

    constructor (dateStart: Instant, dateEnd: Instant, adultsNumber: int, kidsNumber: int, status: int)
      ensures this.rental == null && this.price == 0 && this.status == status
      ensures this.dateStart == dateStart && this.dateEnd == dateEnd
      ensures this.adultsNumber == adultsNumber && this.kidsNumber == kidsNumber
    {
      rental := null;
      this.dateStart, this.dateEnd := dateStart, dateEnd;
      this.adultsNumber, this.kidsNumber := adultsNumber, kidsNumber;
      price := 0;
      this.status := status;
    }
  }

  class Rental {
    var id: Option<int>
    var title: Option<string>
    var description: Option<string>
    var bedding: Option<int>
    var surface: Option<int>
    var location: Option<int>
    var rentalType: Option<RentalType>
    var reservations: seq<Reservation>
    var equipments: seq<Equipment>
    var availabilities: seq<Availability>

    /** The collections never hold the same object twice. */
    ghost predicate Valid()
      reads this
    {
      NoDuplicates(reservations) && NoDuplicates(equipments) && NoDuplicates(availabilities)
    }

    constructor ()
      ensures Valid()
      ensures reservations == [] && equipments == [] && availabilities == []
      ensures id == None && title == None && description == None && bedding == None
      ensures surface == None && location == None && rentalType == None
    {
      id, title, description := None, None, None;
      bedding, surface, location := None, None, None;
      rentalType := None;
      reservations, equipments, availabilities := [], [], [];
    }

    method SetTitle(title: string) returns (self: Rental)
      modifies this`title
      ensures this.title == Some(title) && self == this
    {
      this.title := Some(title);
      self := this;
    }

    method SetDescription(description: string) returns (self: Rental)
      modifies this`description
      ensures this.description == Some(description) && self == this
    {
      this.description := Some(description);
      self := this;
    }

    method SetBedding(bedding: int) returns (self: Rental)
      modifies this`bedding
      ensures this.bedding == Some(bedding) && self == this
    {
      this.bedding := Some(bedding);
      self := this;
    }

    method SetSurface(surface: int) returns (self: Rental)
      modifies this`surface
      ensures this.surface == Some(surface) && self == this
    {
      this.surface := Some(surface);
      self := this;
    }

    method SetLocation(location: int) returns (self: Rental)
      modifies this`location
      ensures this.location == Some(location) && self == this
    {
      this.location := Some(location);
      self := this;
    }

    /** `setType` accepts null, which clears the type. */
    method SetType(rentalType: Option<RentalType>) returns (self: Rental)
      modifies this`rentalType
      ensures this.rentalType == rentalType && self == this
    {
      this.rentalType := rentalType;
      self := this;
    }

    /** Appends an absent reservation and points it at this rental; a present one changes nothing. */
    method AddReservation(reservation: Reservation) returns (self: Rental)
      requires Valid()
      modifies this`reservations, reservation`rental
      ensures Valid() && self == this
      ensures old(reservation in reservations) ==>
                reservations == old(reservations) && reservation.rental == old(reservation.rental)
      ensures old(reservation !in reservations) ==>
                reservations == old(reservations) + [reservation] && reservation.rental == this
    {
      if reservation !in reservations {
        reservations := reservations + [reservation];
        reservation.rental := this;
      }
      self := this;
    }

    /**
     * Removes a present reservation and clears its back-reference if it still points here;
     * an absent one changes nothing.
     */
    method RemoveReservation(reservation: Reservation) returns (self: Rental)
      requires Valid()
      modifies this`reservations, reservation`rental
      ensures Valid() && self == this
      ensures reservations == RemoveFirst(old(reservations), reservation)
      ensures reservation !in reservations
      ensures reservation.rental ==
                if old(reservation in reservations) && old(reservation.rental) == this then null
                else old(reservation.rental)
    {
      RemoveFirstNoDuplicates(reservations, reservation);
      if reservation in reservations {
        reservations := RemoveFirst(reservations, reservation);
        if reservation.rental == this {
          reservation.rental := null;
        }
      }
      self := this;
    }

    /** Equipments have no back-reference here: only the collection changes. */
    method AddEquipment(equipment: Equipment) returns (self: Rental)
      requires Valid()
      modifies this`equipments
      ensures Valid() && self == this
      ensures equipments ==
                if old(equipment in equipments) then old(equipments) else old(equipments) + [equipment]
    {
      if equipment !in equipments {
        equipments := equipments + [equipment];
      }
      self := this;
    }

    method RemoveEquipment(equipment: Equipment) returns (self: Rental)
      requires Valid()
      modifies this`equipments
      ensures Valid() && self == this
      ensures equipments == RemoveFirst(old(equipments), equipment)
      ensures equipment !in equipments
    {
      RemoveFirstNoDuplicates(equipments, equipment);
      equipments := RemoveFirst(equipments, equipment);
      self := this;
    }

    /** Appends an absent blocked range and points it at this rental; a present one changes nothing. */
    method AddAvailability(availability: Availability) returns (self: Rental)
      requires Valid()
      modifies this`availabilities, availability`rental
      ensures Valid() && self == this
      ensures old(availability in availabilities) ==>
                availabilities == old(availabilities) && availability.rental == old(availability.rental)
      ensures old(availability !in availabilities) ==>
                availabilities == old(availabilities) + [availability] && availability.rental == this
    {
      if availability !in availabilities {
        availabilities := availabilities + [availability];
        availability.rental := this;
      }
      self := this;
    }

    method RemoveAvailability(availability: Availability) returns (self: Rental)
      requires Valid()
      modifies this`availabilities, availability`rental
      ensures Valid() && self == this
      ensures availabilities == RemoveFirst(old(availabilities), availability)
      ensures availability !in availabilities
      ensures availability.rental ==
                if old(availability in availabilities) && old(availability.rental) == this then null
                else old(availability.rental)
    {
      RemoveFirstNoDuplicates(availabilities, availability);
      if availability in availabilities {
        availabilities := RemoveFirst(availabilities, availability);
        if availability.rental == this {
          availability.rental := null;
        }
      }
      self := this;
    }
  }

  /** The date ranges of a rental's reservations, one per reservation whatever its status. */
  function ReservationRanges(rs: seq<Reservation>): (r: seq<Range>)
    reads rs
    ensures |r| == |rs|
    ensures forall i :: 0 <= i < |rs| ==> r[i] == Range(rs[i].dateStart, rs[i].dateEnd)
  {
    if rs == [] then []
    else ReservationRanges(rs[..|rs| - 1]) + [Range(rs[|rs| - 1].dateStart, rs[|rs| - 1].dateEnd)]
  }

  /** The request the booking form binds to a reservation: its dates and its occupancy. */
  function FormRequest(reservation: Reservation): Request
    reads reservation
  {
    Request(reservation.dateStart, reservation.dateEnd, reservation.adultsNumber, reservation.kidsNumber)
  }

  /** Adding twice is adding once. */
  method AddReservationIdempotent(rental: Rental, reservation: Reservation)
    requires rental.Valid()
    modifies rental, reservation
    ensures rental.Valid()
    ensures rental.reservations ==
              if old(reservation in rental.reservations) then old(rental.reservations)
              else old(rental.reservations) + [reservation]
  {
    var _ := rental.AddReservation(reservation);
    var _ := rental.AddReservation(reservation);
  }
}
