/** The reservation table as the entity manager persists it (persist + flush, remove + flush). */
module EntityManager {
  import opened Seqs
  import opened Entity

  class Store {
    var reservations: seq<Reservation>

    ghost predicate Valid()
      reads this
    {
      NoDuplicates(reservations)
    }

    constructor ()
      ensures Valid() && reservations == []
    {
      reservations := [];
    }

    /** Stores a reservation; storing one that is already stored changes nothing. */
    method Persist(reservation: Reservation)
      requires Valid()
      modifies this
      ensures Valid()
      ensures reservations ==
                if old(reservation in reservations) then old(reservations) else old(reservations) + [reservation]
    {
      if reservation !in reservations {
        reservations := reservations + [reservation];
      }
    }

    /** Deletes a reservation from the table. */
    method Remove(reservation: Reservation)
      requires Valid()
      modifies this
      ensures Valid()
      ensures reservations == RemoveFirst(old(reservations), reservation)
      ensures reservation !in reservations
    {
      RemoveFirstNoDuplicates(reservations, reservation);
      reservations := RemoveFirst(reservations, reservation);
    }
  }
}
