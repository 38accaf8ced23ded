/**
 * The public pages' filters: the home page lists the active rental types, a type's page lists its
 * active rentals, and a rental's page lists the equipment rows whose `isActive` column equals 1.
 */
module HomeController {
  import opened Wrappers
  import opened Seqs

  /** A rental type as the home page reads it; only its activity flag matters here. */
  datatype TypeItem = TypeItem(id: int, typeLabel: string, isActive: bool)

  /** A rental of the type as the type page reads it. */
  datatype RentalItem = RentalItem(id: int, title: Option<string>, isActive: bool)

  /**
   * An equipment row as an associative array: `isActive` is the value under that key,
   * `None` when the row has no such key (PHP then reads `null`).
   */
  datatype EquipmentRow = EquipmentRow(equipmentLabel: string, isActive: Option<bool>)

  predicate TypeIsActive(t: TypeItem) { t.isActive }

  predicate RentalIsActive(r: RentalItem) { r.isActive }

  /** `$equipment['isActive'] == 1` under PHP's loose comparison: true only for `true`; `false` and `null` fail. */
  predicate EquipmentIsActive(e: EquipmentRow) { e.isActive == Some(true) }

  /** The foreach that appends every item passing `keep`, in input order. */
  method KeepMatching<T(==)>(items: seq<T>, keep: T -> bool) returns (kept: seq<T>)
    ensures kept == Filter(items, keep)
    ensures forall x :: x in kept <==> x in items && keep(x)
    ensures IsSubsequence(kept, items) && |kept| <= |items|
  {
    kept := [];
    for i := 0 to |items|
      invariant kept == Filter(items[..i], keep)
    {
      assert items[..i + 1][..i] == items[..i];
      if keep(items[i]) {
        kept := kept + [items[i]];
      }
    }
    assert items[..|items|] == items;
    FilterIsSubsequence(items, keep);
  }

  /** `index`: the active types, in the order the repository returns them. */
  method Index(types: seq<TypeItem>) returns (typesAvailable: seq<TypeItem>)
    ensures typesAvailable == Filter(types, TypeIsActive)
    ensures forall t :: t in typesAvailable <==> t in types && t.isActive
    ensures IsSubsequence(typesAvailable, types)
  {
    typesAvailable := KeepMatching(types, TypeIsActive);
  }

  /** `detailType`: the active rentals among those of the type, in input order. */
  method DetailType(rentals: seq<RentalItem>) returns (rentalsAvailable: seq<RentalItem>)
    ensures rentalsAvailable == Filter(rentals, RentalIsActive)
    ensures forall r :: r in rentalsAvailable <==> r in rentals && r.isActive
    ensures IsSubsequence(rentalsAvailable, rentals)
  {
    rentalsAvailable := KeepMatching(rentals, RentalIsActive);
  }

  /** The rows `getEquipmentsForRental` returns: it selects the label alone, so no row has an `isActive` key. */
  function EquipmentsForRental(labels: seq<string>): (rows: seq<EquipmentRow>)
    ensures |rows| == |labels|
    ensures forall i :: 0 <= i < |rows| ==> rows[i] == EquipmentRow(labels[i], None)
  {
    if labels == [] then []
    else EquipmentsForRental(labels[..|labels| - 1]) + [EquipmentRow(labels[|labels| - 1], None)]
  }

  /** With rows that lack the `isActive` key, the equipment filter keeps nothing. */
  lemma {:induction false} NoEquipmentIsKept(labels: seq<string>)
    ensures Filter(EquipmentsForRental(labels), EquipmentIsActive) == []
  {
    if labels != [] {
      var init := labels[..|labels| - 1];
      var rows := EquipmentsForRental(labels);
      NoEquipmentIsKept(init);
      assert rows[..|rows| - 1] == EquipmentsForRental(init);
    }
  }

  /** `detailRental` over arbitrary rows: exactly the rows whose `isActive` is 1, in order. */
  method ActiveEquipments(equipments: seq<EquipmentRow>) returns (equipmentsAvailable: seq<EquipmentRow>)
    ensures equipmentsAvailable == Filter(equipments, EquipmentIsActive)
    ensures forall e :: e in equipmentsAvailable <==> e in equipments && e.isActive == Some(true)
    ensures IsSubsequence(equipmentsAvailable, equipments)
  {
    equipmentsAvailable := KeepMatching(equipments, EquipmentIsActive);
  }

  /** `detailRental` on the rows the repository actually returns: the list shown is always empty. */
  method DetailRental(labels: seq<string>) returns (equipmentsAvailable: seq<EquipmentRow>)
    ensures equipmentsAvailable == []
  {
    equipmentsAvailable := KeepMatching(EquipmentsForRental(labels), EquipmentIsActive);
    NoEquipmentIsKept(labels);
  }
}
