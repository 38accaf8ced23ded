/** `RentalRepository::getAllInfos`: the rental/type/equipment join folded into one entry per rental. */
module RentalRepository {
  import opened Wrappers
  import opened Seqs
  import opened Grouping

  /** The rental and type columns of a join row: the fields an entry is created from. */
  datatype RentalColumns = RentalColumns(
    title: Option<string>, description: Option<string>, bedding: Option<int>, surface: Option<int>,
    location: Option<int>, isClean: bool, isActive: bool, typeLabel: string)

  /** The equipment column of a join row: what each row appends to its rental's equipments. */
  datatype EquipmentColumns = EquipmentColumns(equipmentLabel: string)

  /** One row of the join, keyed by the rental's id. */
  type RentalRow = Row<RentalColumns, EquipmentColumns>

  /** One entry of the result: the rental's id, its columns and its `equipments` list. */
  type RentalInfo = Group<RentalColumns, EquipmentColumns>

  method GetAllInfos(rows: seq<RentalRow>) returns (rentals: seq<RentalInfo>)
    // exactly one entry per distinct rental id
    ensures forall k, l :: 0 <= k < l < |rentals| ==> rentals[k].id != rentals[l].id
    ensures forall id :: (exists k :: 0 <= k < |rentals| && rentals[k].id == id) <==> HasId(rows, id)
    // an entry's columns are those of the first row of that rental
    ensures forall k :: 0 <= k < |rentals| ==>
              var j := FirstRow(rows, rentals[k].id);
              j < |rows| && rentals[k].header == rows[j].header
    // its equipments are the equipment columns of all rows of that rental, in row order
    ensures forall k :: 0 <= k < |rentals| ==> rentals[k].items == ItemsOf(rows, rentals[k].id)
    // entries follow the first appearance of their rental in the rows
    ensures forall k, l :: 0 <= k < l < |rentals| ==>
              FirstRow(rows, rentals[k].id)
              < FirstRow(rows, rentals[l].id)
    ensures TotalItems(rentals) == |rows|
  {
    rentals := GroupById(rows);
    var ids := FirstIds(rows);
    forall k | 0 <= k < |rentals|
      ensures var j := FirstRow(rows, rentals[k].id);
              j < |rows| && rentals[k].header == rows[j].header
    {
      assert ids[k] in ids;
      HeaderIsFirstRows(rows, ids[k]);
    }
    forall k, l | 0 <= k < l < |rentals|
      ensures FirstRow(rows, rentals[k].id)
              < FirstRow(rows, rentals[l].id)
    {
      EntriesInFirstAppearanceOrder(rows, k, l);
    }
    assert forall k :: 0 <= k < |rentals| ==> rentals[k].id == ids[k] && ids[k] in ids;
    forall id | HasId(rows, id)
      ensures exists k :: 0 <= k < |rentals| && rentals[k].id == id
    {
      var k :| 0 <= k < |ids| && ids[k] == id;
      assert rentals[k].id == id;
    }
  }
}
