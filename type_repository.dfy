/** `TypeRepository::getAllInfos`: the type/price join folded into one entry per rental type. */
module TypeRepository {
  import opened Seqs
  import opened Grouping

  /** The type columns of a join row: the fields an entry is created from. */
  datatype TypeColumns = TypeColumns(typeLabel: string, imagePath: string)

  /** The price columns of a join row, appended to the type's `prices` as a (label, price) pair. */
  datatype PriceColumns = PriceColumns(priceLabel: string, price: int)

  /** One row of the join, keyed by the type's id. */
  type TypeRow = Row<TypeColumns, PriceColumns>

  /** One entry of the result: the type's id, label and image and its `prices` list. */
  type TypeInfo = Group<TypeColumns, PriceColumns>

  method GetAllInfos(rows: seq<TypeRow>) returns (types: seq<TypeInfo>)
    // the entries' ids are the distinct type ids of the rows, in order of first appearance
    ensures |types| == |FirstIds(rows)|
    ensures forall k :: 0 <= k < |types| ==> types[k].id == FirstIds(rows)[k]
    // label and image path come from the first row of the type
    ensures forall k :: 0 <= k < |types| ==>
              FirstRow(rows, types[k].id) < |rows| && types[k].header == rows[FirstRow(rows, types[k].id)].header
    // prices are the price columns of every row of the type, in row order
    ensures forall k :: 0 <= k < |types| ==> types[k].items == ItemsOf(rows, types[k].id)
    ensures forall k, l :: 0 <= k < l < |types| ==> FirstRow(rows, types[k].id) < FirstRow(rows, types[l].id)
    ensures TotalItems(types) == |rows|
  {
    types := GroupById(rows);
    var ids := FirstIds(rows);
    forall k | 0 <= k < |types|
      ensures FirstRow(rows, types[k].id) < |rows| && types[k].header == rows[FirstRow(rows, types[k].id)].header
    {
      assert ids[k] in ids;
      HeaderIsFirstRows(rows, ids[k]);
    }
    forall k, l | 0 <= k < l < |types|
      ensures FirstRow(rows, types[k].id) < FirstRow(rows, types[l].id)
    {
      EntriesInFirstAppearanceOrder(rows, k, l);
    }
  }
}
