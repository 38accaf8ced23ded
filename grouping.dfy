/**
 * Folding a flat join result into one entry per id, as the repositories' `getAllInfos` loops do:
 * an ordered dictionary keyed by id whose entry is created from the first row with that id and
 * to whose item list every row with that id appends its item.
 */
module Grouping {
  import opened Wrappers
  import opened Seqs

  /** One row of the join: the owner's id, the owner's own columns and the joined child's columns. */
  datatype Row<H, I> = Row(id: int, header: H, item: I)

  /** One entry of the result: the owner's id and columns and the list of its children. */
  datatype Group<H, I> = Group(id: int, header: H, items: seq<I>)

  predicate HasId<H, I>(rows: seq<Row<H, I>>, id: int) {
    exists j :: 0 <= j < |rows| && rows[j].id == id
  }

  /** The position of the first row carrying `id`, or the number of rows when none does. */
  function FirstRow<H, I>(rows: seq<Row<H, I>>, id: int): nat {
    FirstIndex(rows, (r: Row<H, I>) => r.id == id)
  }

  /** The distinct ids of the rows, in the order of their first appearance. */
  function FirstIds<H, I>(rows: seq<Row<H, I>>): (r: seq<int>)
    ensures NoDuplicates(r)
    ensures forall id :: id in r <==> HasId(rows, id)
  {
    if rows == [] then []
    else
      var init, last := rows[..|rows| - 1], rows[|rows| - 1];
      var ids := FirstIds(init);
      assert forall j :: 0 <= j < |init| ==> init[j] == rows[j];
      assert forall id :: HasId(rows, id) <==> HasId(init, id) || last.id == id;
      if last.id in ids then ids else ids + [last.id]
  }

  /** The items of every row carrying `id`, in row order. */
  function ItemsOf<H, I>(rows: seq<Row<H, I>>, id: int): (r: seq<I>)
    ensures |r| <= |rows|
    ensures !HasId(rows, id) ==> r == []
  {
    if rows == [] then []
    else
      var init, last := rows[..|rows| - 1], rows[|rows| - 1];
      assert forall j :: 0 <= j < |init| ==> init[j] == rows[j];
      ItemsOf(init, id) + (if last.id == id then [last.item] else [])
  }

  /** The header of the first row carrying `id`, if any. */
  function HeaderOf<H, I>(rows: seq<Row<H, I>>, id: int): (r: Option<H>)
    ensures r.Some? <==> HasId(rows, id)
  {
    if rows == [] then None
    else
      var init, last := rows[..|rows| - 1], rows[|rows| - 1];
      assert forall j :: 0 <= j < |init| ==> init[j] == rows[j];
      var h := HeaderOf(init, id);
      if h.Some? then h else if last.id == id then Some(last.header) else None
  }

  /** The entry the fold builds for an id that occurs in the rows. */
  function EntryOf<H, I>(rows: seq<Row<H, I>>, id: int): Group<H, I>
    requires HasId(rows, id)
  {
    Group(id, HeaderOf(rows, id).value, ItemsOf(rows, id))
  }

  /** The number of items over all entries. */
  function TotalItems<H, I>(groups: seq<Group<H, I>>): nat {
    if groups == [] then 0 else TotalItems(groups[..|groups| - 1]) + |groups[|groups| - 1].items|
  }

  /**
   * The fold over the rows. `position` plays the part of the dictionary's keys: it maps each id
   * seen so far to the place of its entry, and `groups` holds the entries in insertion order, which
   * is the order `array_values` returns them in.
   */
  method GroupById<H, I>(rows: seq<Row<H, I>>) returns (groups: seq<Group<H, I>>)
    ensures |groups| == |FirstIds(rows)|
    ensures forall k :: 0 <= k < |groups| ==> groups[k] == EntryOf(rows, FirstIds(rows)[k])
    ensures TotalItems(groups) == |rows|
  {
    var position: map<int, nat> := map[];
    groups := [];
    for i := 0 to |rows|
      invariant Folded(groups, rows[..i])
      invariant forall id :: id in position <==> id in FirstIds(rows[..i])
      invariant forall id :: id in position ==> position[id] < |groups| && groups[position[id]].id == id
    {
      var row := rows[i];
      ghost var before := rows[..i];
      assert rows[..i + 1] == before + [row];
      if row.id !in position {
        FoldNewId(groups, before, row);
        position := position[row.id := |groups|];
        groups := groups + [Group(row.id, row.header, [row.item])];
      } else {
        var k := position[row.id];
        FoldSeenId(groups, before, row, k);
        groups := groups[k := groups[k].(items := groups[k].items + [row.item])];
      }
    }
    assert rows[..|rows|] == rows;
    TotalItemsOfFold(rows, groups);
  }

  /** `groups` is what the fold has built after reading `rows`: one entry per id, in first-appearance order. */
  ghost predicate Folded<H, I>(groups: seq<Group<H, I>>, rows: seq<Row<H, I>>) {
    && |groups| == |FirstIds(rows)|
    && forall k :: 0 <= k < |groups| ==> groups[k] == EntryOf(rows, FirstIds(rows)[k])
  }

  lemma FoldNewId<H, I>(groups: seq<Group<H, I>>, before: seq<Row<H, I>>, row: Row<H, I>)
    requires Folded(groups, before) && row.id !in FirstIds(before)
    ensures Folded(groups + [Group(row.id, row.header, [row.item])], before + [row])
    ensures FirstIds(before + [row]) == FirstIds(before) + [row.id]
  {
    NewIdStep(before, row);
    var ids := FirstIds(before);
    assert forall k :: 0 <= k < |ids| ==> ids[k] in ids;
  }

  lemma FoldSeenId<H, I>(groups: seq<Group<H, I>>, before: seq<Row<H, I>>, row: Row<H, I>, k: nat)
    requires Folded(groups, before) && k < |groups| && groups[k].id == row.id
    ensures Folded(groups[k := groups[k].(items := groups[k].items + [row.item])], before + [row])
    ensures FirstIds(before + [row]) == FirstIds(before)
  {
    var ids := FirstIds(before);
    assert ids[k] == row.id && ids[k] in ids;
    SeenIdStep(before, row);
    assert forall j :: 0 <= j < |ids| && j != k ==> ids[j] != row.id && ids[j] in ids;
  }

  /** A row with a new id appends a fresh entry and leaves the others as they were. */
  lemma NewIdStep<H, I>(before: seq<Row<H, I>>, row: Row<H, I>)
    requires row.id !in FirstIds(before)
    ensures FirstIds(before + [row]) == FirstIds(before) + [row.id]
    ensures EntryOf(before + [row], row.id) == Group(row.id, row.header, [row.item])
    ensures forall id :: HasId(before, id) ==> EntryOf(before + [row], id) == EntryOf(before, id)
  {
    var after := before + [row];
    assert after[..|after| - 1] == before;
    assert after[|after| - 1].id == row.id;
  }

  /** A row with an id seen before appends its item to that entry and leaves the others as they were. */
  lemma SeenIdStep<H, I>(before: seq<Row<H, I>>, row: Row<H, I>)
    requires row.id in FirstIds(before)
    ensures FirstIds(before + [row]) == FirstIds(before)
    ensures EntryOf(before + [row], row.id) == EntryOf(before, row.id).(items := EntryOf(before, row.id).items + [row.item])
    ensures forall id :: HasId(before, id) && id != row.id ==> EntryOf(before + [row], id) == EntryOf(before, id)
  {
    var after := before + [row];
    assert after[..|after| - 1] == before;
    assert forall id :: HasId(before, id) ==> HasId(after, id) by {
      forall id | HasId(before, id) ensures HasId(after, id) {
        var j :| 0 <= j < |before| && before[j].id == id;
        assert after[j] == before[j];
      }
    }
  }

  // ---- properties of the specification functions ----

  /** The header an entry gets is that of the first row carrying its id. */
  lemma {:induction false} HeaderIsFirstRows<H, I>(rows: seq<Row<H, I>>, id: int)
    requires HasId(rows, id)
    ensures var k := FirstRow(rows, id);
            k < |rows| && HeaderOf(rows, id) == Some(rows[k].header)
  {
    var init, last := rows[..|rows| - 1], rows[|rows| - 1];
    var p := (r: Row<H, I>) => r.id == id;
    assert forall j :: 0 <= j < |init| ==> init[j] == rows[j];
    if HasId(init, id) {
      HeaderIsFirstRows(init, id);
      FirstIndexOfExtension(init, last, p);
      assert init + [last] == rows;
    } else {
      assert last.id == id;
      assert FirstIndex(rows, p) == |rows| - 1;
    }
  }

  /** Appending an element after an earlier match does not move the first match. */
  lemma {:induction false} FirstIndexOfExtension<T>(s: seq<T>, x: T, p: T -> bool)
    requires FirstIndex(s, p) < |s|
    ensures FirstIndex(s + [x], p) == FirstIndex(s, p)
  {
    assert s != [];
    if !p(s[0]) {
      assert (s + [x])[1..] == s[1..] + [x];
      FirstIndexOfExtension(s[1..], x, p);
    }
  }

  /** Entries are in first-appearance order: an earlier entry's id appears first earlier in the rows. */
  lemma {:induction false} EntriesInFirstAppearanceOrder<H, I>(rows: seq<Row<H, I>>, a: nat, b: nat)
    requires a < b < |FirstIds(rows)|
    ensures FirstRow(rows, FirstIds(rows)[a]) < FirstRow(rows, FirstIds(rows)[b])
  {
    var init, last := rows[..|rows| - 1], rows[|rows| - 1];
    assert init + [last] == rows;
    var ids := FirstIds(init);
    assert FirstIds(rows)[a] == ids[a] && ids[a] in ids;
    FirstRowOfExtension(init, last, ids[a]);
    if b < |ids| {
      assert FirstIds(rows)[b] == ids[b] && ids[b] in ids;
      FirstRowOfExtension(init, last, ids[b]);
      EntriesInFirstAppearanceOrder(init, a, b);
    } else {
      assert FirstIds(rows)[b] == last.id && last.id !in ids;
      FirstRowOfNewId(init, last);
    }
  }

  /** An id already present keeps its first row when a row is appended. */
  lemma FirstRowOfExtension<H, I>(rows: seq<Row<H, I>>, row: Row<H, I>, id: int)
    requires HasId(rows, id)
    ensures FirstRow(rows, id) < |rows| && FirstRow(rows + [row], id) == FirstRow(rows, id)
  {
    var p := (r: Row<H, I>) => r.id == id;
    FirstIndexFindsIn(rows, p);
    FirstIndexOfExtension(rows, row, p);
  }

  /** An appended row with a new id is that id's first row. */
  lemma FirstRowOfNewId<H, I>(rows: seq<Row<H, I>>, row: Row<H, I>)
    requires !HasId(rows, row.id)
    ensures FirstRow(rows + [row], row.id) == |rows|
  {
    var after := rows + [row];
    assert after[|rows|] == row;
    assert forall j :: 0 <= j < |rows| ==> after[j] == rows[j];
  }

  /** An id present in the rows is found before their end. */
  lemma FirstIndexFindsIn<T>(s: seq<T>, p: T -> bool)
    requires exists j :: 0 <= j < |s| && p(s[j])
    ensures FirstIndex(s, p) < |s|
  {
  }

  /** Every row lands in exactly one entry, so the entries hold as many items as there are rows. */
  lemma {:induction false} ItemsCountRows<H, I>(rows: seq<Row<H, I>>)
    ensures SumOfItems(rows, FirstIds(rows)) == |rows|
  {
    if rows != [] {
      var init, last := rows[..|rows| - 1], rows[|rows| - 1];
      var ids := FirstIds(init);
      assert init + [last] == rows;
      ItemsCountRows(init);
      SumOfItemsExtend(init, last, ids);
      if last.id in ids {
        assert FirstIds(rows) == ids;
      } else {
        NewIdAddsOneItem(init, last);
      }
    }
  }

  /** A row with an id not seen before starts a new entry holding that row's item alone. */
  lemma NewIdAddsOneItem<H, I>(init: seq<Row<H, I>>, last: Row<H, I>)
    requires last.id !in FirstIds(init)
    ensures FirstIds(init + [last]) == FirstIds(init) + [last.id]
    ensures SumOfItems(init + [last], FirstIds(init + [last]))
            == SumOfItems(init + [last], FirstIds(init)) + 1
  {
    var rows := init + [last];
    assert rows[..|rows| - 1] == init;
    assert !HasId(init, last.id);
    assert ItemsOf(init, last.id) == [];
    assert ItemsOf(rows, last.id) == [last.item];
    SumOfItemsAppendId(rows, FirstIds(init), last.id);
  }

  /** Summing the item counts of `ids` over `rows`. */
  function SumOfItems<H, I>(rows: seq<Row<H, I>>, ids: seq<int>): nat {
    if ids == [] then 0 else SumOfItems(rows, ids[..|ids| - 1]) + |ItemsOf(rows, ids[|ids| - 1])|
  }

  /** One more row adds one item to the sum exactly when the row's id is among `ids` (once). */
  lemma {:induction false} SumOfItemsExtend<H, I>(rows: seq<Row<H, I>>, row: Row<H, I>, ids: seq<int>)
    requires NoDuplicates(ids)
    ensures SumOfItems(rows + [row], ids) == SumOfItems(rows, ids) + (if row.id in ids then 1 else 0)
  {
    var after := rows + [row];
    assert after[..|after| - 1] == rows;
    if ids != [] {
      var init := ids[..|ids| - 1];
      assert forall i, j :: 0 <= i < j < |init| ==> init[i] == ids[i] && init[j] == ids[j];
      SumOfItemsExtend(rows, row, init);
      assert ids == init + [ids[|ids| - 1]];
      assert row.id in ids <==> row.id in init || row.id == ids[|ids| - 1];
    }
  }

  lemma SumOfItemsAppendId<H, I>(rows: seq<Row<H, I>>, ids: seq<int>, id: int)
    ensures SumOfItems(rows, ids + [id]) == SumOfItems(rows, ids) + |ItemsOf(rows, id)|
  {
    assert (ids + [id])[..|ids|] == ids;
  }

  /** The fold's entries, read back, hold as many items as there are rows. */
  lemma {:induction false} TotalItemsOfFold<H, I>(rows: seq<Row<H, I>>, groups: seq<Group<H, I>>)
    requires |groups| == |FirstIds(rows)|
    requires forall k :: 0 <= k < |groups| ==> groups[k] == EntryOf(rows, FirstIds(rows)[k])
    ensures TotalItems(groups) == |rows|
  {
    ItemsCountRows(rows);
    TotalItemsMatchesSum(rows, groups, FirstIds(rows));
  }

  lemma {:induction false} TotalItemsMatchesSum<H, I>(rows: seq<Row<H, I>>, groups: seq<Group<H, I>>, ids: seq<int>)
    requires |groups| == |ids|
    requires forall k :: 0 <= k < |groups| ==> groups[k].items == ItemsOf(rows, ids[k])
    ensures TotalItems(groups) == SumOfItems(rows, ids)
  {
    if groups != [] {
      TotalItemsMatchesSum(rows, groups[..|groups| - 1], ids[..|ids| - 1]);
    }
  }
}
