/**
 * The editable Kanban board: columns are added (up to five through the add button)
 * and deleted. Column ids are random draws, passed in here as the draw itself.
 */
module KanbanColumns {
  import opened Seqs
  import opened Strings

  datatype ColumnInfo = ColumnInfo(id: int, title: string)

  /** The add button is replaced by a notice from this many columns on. */
  const MaxColumns := 5

  /** `generateId`: `Math.floor(Math.random() * 101)` for a draw `roll` in [0, 1). */
  function GenerateId(roll: real): (id: int)
    requires 0.0 <= roll < 1.0
    ensures 0 <= id <= 100
  {
    (roll * 101.0).Floor
  }

  /** `Column ${n}`. */
  function ColumnTitle(n: nat): string {
    "Column " + NatToString(n)
  }

  /** `columns.filter(column => column.id !== id)`. */
  function WithoutColumn(columns: seq<ColumnInfo>, id: int): (r: seq<ColumnInfo>)
    ensures forall i :: 0 <= i < |r| ==> r[i].id != id && r[i] in columns
    ensures forall i :: 0 <= i < |columns| && columns[i].id != id ==> columns[i] in r
  {
    Filter(columns, (c: ColumnInfo) => c.id != id)
  }

  /** A further column survives, last, exactly when its id differs: deleting keeps the others in order. */
  lemma WithoutColumnAppend(columns: seq<ColumnInfo>, c: ColumnInfo, id: int)
    ensures WithoutColumn(columns + [c], id) == WithoutColumn(columns, id) + (if c.id != id then [c] else [])
  {
    FilterConcat(columns, [c], (column: ColumnInfo) => column.id != id);
  }

  /** Random ids can repeat, and deleting one id removes every column that drew it. */
  lemma DeleteRemovesSharedId(a: ColumnInfo, b: ColumnInfo, c: ColumnInfo)
    requires a.id == b.id != c.id
    ensures WithoutColumn([a, c, b], a.id) == [c]
  {
    var keep := (column: ColumnInfo) => column.id != a.id;
    assert [a, c, b][1..] == [c, b];
    assert [c, b][1..] == [b];
    assert [b][1..] == [];
    assert Filter([b], keep) == [];
    assert Filter([c, b], keep) == [c];
    assert Filter([a, c, b], keep) == [c];
  }

  /** Titles follow the count, not a counter: after a deletion the next title can repeat one on the board. */
  lemma TitleCanRepeat(first: ColumnInfo, second: ColumnInfo)
    requires first.id != second.id
    requires first.title == ColumnTitle(1) && second.title == ColumnTitle(2)
    ensures var left := WithoutColumn([first, second], first.id);
            left == [second] && ColumnTitle(|left| + 1) == second.title
  {
    var keep := (column: ColumnInfo) => column.id != first.id;
    assert [first, second][1..] == [second];
    assert [second][1..] == [];
    assert Filter([second], keep) == [second];
    assert Filter([first, second], keep) == [second];
  }

  class ColumnBoard {
    var columns: seq<ColumnInfo>
    /** The notice line; its initial value is an empty array, which renders as nothing. */
    var message: string

    /** Through the add button the board never holds more than five columns. */
    ghost predicate Valid()
      reads this
    {
      |columns| <= MaxColumns
    }

    constructor ()
      ensures Valid() && columns == [] && message == ""
    {
      columns := [];
      message := "";
    }

    /** `createNewColumn`: append one column titled after the new count, and clear the message. */
    method CreateNewColumn(roll: real)
      requires 0.0 <= roll < 1.0
      modifies this
      ensures columns == old(columns) + [ColumnInfo(GenerateId(roll), ColumnTitle(|old(columns)| + 1))]
      ensures message == ""
    {
      var columnToAdd := ColumnInfo(GenerateId(roll), ColumnTitle(|columns| + 1));
      columns := columns + [columnToAdd];
      message := "";
    }

    /** `deleteColumn(id)`. */
    method DeleteColumn(id: int)
      requires Valid()
      modifies this`columns
      ensures Valid()
      ensures columns == WithoutColumn(old(columns), id)
    {
      columns := WithoutColumn(columns, id);
    }

    /** Whether the add button is shown. */
    predicate CanAddColumn()
      reads this
    {
      |columns| < MaxColumns
    }

    /** A click on the add button, which exists only below the limit. */
    method AddColumnClicked(roll: real)
      requires 0.0 <= roll < 1.0
      requires Valid()
      modifies this
      ensures Valid()
      ensures old(|columns|) < MaxColumns ==>
                columns == old(columns) + [ColumnInfo(GenerateId(roll), ColumnTitle(|old(columns)| + 1))] && message == ""
      ensures old(|columns|) >= MaxColumns ==> columns == old(columns) && message == old(message)
    {
      if CanAddColumn() {
        CreateNewColumn(roll);
      }
    }
  }
}
