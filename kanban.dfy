/**
 * The fixed three-column production board: cards are dragged between columns, and
 * `moveCard` takes the dragged card out of every column and appends it to the target.
 * The board is the component's `columns` state, an object from column name to an
 * array of cards; here an ordered sequence of named columns.
 */
module Kanban {
  import opened Seqs

  datatype Card = Card(id: int, title: string, description: string)

  datatype Column = Column(name: string, cards: seq<Card>)

  /** Object keys are distinct. */
  predicate DistinctNames(board: seq<Column>) {
    forall i, j :: 0 <= i < j < |board| ==> board[i].name != board[j].name
  }

  predicate HasColumn(board: seq<Column>, name: string) {
    exists i :: 0 <= i < |board| && board[i].name == name
  }

  /** `initialColumns`. */
  function InitialColumns(): seq<Column> {
    [ Column("A Fazer", [Card(1, "Recheio", "Chocolate com morango"), Card(2, "Massa", "Chocolate")]),
      Column("Pendente", [Card(3, "Cobertura", "Pedaços de morango")]),
      Column("Pronto", []) ]
  }

  /** `cards.filter(c => c.id !== id)`. */
  function WithoutCard(cards: seq<Card>, id: int): seq<Card> {
    Filter(cards, (c: Card) => c.id != id)
  }

  /** One column after a move: the card's id filtered out, and the card appended if it is the target. */
  function MoveIn(column: Column, card: Card, to: string): Column {
    Column(column.name, WithoutCard(column.cards, card.id) + if column.name == to then [card] else [])
  }

  /** The board after `moveCard(card, to)`. */
  function Moved(board: seq<Column>, card: Card, to: string): (r: seq<Column>)
    ensures |r| == |board|
    ensures forall i :: 0 <= i < |board| ==> r[i].name == board[i].name
  {
    Map(board, (column: Column) => MoveIn(column, card, to))
  }

  /** The number of cards with a given id in one column. */
  function Occurrences(cards: seq<Card>, id: int): nat {
    if cards == [] then 0 else (if cards[0].id == id then 1 else 0) + Occurrences(cards[1..], id)
  }

  /** The number of cards with a given id on the board. */
  function IdCount(board: seq<Column>, id: int): nat {
    if board == [] then 0 else Occurrences(board[0].cards, id) + IdCount(board[1..], id)
  }

  /** The number of columns with a given name. */
  function NameCount(board: seq<Column>, name: string): nat {
    if board == [] then 0 else (if board[0].name == name then 1 else 0) + NameCount(board[1..], name)
  }

  /** The number of cards on the board. */
  function Total(board: seq<Column>): nat {
    if board == [] then 0 else |board[0].cards| + Total(board[1..])
  }

  /** No id is carried by two cards. */
  ghost predicate UniqueIds(board: seq<Column>) {
    forall x :: IdCount(board, x) <= 1
  }

  /** The target column ends with the moved card. */
  lemma MovedEndsWithCard(board: seq<Column>, card: Card, to: string, i: nat)
    requires i < |board| && board[i].name == to
    ensures var cards := Moved(board, card, to)[i].cards;
            |cards| > 0 && cards[|cards| - 1] == card
  {
  }

  /** After the move, a card with the moved id sits only at the end of the target column. */
  lemma MovedCardOnlyAtEnd(board: seq<Column>, card: Card, to: string)
    ensures var r := Moved(board, card, to);
            forall i, k :: 0 <= i < |r| && 0 <= k < |r[i].cards| && r[i].cards[k].id == card.id ==>
              r[i].name == to && k == |r[i].cards| - 1
  {
    var r := Moved(board, card, to);
    forall i | 0 <= i < |r|
      ensures forall j :: 0 <= j < |WithoutCard(board[i].cards, card.id)| ==> r[i].cards[j].id != card.id
    {
      assert r[i] == MoveIn(board[i], card, to);
    }
  }

  /** Apart from the moved card, every column holds the same cards in the same order. */
  lemma MovedKeepsOthers(board: seq<Column>, card: Card, to: string)
    ensures var r := Moved(board, card, to);
            forall i :: 0 <= i < |r| ==> WithoutCard(r[i].cards, card.id) == WithoutCard(board[i].cards, card.id)
  {
    var r := Moved(board, card, to);
    var p := (c: Card) => c.id != card.id;
    forall i | 0 <= i < |r| ensures WithoutCard(r[i].cards, card.id) == WithoutCard(board[i].cards, card.id) {
      var kept := WithoutCard(board[i].cards, card.id);
      var tail: seq<Card> := if board[i].name == to then [card] else [];
      assert r[i].cards == kept + tail;
      FilterConcat(kept, tail, p);
      FilterIdempotent(board[i].cards, p);
      assert Filter(tail, p) == [];
    }
  }

  /** Filtering out an id removes exactly its occurrences. */
  lemma {:induction false} WithoutCardLength(cards: seq<Card>, id: int)
    ensures |WithoutCard(cards, id)| == |cards| - Occurrences(cards, id)
    ensures Occurrences(WithoutCard(cards, id), id) == 0
    ensures forall x :: x != id ==> Occurrences(WithoutCard(cards, id), x) == Occurrences(cards, x)
  {
    if cards != [] {
      WithoutCardLength(cards[1..], id);
      var head: seq<Card> := if cards[0].id != id then [cards[0]] else [];
      assert WithoutCard(cards, id) == head + WithoutCard(cards[1..], id);
      forall x ensures Occurrences(head + WithoutCard(cards[1..], id), x) == Occurrences(head, x) + Occurrences(WithoutCard(cards[1..], id), x) {
        OccurrencesConcat(head, WithoutCard(cards[1..], id), x);
      }
    }
  }

  lemma {:induction false} OccurrencesConcat(a: seq<Card>, b: seq<Card>, x: int)
    ensures Occurrences(a + b, x) == Occurrences(a, x) + Occurrences(b, x)
  {
    if a == [] {
      assert a + b == b;
    } else {
      assert (a + b)[1..] == a[1..] + b;
      OccurrencesConcat(a[1..], b, x);
    }
  }

  /** One column after the move: its length and its id counts. */
  lemma MoveInCounts(column: Column, card: Card, to: string)
    ensures var c := MoveIn(column, card, to);
            && |c.cards| == |column.cards| - Occurrences(column.cards, card.id) + (if column.name == to then 1 else 0)
            && Occurrences(c.cards, card.id) == (if column.name == to then 1 else 0)
            && forall x :: x != card.id ==> Occurrences(c.cards, x) == Occurrences(column.cards, x)
  {
    var kept := WithoutCard(column.cards, card.id);
    var tail: seq<Card> := if column.name == to then [card] else [];
    WithoutCardLength(column.cards, card.id);
    assert tail != [] ==> tail[1..] == [];
    forall x ensures Occurrences(kept + tail, x) == Occurrences(kept, x) + (if tail != [] && card.id == x then 1 else 0) {
      OccurrencesConcat(kept, tail, x);
    }
  }

  /** The move changes the card count by the copies of the card removed and the one appended. */
  lemma {:induction false} TotalAfterMove(board: seq<Column>, card: Card, to: string)
    ensures Total(Moved(board, card, to)) == Total(board) - IdCount(board, card.id) + NameCount(board, to)
  {
    if board != [] {
      var r := Moved(board, card, to);
      assert r[1..] == Moved(board[1..], card, to);
      TotalAfterMove(board[1..], card, to);
      MoveInCounts(board[0], card, to);
    }
  }

  /** After the move the card's id counts once per target column, and every other id is unchanged. */
  lemma {:induction false} IdCountAfterMove(board: seq<Column>, card: Card, to: string)
    ensures IdCount(Moved(board, card, to), card.id) == NameCount(board, to)
    ensures forall x :: x != card.id ==> IdCount(Moved(board, card, to), x) == IdCount(board, x)
  {
    if board != [] {
      var r := Moved(board, card, to);
      assert r[1..] == Moved(board[1..], card, to);
      IdCountAfterMove(board[1..], card, to);
      MoveInCounts(board[0], card, to);
    }
  }

  /** Distinct names give a present column a count of one. */
  lemma {:induction false} NameCountOne(board: seq<Column>, name: string)
    requires DistinctNames(board) && HasColumn(board, name)
    ensures NameCount(board, name) == 1
  {
    if board[0].name == name {
      NameCountZero(board[1..], name);
    } else {
      NameCountOne(board[1..], name);
    }
  }

  lemma {:induction false} NameCountZero(board: seq<Column>, name: string)
    requires forall i :: 0 <= i < |board| ==> board[i].name != name
    ensures NameCount(board, name) == 0
  {
    if board != [] {
      NameCountZero(board[1..], name);
    }
  }

  /** With unique ids and the card on the board, a move keeps the number of cards and keeps ids unique. */
  lemma MoveKeepsCardsAndUniqueIds(board: seq<Column>, card: Card, to: string)
    requires DistinctNames(board) && HasColumn(board, to)
    requires UniqueIds(board) && IdCount(board, card.id) == 1
    ensures Total(Moved(board, card, to)) == Total(board)
    ensures UniqueIds(Moved(board, card, to))
    ensures IdCount(Moved(board, card, to), card.id) == 1
  {
    NameCountOne(board, to);
    TotalAfterMove(board, card, to);
    IdCountAfterMove(board, card, to);
    var r := Moved(board, card, to);
    forall x ensures IdCount(r, x) <= 1 {
      if x != card.id {
        assert IdCount(board, x) <= 1;
      }
    }
  }

  /** The initial board has distinct column names and the distinct card ids 1, 2 and 3. */
  lemma InitialColumnsWellFormed()
    ensures DistinctNames(InitialColumns())
    ensures UniqueIds(InitialColumns())
    ensures Total(InitialColumns()) == 3
    ensures IdCount(InitialColumns(), 1) == 1 && IdCount(InitialColumns(), 2) == 1 && IdCount(InitialColumns(), 3) == 1
  {
    var b := InitialColumns();
    assert b[1..][1..][1..] == [];
    assert b[0].cards[1..][1..] == [];
    assert b[1].cards[1..] == [];
    forall x ensures IdCount(b, x) == (if x == 1 then 1 else 0) + (if x == 2 then 1 else 0) + (if x == 3 then 1 else 0) {
      assert Occurrences(b[0].cards, x) == (if x == 1 then 1 else 0) + (if x == 2 then 1 else 0);
      assert Occurrences(b[1].cards, x) == (if x == 3 then 1 else 0);
      assert Occurrences(b[2].cards, x) == 0;
      assert IdCount(b[1..][1..], x) == Occurrences(b[2].cards, x);
      assert IdCount(b[1..], x) == Occurrences(b[1].cards, x) + IdCount(b[1..][1..], x);
    }
    assert Total(b[1..][1..]) == 0;
  }

  /** The board state of the component. */
  class KanbanBoard {
    var columns: seq<Column>

    constructor ()
      ensures columns == InitialColumns()
    {
      columns := InitialColumns();
    }

    /** `moveCard(card, toColumn)`: filter the card out of each column in turn, then push it onto the target. */
    method MoveCard(card: Card, toColumn: string)
      requires DistinctNames(columns) && HasColumn(columns, toColumn)
      modifies this
      ensures columns == Moved(old(columns), card, toColumn)
    {
      var newColumns := columns;
      var i := 0;
      while i < |newColumns|
        invariant 0 <= i <= |newColumns| == |columns|
        invariant forall k :: 0 <= k < i ==> newColumns[k] == Column(columns[k].name, WithoutCard(columns[k].cards, card.id))
        invariant forall k :: i <= k < |newColumns| ==> newColumns[k] == columns[k]
      {
        newColumns := newColumns[i := Column(newColumns[i].name, WithoutCard(newColumns[i].cards, card.id))];
        i := i + 1;
      }
      var t :| 0 <= t < |columns| && columns[t].name == toColumn;
      newColumns := newColumns[t := Column(newColumns[t].name, newColumns[t].cards + [card])];
      assert forall k :: 0 <= k < |columns| ==> newColumns[k] == MoveIn(columns[k], card, toColumn);
      columns := newColumns;
    }
  }
}
