/** A report-view list control as a sequence of rows. InsertItem puts a row at the index or, past the
    end, last; the other calls on a row that does not exist do nothing. The dialogs' list controls carry
    no sort style in the resource script. */
module ListCtrl {
  import opened Text

  datatype Item = Item(cells: seq<Cell>, selected: bool, checked: bool)

  /** A row with its texts, neither selected nor checked. */
  function Row(cells: seq<Cell>): Item { Item(cells, false, false) }

  function Blank(columns: nat): Item { Row(seq(columns, _ => Txt(""))) }

  function InsertItem(list: seq<Item>, i: nat, columns: nat): seq<Item> {
    if i <= |list| then list[..i] + [Blank(columns)] + list[i..] else list + [Blank(columns)]
  }

  function SetItemText(list: seq<Item>, i: int, column: nat, text: Cell): seq<Item> {
    if 0 <= i < |list| && column < |list[i].cells|
    then list[i := list[i].(cells := list[i].cells[column := text])]
    else list
  }

  function TextOf(item: Item, column: nat): string { if column < |item.cells| then Show(item.cells[column]) else "" }

  function GetItemText(list: seq<Item>, i: int, column: nat): string {
    if 0 <= i < |list| then TextOf(list[i], column) else ""
  }

  function DeleteItem(list: seq<Item>, i: nat): seq<Item> {
    if i < |list| then list[..i] + list[i + 1..] else list
  }

  /** Is the row selected, or its box checked? */
  predicate Marked(item: Item) { item.selected || item.checked }

  /** The list with a filled row put in at i; past the end the row comes in empty, since its texts go to
      the row numbered i, which does not exist. */
  function Placed(list: seq<Item>, i: nat, cells: seq<Cell>): (r: seq<Item>)
    ensures |r| == |list| + 1
  {
    if i == |list| then list + [Row(cells)]
    else if i < |list| then list[..i] + [Row(cells)] + list[i..]
    else list + [Blank(|cells|)]
  }

  /** The dialogs' recurring block: insert an empty row at i, then set its texts column by column. */
  method PutRow(list: seq<Item>, i: nat, cells: seq<Cell>) returns (r: seq<Item>)
    ensures r == Placed(list, i, cells)
    ensures i <= |list| ==> r == list[..i] + [Item(cells, false, false)] + list[i..]
    ensures i > |list| ==> r == list + [Item(seq(|cells|, _ => Txt("")), false, false)]
  {
    r := InsertItem(list, i, |cells|);
    for column := 0 to |cells|
      invariant |r| == |list| + 1
      invariant i > |list| ==> r == list + [Blank(|cells|)]
      invariant i <= |list| ==> r[..i] == list[..i] && r[i + 1..] == list[i..]
                                && !Marked(r[i]) && |r[i].cells| == |cells|
                                && r[i].cells[..column] == cells[..column]
    {
      r := SetItemText(r, i, column, cells[column]);
    }
    if i <= |list| {
      assert r == r[..i] + [r[i]] + r[i + 1..];
      assert r[i].cells == cells;
    }
  }

  // ----- Deleting the marked rows, from the last to the first -----

  function Unmarked(list: seq<Item>): seq<Item> {
    if list == [] then []
    else if Marked(list[0]) then Unmarked(list[1..])
    else [list[0]] + Unmarked(list[1..])
  }

  function MarkedRows(list: seq<Item>): seq<Item> {
    if list == [] then []
    else if Marked(list[0]) then [list[0]] + MarkedRows(list[1..])
    else MarkedRows(list[1..])
  }

  lemma {:induction false} SplitConserves(list: seq<Item>)
    ensures multiset(list) == multiset(Unmarked(list)) + multiset(MarkedRows(list))
    ensures forall item :: item in Unmarked(list) ==> !item.selected && !item.checked
    ensures forall item :: item in MarkedRows(list) ==> item.selected || item.checked
  {
    if list == [] {
    } else {
      SplitConserves(list[1..]);
      assert list == [list[0]] + list[1..];
    }
  }

  predicate Increasing(s: seq<nat>) { forall j, k :: 0 <= j < k < |s| ==> s[j] < s[k] }

  /** The rows are those with the given numbers, in that order. */
  predicate RowsAt(rows: seq<Item>, list: seq<Item>, numbers: seq<nat>) {
    |rows| == |numbers| && forall k :: 0 <= k < |numbers| ==> numbers[k] < |list| && rows[k] == list[numbers[k]]
  }

  /** The numbers from i on of the marked rows, or of the others. */
  function Numbers(list: seq<Item>, i: nat, marked: bool): seq<nat>
    requires i <= |list|
    decreases |list| - i
  {
    if i == |list| then []
    else if Marked(list[i]) == marked then [i] + Numbers(list, i + 1, marked)
    else Numbers(list, i + 1, marked)
  }

  lemma {:induction false} NumbersAre(list: seq<Item>, i: nat, marked: bool)
    requires i <= |list|
    ensures Increasing(Numbers(list, i, marked))
    ensures forall j :: j in Numbers(list, i, marked) <==> i <= j < |list| && (list[j].selected || list[j].checked) == marked
    decreases |list| - i
  {
    if i == |list| {
    } else {
      NumbersAre(list, i + 1, marked);
      var rest := Numbers(list, i + 1, marked);
      forall k | 0 <= k < |rest| ensures i < rest[k] { assert rest[k] in rest; }
    }
  }

  lemma {:induction false} RowsOfNumbers(list: seq<Item>, i: nat)
    requires i <= |list|
    ensures RowsAt(Unmarked(list[i..]), list, Numbers(list, i, false))
    ensures RowsAt(MarkedRows(list[i..]), list, Numbers(list, i, true))
    decreases |list| - i
  {
    if i == |list| {
    } else {
      RowsOfNumbers(list, i + 1);
      UnmarkedStep(list, i + 1);
      if Marked(list[i]) {
        OneMoreRow(MarkedRows(list[i + 1..]), list, Numbers(list, i + 1, true), i);
      } else {
        OneMoreRow(Unmarked(list[i + 1..]), list, Numbers(list, i + 1, false), i);
      }
    }
  }

  lemma OneMoreRow(rows: seq<Item>, list: seq<Item>, numbers: seq<nat>, i: nat)
    requires RowsAt(rows, list, numbers) && i < |list|
    ensures RowsAt([list[i]] + rows, list, [i] + numbers)
  {
  }

  /** Both parts keep the order of the list: the rows kept are exactly those neither selected nor checked, and the
      rows removed exactly the others, each by increasing row number. */
  lemma SplitInOrder(list: seq<Item>)
    ensures var kept, removed := Numbers(list, 0, false), Numbers(list, 0, true);
            && Increasing(kept) && Increasing(removed)
            && RowsAt(Unmarked(list), list, kept) && RowsAt(MarkedRows(list), list, removed)
            && (forall i :: i in kept <==> 0 <= i < |list| && !list[i].selected && !list[i].checked)
            && (forall i :: i in removed <==> 0 <= i < |list| && (list[i].selected || list[i].checked))
  {
    RowsOfNumbers(list, 0);
    assert list[0..] == list;
    NumbersAre(list, 0, false);
    NumbersAre(list, 0, true);
  }

  /** A row put in at an existing index adds just itself. */
  lemma PlacedConserves(list: seq<Item>, i: nat, cells: seq<Cell>)
    requires i <= |list|
    ensures multiset(Placed(list, i, cells)) == multiset(list) + multiset{Row(cells)}
  {
    assert list == list[..i] + list[i..];
  }

  /** The list when the rows from i on have been worked on, and the marked ones among those. */
  function Remaining(list: seq<Item>, i: nat): (r: seq<Item>)
    requires i <= |list|
    ensures |r| >= i
  {
    list[..i] + Unmarked(list[i..])
  }

  function Removed(list: seq<Item>, i: nat): seq<Item>
    requires i <= |list|
  {
    MarkedRows(list[i..])
  }

  lemma UnmarkedStep(list: seq<Item>, i: nat)
    requires 0 < i <= |list|
    ensures Unmarked(list[i - 1..]) == if Marked(list[i - 1]) then Unmarked(list[i..]) else [list[i - 1]] + Unmarked(list[i..])
    ensures MarkedRows(list[i - 1..]) == if Marked(list[i - 1]) then [list[i - 1]] + MarkedRows(list[i..]) else MarkedRows(list[i..])
  {
    assert list[i - 1..][1..] == list[i..];
  }

  /** Working backward, the rows above i are untouched, and deleting one renumbers none of them. */
  lemma RemoveStep(list: seq<Item>, i: nat)
    requires 0 < i <= |list|
    ensures Remaining(list, i)[i - 1] == list[i - 1]
    ensures Remaining(list, i - 1)
            == if Marked(list[i - 1]) then DeleteItem(Remaining(list, i), i - 1) else Remaining(list, i)
    ensures Removed(list, i - 1) == if Marked(list[i - 1]) then [list[i - 1]] + Removed(list, i) else Removed(list, i)
  {
    UnmarkedStep(list, i);
    var above, row, below := list[..i - 1], list[i - 1], Unmarked(list[i..]);
    assert list[..i] == above + [row];
    DeleteBetween(above, row, below);
  }

  lemma DeleteBetween(above: seq<Item>, row: Item, below: seq<Item>)
    ensures var list := above + [row] + below;
            list[|above|] == row && DeleteItem(list, |above|) == above + below && list == above + ([row] + below)
  {
    var list := above + [row] + below;
    assert list[..|above|] == above && list[|above| + 1..] == below;
  }

  lemma RemoveEnds(list: seq<Item>)
    ensures Remaining(list, |list|) == list && Removed(list, |list|) == []
    ensures Remaining(list, 0) == Unmarked(list) && Removed(list, 0) == MarkedRows(list)
  {
    assert list[..|list|] == list && list[0..] == list;
  }
}
