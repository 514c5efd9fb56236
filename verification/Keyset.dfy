/** Which rows come after a cursor: by the clause that is compiled for the SQL
    backends, and by the comparison that the key-value backend runs. */
module Keyset {
  import opened Facts
  import opened Pagination
  import Orders

  // The compiled clause

  datatype Column = Null | Float(number: real) | Whole(whole: int) | Characters(text: string)

  /** One sort expression, with the value it has for the cursor. */
  datatype Component = Component(descending: bool, value: Column)

  datatype Part =
    | IsNull(place: nat)
    | Same(place: nat, value: Column)
    | Beyond(place: nat, descending: bool, value: Column)

  function ValueCategory(cell: Cell): int {
    if cell.NullCell? then 3 else if cell.NumberCell? then 0 else if cell.FlagCell? then 1 else 2
  }

  /** The columns category, number, boolean and text of a projected value. */
  function ColumnsOf(cell: Cell): seq<Column> {
    [Whole(ValueCategory(cell)),
     if cell.NumberCell? then Float(cell.number) else Null,
     if cell.FlagCell? then Whole(if cell.flag then 1 else 0) else Null,
     if cell.TextCell? then Characters(cell.text) else Null]
  }

  function RowColumns(key: seq<Cell>): seq<Column> {
    if key == [] then [] else ColumnsOf(key[0]) + RowColumns(key[1..])
  }

  /** The category always ascends. */
  function ComponentsOf(direction: Direction, cell: Cell): seq<Component> {
    var columns := ColumnsOf(cell);
    [Component(false, columns[0]), Component(direction.Desc?, columns[1]), Component(direction.Desc?, columns[2]),
     Component(direction.Desc?, columns[3])]
  }

  function SortComponents(order: seq<OrderItem>, key: seq<Cell>): seq<Component>
    requires |key| == |order|
  {
    if order == [] then [] else ComponentsOf(order[0].direction, key[0]) + SortComponents(order[1..], key[1..])
  }

  predicate ColumnLess(a: Column, b: Column) {
    (a.Float? && b.Float? && a.number < b.number)
    || (a.Whole? && b.Whole? && a.whole < b.whole)
    || (a.Characters? && b.Characters? && Orders.LexLess(CharLess(), a.text, b.text))
  }

  /** With SQL's NULL: no comparison with it is true. */
  predicate PartHolds(part: Part, columns: seq<Column>) {
    part.place < |columns| &&
    match part
    case IsNull(place) => columns[place].Null?
    case Same(place, value) => !value.Null? && columns[place] == value
    case Beyond(place, descending, value) =>
      if descending then ColumnLess(columns[place], value) else ColumnLess(value, columns[place])
  }

  predicate AllHold(parts: seq<Part>, columns: seq<Column>) {
    forall j :: 0 <= j < |parts| ==> PartHolds(parts[j], columns)
  }

  predicate Accepts(conditions: seq<seq<Part>>, columns: seq<Column>) {
    exists i :: 0 <= i < |conditions| && AllHold(conditions[i], columns)
  }

  /** The row agrees with the cursor before component `i` and is beyond it there. */
  ghost predicate BeyondAt(components: seq<Component>, columns: seq<Column>, i: nat) {
    && i < |components| == |columns| && !components[i].value.Null?
    && (forall j :: 0 <= j < i ==> columns[j] == components[j].value)
    && (if components[i].descending then ColumnLess(columns[i], components[i].value)
        else ColumnLess(components[i].value, columns[i]))
  }

  ghost predicate BeyondBefore(components: seq<Component>, columns: seq<Column>, n: nat) {
    exists i :: 0 <= i < n && BeyondAt(components, columns, i)
  }

  /** The equalities of one alternative. */
  method SamePrefix(components: seq<Component>, i: nat) returns (parts: seq<Part>)
    requires i <= |components|
    ensures forall columns | |columns| == |components| ::
      AllHold(parts, columns) <==> forall j :: 0 <= j < i ==> columns[j] == components[j].value
  {
    parts := [];
    for j := 0 to i
      invariant |parts| == j
      invariant forall k :: 0 <= k < j ==> parts[k].place == k
      invariant forall k :: 0 <= k < j ==>
        parts[k] == if components[k].value.Null? then Part.IsNull(k) else Same(k, components[k].value)
    {
      var value := components[j].value;
      parts := parts + [if value.Null? then Part.IsNull(j) else Same(j, value)];
    }
    forall columns | |columns| == |components|
      ensures AllHold(parts, columns) <==> forall j :: 0 <= j < i ==> columns[j] == components[j].value
    {
      assert forall j | 0 <= j < i :: PartHolds(parts[j], columns) <==> columns[j] == components[j].value;
    }
  }

  lemma OneMoreHolds(parts: seq<Part>, last: Part, columns: seq<Column>)
    ensures AllHold(parts + [last], columns) <==> AllHold(parts, columns) && PartHolds(last, columns)
  {
    var all := parts + [last];
    assert all[|parts|] == last && forall j | 0 <= j < |parts| :: all[j] == parts[j];
  }

  lemma OneMoreAccepts(conditions: seq<seq<Part>>, last: seq<Part>, columns: seq<Column>)
    ensures Accepts(conditions + [last], columns) <==> Accepts(conditions, columns) || AllHold(last, columns)
  {
    var all := conditions + [last];
    assert all[|conditions|] == last && forall j | 0 <= j < |conditions| :: all[j] == conditions[j];
  }

  lemma NextBeyond(components: seq<Component>, columns: seq<Column>, n: nat)
    ensures BeyondBefore(components, columns, n + 1) <==>
            BeyondBefore(components, columns, n) || BeyondAt(components, columns, n)
  {
  }

  /** One alternative for each component with a value: equal before it, beyond it there. */
  method CompileKeysetClause(components: seq<Component>) returns (conditions: seq<seq<Part>>)
    ensures forall columns | |columns| == |components| ::
      Accepts(conditions, columns) <==> BeyondBefore(components, columns, |components|)
  {
    conditions := [];
    for i := 0 to |components|
      invariant forall columns | |columns| == |components| ::
        Accepts(conditions, columns) <==> BeyondBefore(components, columns, i)
    {
      var current := components[i];
      ghost var before := conditions;
      if !current.value.Null? {
        var parts := SamePrefix(components, i);
        var last := Beyond(i, current.descending, current.value);
        conditions := conditions + [parts + [last]];
        forall columns | |columns| == |components|
          ensures Accepts(conditions, columns) <==> Accepts(before, columns) || BeyondAt(components, columns, i)
        {
          OneMoreHolds(parts, last, columns);
          OneMoreAccepts(before, parts + [last], columns);
        }
      }
      forall columns | |columns| == |components|
        ensures Accepts(conditions, columns) <==> BeyondBefore(components, columns, i + 1)
      {
        NextBeyond(components, columns, i);
      }
    }
  }

  // The clause finds the rows after the cursor

  lemma {:induction false} ComponentsAre(order: seq<OrderItem>, key: seq<Cell>)
    requires |key| == |order|
    ensures |SortComponents(order, key)| == |RowColumns(key)| == 4 * |order|
  {
    if order != [] { ComponentsAre(order[1..], key[1..]); }
  }

  lemma SameColumns(a: Cell, b: Cell)
    ensures ColumnsOf(a) == ColumnsOf(b) <==> a == b
  {
    if ColumnsOf(a) == ColumnsOf(b) {
      assert forall j | 0 <= j < 4 :: ColumnsOf(a)[j] == ColumnsOf(b)[j];
      assert ValueCategory(a) == ColumnsOf(a)[0].whole == ValueCategory(b);
      assert ColumnsOf(a)[1] == ColumnsOf(b)[1] && ColumnsOf(a)[2] == ColumnsOf(b)[2];
      assert ColumnsOf(a)[3] == ColumnsOf(b)[3];
    }
  }

  lemma BeyondInFront(a: seq<Component>, b: seq<Component>, x: seq<Column>, y: seq<Column>, i: nat)
    requires |a| == |x| && |b| == |y| && i < |a|
    ensures BeyondAt(a + b, x + y, i) <==> BeyondAt(a, x, i)
  {
    assert forall j | 0 <= j <= i :: (a + b)[j] == a[j] && (x + y)[j] == x[j];
  }

  lemma BeyondBehind(a: seq<Component>, b: seq<Component>, x: seq<Column>, y: seq<Column>, i: nat)
    requires |a| == |x| && |b| == |y|
    ensures BeyondAt(a + b, x + y, |a| + i) <==> (forall j :: 0 <= j < |a| ==> x[j] == a[j].value) && BeyondAt(b, y, i)
  {
    var components, columns := a + b, x + y;
    assert forall j | 0 <= j < |a| :: components[j] == a[j] && columns[j] == x[j];
    assert forall j | 0 <= j < |b| :: components[|a| + j] == b[j] && columns[|a| + j] == y[j];
    if BeyondAt(components, columns, |a| + i) {
      forall j | 0 <= j < |a| ensures x[j] == a[j].value {
        assert columns[j] == components[j].value;
      }
      forall j | 0 <= j < i ensures y[j] == b[j].value {
        assert columns[|a| + j] == components[|a| + j].value;
      }
    }
    if (forall j :: 0 <= j < |a| ==> x[j] == a[j].value) && BeyondAt(b, y, i) {
      forall j | 0 <= j < |a| + i ensures columns[j] == components[j].value {
        if j >= |a| { assert y[j - |a|] == b[j - |a|].value; }
      }
    }
  }

  /** Four components decide as their cells do. */
  lemma FourDecide(direction: Direction, cursor: Cell, row: Cell)
    ensures BeyondBefore(ComponentsOf(direction, cursor), ColumnsOf(row), 4) <==> CellBefore(direction, cursor, row)
  {
    var components, columns := ComponentsOf(direction, cursor), ColumnsOf(row);
    assert BeyondBefore(components, columns, 4) <==>
           BeyondAt(components, columns, 0) || BeyondAt(components, columns, 1)
           || BeyondAt(components, columns, 2) || BeyondAt(components, columns, 3);
  }

  lemma FirstDecides(order: seq<OrderItem>, cursor: seq<Cell>, row: seq<Cell>)
    requires |cursor| == |row| == |order| && order != []
    ensures BeyondBefore(SortComponents(order, cursor), RowColumns(row), 4) <==>
            CellBefore(order[0].direction, cursor[0], row[0])
  {
    var a, b := ComponentsOf(order[0].direction, cursor[0]), SortComponents(order[1..], cursor[1..]);
    var x, y := ColumnsOf(row[0]), RowColumns(row[1..]);
    ComponentsAre(order[1..], cursor[1..]);
    ComponentsAre(order[1..], row[1..]);
    forall i: nat | i < 4 ensures BeyondAt(a + b, x + y, i) <==> BeyondAt(a, x, i) {
      BeyondInFront(a, b, x, y, i);
    }
    FourDecide(order[0].direction, cursor[0], row[0]);
  }

  lemma FourAgree(direction: Direction, cursor: Cell, row: Cell)
    ensures (forall j :: 0 <= j < 4 ==> ColumnsOf(row)[j] == ComponentsOf(direction, cursor)[j].value) <==>
            cursor == row
  {
    SameColumns(cursor, row);
    assert forall j | 0 <= j < 4 :: ComponentsOf(direction, cursor)[j].value == ColumnsOf(cursor)[j];
    if forall j :: 0 <= j < 4 ==> ColumnsOf(row)[j] == ComponentsOf(direction, cursor)[j].value {
      assert ColumnsOf(row) == ColumnsOf(cursor);
    }
  }

  /** After equal first cells the rest decides. */
  lemma RestDecides(order: seq<OrderItem>, cursor: seq<Cell>, row: seq<Cell>, i: nat)
    requires |cursor| == |row| == |order| && order != []
    ensures BeyondAt(SortComponents(order, cursor), RowColumns(row), 4 + i) <==>
            cursor[0] == row[0] && BeyondAt(SortComponents(order[1..], cursor[1..]), RowColumns(row[1..]), i)
  {
    ComponentsAre(order[1..], cursor[1..]);
    ComponentsAre(order[1..], row[1..]);
    FourAgree(order[0].direction, cursor[0], row[0]);
    BeyondBehind(ComponentsOf(order[0].direction, cursor[0]), SortComponents(order[1..], cursor[1..]),
                 ColumnsOf(row[0]), RowColumns(row[1..]), i);
  }

  /** The clause accepts a row exactly when the order puts it after the cursor. */
  lemma {:induction false} KeysetMeans(order: seq<OrderItem>, cursor: seq<Cell>, row: seq<Cell>)
    requires |cursor| == |row| == |order|
    ensures BeyondBefore(SortComponents(order, cursor), RowColumns(row), 4 * |order|) <==> KeyBefore(order, cursor, row)
  {
    if order != [] {
      var components, columns := SortComponents(order, cursor), RowColumns(row);
      var later, laterColumns := SortComponents(order[1..], cursor[1..]), RowColumns(row[1..]);
      var n := 4 * |order|;
      FirstDecides(order, cursor, row);
      KeysetMeans(order[1..], cursor[1..], row[1..]);
      if BeyondBefore(components, columns, n) {
        var i: nat :| i < n && BeyondAt(components, columns, i);
        if i >= 4 { RestDecides(order, cursor, row, i - 4); }
      }
      if cursor[0] == row[0] && BeyondBefore(later, laterColumns, n - 4) {
        var i: nat :| i < n - 4 && BeyondAt(later, laterColumns, i);
        RestDecides(order, cursor, row, i);
        assert BeyondAt(components, columns, 4 + i);
      }
    }
  }

  /** The condition the SQL backends put on a page behind a cursor. */
  method KeysetCondition(order: seq<OrderItem>, cursor: seq<Cell>) returns (conditions: seq<seq<Part>>)
    requires |cursor| == |order|
    ensures forall row: seq<Cell> | |row| == |order| ::
      Accepts(conditions, RowColumns(row)) <==> KeyBefore(order, cursor, row)
  {
    conditions := CompileKeysetClause(SortComponents(order, cursor));
    forall row: seq<Cell> | |row| == |order|
      ensures Accepts(conditions, RowColumns(row)) <==> KeyBefore(order, cursor, row)
    {
      ComponentsAre(order, cursor);
      ComponentsAre(order, row);
      KeysetMeans(order, cursor, row);
    }
  }

  // The key-value backend

  function ComparePaginationValues(left: Cell, right: Cell, direction: Direction): real {
    if left == right then 0.0
    else if ValueCategory(left) != ValueCategory(right) then (ValueCategory(left) - ValueCategory(right)) as real
    else
      var comparison :=
        if left.NumberCell? && right.NumberCell? then left.number - right.number
        else if left.FlagCell? && right.FlagCell? then
          (if left.flag then 1.0 else 0.0) - (if right.flag then 1.0 else 0.0)
        else if left.TextCell? && right.TextCell? && Orders.LexLess(CharLess(), left.text, right.text) then -1.0
        else 1.0;
      if direction.Desc? then -comparison else comparison
  }

  lemma ComparisonDecides(left: Cell, right: Cell, direction: Direction)
    ensures ComparePaginationValues(left, right, direction) == 0.0 <==> left == right
    ensures ComparePaginationValues(left, right, direction) > 0.0 <==> CellBefore(direction, right, left)
  {
    CellIrreflexive(direction, left);
    if left != right {
      CellConnected(direction, left, right);
      if CellBefore(direction, left, right) && CellBefore(direction, right, left) {
        CellTransitive(direction, left, right, left);
      }
    }
  }

  lemma {:induction false} KeyDecides(order: seq<OrderItem>, a: seq<Cell>, b: seq<Cell>, i: nat)
    requires |a| == |b| == |order| && i <= |order| && forall j :: 0 <= j < i ==> a[j] == b[j]
    ensures KeyBefore(order, a, b) <==> KeyBefore(order[i..], a[i..], b[i..])
    decreases i
  {
    if i == 0 {
      assert order[i..] == order && a[i..] == a && b[i..] == b;
    } else {
      KeyDecides(order, a, b, i - 1);
      CellIrreflexive(order[i - 1].direction, a[i - 1]);
      assert order[i - 1..][1..] == order[i..] && a[i - 1..][1..] == a[i..] && b[i - 1..][1..] == b[i..];
    }
  }

  /** Whether the row comes after the cursor. */
  method IsAfterCursor(order: seq<OrderItem>, cursor: seq<Cell>, row: seq<Cell>) returns (after: bool)
    requires |cursor| == |row| == |order|
    ensures after <==> KeyBefore(order, cursor, row)
  {
    for i := 0 to |order|
      invariant forall j :: 0 <= j < i ==> cursor[j] == row[j]
    {
      KeyDecides(order, cursor, row, i);
      ComparisonDecides(row[i], cursor[i], order[i].direction);
      var comparison := ComparePaginationValues(row[i], cursor[i], order[i].direction);
      if comparison != 0.0 {
        return comparison > 0.0;
      }
    }
    KeyDecides(order, cursor, row, |order|);
    after := false;
  }
}
