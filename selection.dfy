/** The column selection of the grouping list: an ordered sequence of dataset
    columns used as grouping keys, compared by name, and the toggle that a
    click on a column header performs on it. */
module Selection {

  /** A dataset column as the hosting framework supplies it. Only `name`
      takes part in grouping; the other fields are passed through to the
      renderer. */
  datatype Column = Column(name: string, displayName: string, visualSizeFactor: int)

  /** No two selected columns share a name. */
  predicate DistinctNames(selection: seq<Column>) {
    forall i, j :: 0 <= i < j < |selection| ==> selection[i].name != selection[j].name
  }

  /** The membership test `some(column => column.name == name)`: scans the
      selection from the front and stops at the first column with that name. */
  function IsGrouped(selection: seq<Column>, name: string): (b: bool)
    ensures b <==> exists i :: 0 <= i < |selection| && selection[i].name == name
  {
    if selection == [] then false
    else if selection[0].name == name then true
    else
      var b := IsGrouped(selection[1..], name);
      assert forall i :: 0 < i < |selection| ==> selection[i] == selection[1..][i - 1];
      b
  }

  /** The removal `filter(column => column.name != name)`: every column with
      that name goes, the others stay in their order. */
  function WithoutName(selection: seq<Column>, name: string): (r: seq<Column>)
    ensures |r| <= |selection|
    ensures forall c :: c in r <==> c in selection && c.name != name
  {
    if selection == [] then []
    else (if selection[0].name != name then [selection[0]] else []) + WithoutName(selection[1..], name)
  }

  /** What a click on a column header does to the selection: remove the
      column (by name) when it is selected, otherwise append it. The membership
      of the clicked name flips and no other name changes membership. */
  function Toggle(selection: seq<Column>, column: Column): (r: seq<Column>)
    ensures IsGrouped(r, column.name) <==> !IsGrouped(selection, column.name)
    ensures forall n :: n != column.name ==> (IsGrouped(r, n) <==> IsGrouped(selection, n))
    ensures !IsGrouped(selection, column.name) ==> |r| == |selection| + 1 && r[|selection|] == column
    ensures !IsGrouped(selection, column.name) ==> r[..|selection|] == selection
    ensures IsGrouped(selection, column.name) ==> r == WithoutName(selection, column.name)
  {
    if IsGrouped(selection, column.name) then
      var r := WithoutName(selection, column.name);
      assert forall n :: n != column.name ==> (IsGrouped(r, n) <==> IsGrouped(selection, n)) by {
        forall n | n != column.name
          ensures IsGrouped(r, n) <==> IsGrouped(selection, n)
        {
          if IsGrouped(selection, n) {
            var i :| 0 <= i < |selection| && selection[i].name == n;
            assert selection[i] in r;
          }
        }
      }
      r
    else
      var r := selection + [column];
      assert r[|selection|].name == column.name;
      assert forall i :: 0 <= i < |selection| ==> r[i] == selection[i];
      r
  }

  lemma {:induction false} WithoutNameAppend(a: seq<Column>, b: seq<Column>, name: string)
    ensures WithoutName(a + b, name) == WithoutName(a, name) + WithoutName(b, name)
  {
    if a == [] {
      assert a + b == b;
    } else {
      assert (a + b)[0] == a[0];
      assert (a + b)[1..] == a[1..] + b;
      WithoutNameAppend(a[1..], b, name);
    }
  }

  /** Filtering out a name nobody has changes nothing. */
  lemma {:induction false} WithoutAbsentName(selection: seq<Column>, name: string)
    requires !IsGrouped(selection, name)
    ensures WithoutName(selection, name) == selection
  {
    if selection != [] {
      assert selection[0].name != name;
      WithoutAbsentName(selection[1..], name);
    }
  }

  /** The columns that survive a removal keep their relative order: two kept
      columns at positions i < j reappear at positions p < q. */
  lemma {:induction false} WithoutNameKeepsOrder(selection: seq<Column>, name: string, i: nat, j: nat)
    requires i < j < |selection|
    requires selection[i].name != name && selection[j].name != name
    ensures exists p, q :: 0 <= p < q < |WithoutName(selection, name)|
              && WithoutName(selection, name)[p] == selection[i]
              && WithoutName(selection, name)[q] == selection[j]
  {
    var front, back := selection[..j], selection[j..];
    assert selection == front + back;
    WithoutNameAppend(front, back, name);
    var wf, wb := WithoutName(front, name), WithoutName(back, name);
    assert wb == [selection[j]] + WithoutName(back[1..], name) by {
      assert back[0] == selection[j];
    }
    assert selection[i] in wf by {
      assert front[i] == selection[i];
    }
    var p :| 0 <= p < |wf| && wf[p] == selection[i];
    var r := WithoutName(selection, name);
    assert r == wf + wb;
    assert p < |wf| < |r| && r[p] == selection[i] && r[|wf|] == selection[j];
  }

  /** Toggling keeps the selection free of duplicate names. */
  lemma {:induction false} ToggleKeepsNamesDistinct(selection: seq<Column>, column: Column)
    requires DistinctNames(selection)
    ensures DistinctNames(Toggle(selection, column))
  {
    if IsGrouped(selection, column.name) {
      WithoutNameKeepsNamesDistinct(selection, column.name);
    } else {
      var r := selection + [column];
      forall i, j | 0 <= i < j < |r| ensures r[i].name != r[j].name {
        if j == |selection| {
          assert r[i] == selection[i];
        } else {
          assert r[i] == selection[i] && r[j] == selection[j];
        }
      }
    }
  }

  lemma DistinctNamesTail(selection: seq<Column>)
    requires DistinctNames(selection) && selection != []
    ensures DistinctNames(selection[1..])
    ensures forall c :: c in selection[1..] ==> c.name != selection[0].name
  {
    var rest := selection[1..];
    forall i, j | 0 <= i < j < |rest| ensures rest[i].name != rest[j].name {
      assert rest[i] == selection[i + 1] && rest[j] == selection[j + 1];
    }
    forall c | c in rest ensures c.name != selection[0].name {
      var k :| 0 <= k < |rest| && rest[k] == c;
      assert rest[k] == selection[k + 1];
    }
  }

  lemma DistinctNamesCons(c: Column, rest: seq<Column>)
    requires DistinctNames(rest)
    requires forall d :: d in rest ==> d.name != c.name
    ensures DistinctNames([c] + rest)
  {
    var r := [c] + rest;
    forall i, j | 0 <= i < j < |r| ensures r[i].name != r[j].name {
      assert r[j] == rest[j - 1];
      if i > 0 {
        assert r[i] == rest[i - 1];
      }
    }
  }

  lemma {:induction false} WithoutNameKeepsNamesDistinct(selection: seq<Column>, name: string)
    requires DistinctNames(selection)
    ensures DistinctNames(WithoutName(selection, name))
  {
    if selection != [] {
      var rest := selection[1..];
      DistinctNamesTail(selection);
      WithoutNameKeepsNamesDistinct(rest, name);
      if selection[0].name != name {
        DistinctNamesCons(selection[0], WithoutName(rest, name));
      }
    }
  }

  /** Toggling a column that is not selected and then toggling it again gives
      back the original selection. */
  lemma {:induction false} ToggleTwiceRestores(selection: seq<Column>, column: Column)
    requires !IsGrouped(selection, column.name)
    ensures Toggle(Toggle(selection, column), column) == selection
  {
    var once := Toggle(selection, column);
    assert once == selection + [column];
    WithoutNameAppend(selection, [column], column.name);
    WithoutAbsentName(selection, column.name);
    assert WithoutName([column], column.name) == [];
  }

  /** A selected column that is the only entry with its name and the last
      entry is also restored by two toggles: the removal leaves the columns
      before it, and the append puts it back at the end. */
  lemma {:induction false} ToggleTwiceRestoresLast(before: seq<Column>, column: Column)
    requires !IsGrouped(before, column.name)
    ensures IsGrouped(before + [column], column.name)
    ensures Toggle(Toggle(before + [column], column), column) == before + [column]
  {
    var selection := before + [column];
    assert selection[|before|] == column;
    WithoutNameAppend(before, [column], column.name);
    WithoutAbsentName(before, column.name);
    assert WithoutName([column], column.name) == [];
    assert Toggle(selection, column) == before;
  }

  /** Toggling a selected column twice removes every entry with its name and
      re-appends the column at the end. */
  lemma ToggleTwiceMovesToEnd(selection: seq<Column>, column: Column)
    requires IsGrouped(selection, column.name)
    ensures Toggle(Toggle(selection, column), column) == WithoutName(selection, column.name) + [column]
  {
  }

  /** The component holding the selection as its state. */
  class GroupList {
    var groupingColumns: seq<Column>

    /** The selection starts empty: an ungrouped list. */
    constructor ()
      ensures groupingColumns == []
    {
      groupingColumns := [];
    }

    /** The column-header click handler. */
    method OnColumnClick(field: Column)
      modifies this
      ensures groupingColumns == Toggle(old(groupingColumns), field)
      ensures DistinctNames(old(groupingColumns)) ==> DistinctNames(groupingColumns)
    {
      var columns := groupingColumns;
      if IsGrouped(columns, field.name) {
        columns := WithoutName(columns, field.name);
      } else {
        columns := columns + [field];
      }
      ghost var wasDistinct := DistinctNames(groupingColumns);
      if wasDistinct {
        ToggleKeepsNamesDistinct(groupingColumns, field);
      }
      groupingColumns := columns;
    }
  }
}
