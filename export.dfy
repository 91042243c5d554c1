/**
 * Row construction of `exportToExcel` (src/App.tsx): one output row per
 * guest, keyed by the names of the visible columns in display order.
 */
module Export {
  import opened Wrappers
  import opened Types
  import opened Visibility

  /** An output row: column name to cell value. */
  type Row = map<string, Value>

  /** The exported cell of `guest` under `col`. */
  function ExportCell(guest: Guest, col: Column): Value
  {
    var v := Get(guest, col.id);
    if col.kind == CheckboxKind then Str(if Truthy(v) then "Yes" else "No")
    else if Truthy(v) then v.value
    else Str("")
  }

  /** The row of `guest` over `cols`, left to right; a later column with the
      same name overwrites an earlier one. */
  function ExportRow(guest: Guest, cols: seq<Column>): Row
  {
    if |cols| == 0 then map[]
    else ExportRow(guest, cols[..|cols| - 1])[cols[|cols| - 1].name := ExportCell(guest, cols[|cols| - 1])]
  }

  /** The rows handed to the sheet writer, or nothing without a current list. */
  function ExportRows(current: Option<GuestList>): Option<seq<Row>>
  {
    match current
    case None => None
    case Some(list) =>
      var cols := VisibleColumns(list.columns);
      Some(seq(|list.guests|, i requires 0 <= i < |list.guests| => ExportRow(list.guests[i], cols)))
  }

  /** A checkbox cell is exactly "Yes" or "No", "Yes" when the stored value
      is truthy; any other cell is the stored value, or the empty string when
      that value is missing or falsy. */
  lemma ExportCellCases(guest: Guest, col: Column)
    ensures col.kind == CheckboxKind ==>
      (ExportCell(guest, col) == Str("Yes") || ExportCell(guest, col) == Str("No")) &&
      (ExportCell(guest, col) == Str("Yes") <==> Truthy(Get(guest, col.id)))
    ensures col.kind != CheckboxKind && Truthy(Get(guest, col.id)) ==> ExportCell(guest, col) == guest[col.id]
    ensures col.kind != CheckboxKind && !Truthy(Get(guest, col.id)) ==> ExportCell(guest, col) == Str("")
  {
  }

  /** A stored zero is exported as an empty cell, as is `false`. */
  lemma ExportBlanksFalsyValues(guest: Guest, col: Column)
    requires col.kind != CheckboxKind
    requires col.id in guest && (guest[col.id] == Int(0) || guest[col.id] == Bool(false))
    ensures ExportCell(guest, col) == Str("")
  {
  }

  /** The row has a key for exactly the column names. */
  lemma {:induction false} ExportRowKeys(guest: Guest, cols: seq<Column>)
    ensures forall k :: k in ExportRow(guest, cols) <==> exists j :: 0 <= j < |cols| && cols[j].name == k
  {
    if |cols| > 0 {
      var init := cols[..|cols| - 1];
      ExportRowKeys(guest, init);
      forall k | k in ExportRow(guest, cols)
        ensures exists j :: 0 <= j < |cols| && cols[j].name == k
      {
        if k != cols[|cols| - 1].name {
          assert k in ExportRow(guest, init);
          var j :| 0 <= j < |init| && init[j].name == k;
          assert cols[j] == init[j];
        }
      }
      forall j | 0 <= j < |cols|
        ensures cols[j].name in ExportRow(guest, cols)
      {
        if j < |cols| - 1 {
          assert cols[j] == init[j];
        }
      }
    }
  }

  /** Under each name the row holds the cell of the last column carrying it. */
  lemma {:induction false} ExportRowLastWins(guest: Guest, cols: seq<Column>, j: int)
    requires 0 <= j < |cols|
    requires forall j' :: j < j' < |cols| ==> cols[j'].name != cols[j].name
    ensures cols[j].name in ExportRow(guest, cols)
    ensures ExportRow(guest, cols)[cols[j].name] == ExportCell(guest, cols[j])
  {
    if j < |cols| - 1 {
      var init := cols[..|cols| - 1];
      assert cols[j] == init[j];
      assert forall j' :: j < j' < |init| ==> init[j'] == cols[j'];
      ExportRowLastWins(guest, init, j);
    }
  }

  /** One row per guest, in guest order, each over the visible columns. */
  lemma ExportRowsMeaning(list: GuestList)
    ensures ExportRows(Some(list)).Some?
    ensures |ExportRows(Some(list)).value| == |list.guests|
    ensures forall i :: 0 <= i < |list.guests| ==>
      forall k :: k in ExportRows(Some(list)).value[i] <==> exists c :: c in list.columns && IsShown(c) && c.name == k
  {
    var cols := VisibleColumns(list.columns);
    VisibleColumnsMeaning(list.columns);
    forall i | 0 <= i < |list.guests|
      ensures forall k :: k in ExportRows(Some(list)).value[i] <==> exists c :: c in list.columns && IsShown(c) && c.name == k
    {
      ExportRowKeys(list.guests[i], cols);
      forall j | 0 <= j < |cols|
        ensures cols[j] in list.columns && IsShown(cols[j])
      {
        assert cols[j] in cols;
      }
      forall c | c in list.columns && IsShown(c)
        ensures exists j :: 0 <= j < |cols| && cols[j] == c
      {
        assert c in cols;
      }
    }
  }

  /** Row `i` belongs to guest `i`: under the name of a visible column that
      no later visible column shares, it holds that guest's cell of that column. */
  lemma ExportRowsCells(list: GuestList, i: int, j: int)
    requires 0 <= i < |list.guests|
    requires 0 <= j < |VisibleColumns(list.columns)|
    requires forall j' :: j < j' < |VisibleColumns(list.columns)| ==>
      VisibleColumns(list.columns)[j'].name != VisibleColumns(list.columns)[j].name
    ensures VisibleColumns(list.columns)[j].name in ExportRows(Some(list)).value[i]
    ensures ExportRows(Some(list)).value[i][VisibleColumns(list.columns)[j].name] ==
      ExportCell(list.guests[i], VisibleColumns(list.columns)[j])
  {
    ExportRowLastWins(list.guests[i], VisibleColumns(list.columns), j);
  }
}
