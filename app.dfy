/**
 * The application state of src/App.tsx: the saved lists and the list
 * being edited, and the handlers that change them.
 */
module App {
  import opened Wrappers
  import opened Types
  import opened Seqs
  import opened Sheet
  import opened HeaderLocator
  import opened Sampling
  import opened Schema
  import opened Rows
  import opened Import
  import opened ColumnCopy

  /** The body of `processImportedData`'s `try`: locates the header row,
      samples and classifies the columns, builds the schema and reads the
      guests, refusing the sheet where the source does. */
  method ImportSheet(list: GuestList, sheet: Sheet, stamp: string, guestId: int -> string, dateParses: string -> bool)
    returns (result: Result<GuestList, ImportError>)
    ensures result == ImportOutcome(list, sheet, stamp, guestId, dateParses)
  {
    var headers, rowIndex := FindHeaderRow(sheet);
    ghost var located := HeaderRow(headers, rowIndex);
    if |headers| == 0 {
      return Failure(NoHeaderRow);
    }
    if HasInheritedHeader(headers) {
      // sampling or classifying that header throws; the catch refuses the import
      return Failure(ProcessingFailed);
    }
    var samples, types := SampleColumns(sheet, headers, rowIndex, dateParses);
    var columns, columnMap := BuildSchema(sheet, headers, rowIndex, stamp, dateParses, samples, types);
    var guests := MaterializeRows(columns, columnMap, headers, sheet, guestId, rowIndex);
    if |guests| == 0 {
      return Failure(NoGuestData);
    }
    result := Success(list.(columns := columns, guests := guests,
                            statusTags := Dedup(list.statusTags + Statuses(guests))));
    assert ImportAt(list, sheet, located, stamp, guestId, dateParses) == result;
  }

  /** The list `createList` makes: six default columns, no guests or tasks. */
  function NewList(id: string, name: string): GuestList
  {
    GuestList(
      id, name,
      [ Column("name", "Name", TextKind, None, Some(0), None),
        Column("email", "Email", TextKind, None, Some(1), None),
        Column("phone", "Phone", TextKind, None, Some(2), None),
        Column("status", "Status", StatusKind, None, Some(3), None),
        Column("arrival", "Arrived", CheckboxKind, None, Some(4), None),
        Column("luggage", "Luggage", CheckboxKind, None, Some(5), None) ],
      [], [], Some(["General"]), ["Pending", "Confirmed", "Cancelled"])
  }

  /** The default schema: distinct ids, every column shown, each column's
      order its position, and exactly one status column, `status`. */
  lemma NewListSchema(id: string, name: string)
    ensures var cols := NewList(id, name).columns;
      && IdsDistinct(cols)
      && (forall i :: 0 <= i < |cols| ==> IsShown(cols[i]) && cols[i].order == Some(i))
      && (forall i :: 0 <= i < |cols| ==> (cols[i].kind == StatusKind <==> cols[i].id == "status"))
      && HasStatusColumn(cols)
  {
    var cols := NewList(id, name).columns;
    assert cols[3].kind == StatusKind;
    assert "name"[0] == 'n' && "email"[0] == 'e' && "phone"[0] == 'p' && "status"[0] == 's'
      && "arrival"[0] == 'a' && "luggage"[0] == 'l';
    assert "status"[1] == 't' && "name"[1] == 'a';
  }

  /** The lists with every list carrying the updated list's id replaced by it. */
  function ReplaceById(lists: seq<GuestList>, updated: GuestList): seq<GuestList>
  {
    seq(|lists|, i requires 0 <= i < |lists| => if lists[i].id == updated.id then updated else lists[i])
  }

  /** The lists without those carrying `id`. */
  function WithoutId(lists: seq<GuestList>, id: string): seq<GuestList>
  {
    Filter(lists, (l: GuestList) => l.id != id)
  }

  /** Replacing keeps the number and order of lists, swaps in the update for
      every list with its id and leaves the others alone. */
  lemma ReplaceByIdFrame(lists: seq<GuestList>, updated: GuestList)
    ensures |ReplaceById(lists, updated)| == |lists|
    ensures forall i :: 0 <= i < |lists| && lists[i].id == updated.id ==> ReplaceById(lists, updated)[i] == updated
    ensures forall i :: 0 <= i < |lists| && lists[i].id != updated.id ==> ReplaceById(lists, updated)[i] == lists[i]
  {
  }

  /** Deleting drops exactly the lists with that id, keeps the rest in
      order, and changes the lists exactly when one has that id. */
  lemma WithoutIdMeaning(lists: seq<GuestList>, id: string)
    ensures forall l :: l in WithoutId(lists, id) <==> l in lists && l.id != id
    ensures Subsequence(WithoutId(lists, id), lists)
    ensures WithoutId(lists, id) == lists <==> forall i :: 0 <= i < |lists| ==> lists[i].id != id
  {
    var p := (l: GuestList) => l.id != id;
    FilterMeaning(lists, p);
    if exists i :: 0 <= i < |lists| && lists[i].id == id {
      var i :| 0 <= i < |lists| && lists[i].id == id;
      FilterDrops(lists, p, i);
    }
  }

  class Store {
    /** `lists`. */
    var lists: seq<GuestList>
    /** `currentList`, null when no list is open. */
    var current: Option<GuestList>

    constructor()
      ensures lists == [] && current == None
    {
      lists := [];
      current := None;
    }

    /** `createList`: appends the new list and opens it. */
    method CreateList(id: string, name: string)
      modifies this
      ensures lists == old(lists) + [NewList(id, name)]
      ensures current == Some(NewList(id, name))
    {
      var created := NewList(id, name);
      lists := lists + [created];
      current := Some(created);
    }

    /** `onUpdateList`: the edited list becomes current and replaces its entry. */
    method UpdateList(updated: GuestList)
      modifies this
      ensures current == Some(updated)
      ensures lists == ReplaceById(old(lists), updated)
    {
      current := Some(updated);
      lists := ReplaceById(lists, updated);
    }

    /** `onDeleteList`: drops the list, and closes it when it was open. */
    method DeleteList(id: string)
      modifies this
      ensures lists == WithoutId(old(lists), id)
      ensures old(current).Some? && old(current).value.id == id ==> current == None
      ensures !(old(current).Some? && old(current).value.id == id) ==> current == old(current)
    {
      lists := WithoutId(lists, id);
      if current.Some? && current.value.id == id {
        current := None;
      }
    }

    /** `AddColumnModal`'s submit handler: appends the column with order set
        to the number of columns before it; nothing happens without a list. */
    method AddColumn(column: Column)
      modifies this
      ensures old(current).None? ==> current == old(current) && lists == old(lists)
      ensures old(current).Some? ==>
        var list := old(current).value;
        var updated := list.(columns := list.columns + [column.(order := Some(|list.columns|))]);
        current == Some(updated) && lists == ReplaceById(old(lists), updated)
    {
      if current.Some? {
        var list := current.value;
        var updated := list.(columns := list.columns + [column.(order := Some(|list.columns|))]);
        current := Some(updated);
        lists := ReplaceById(lists, updated);
      }
    }

    /** `copyColumnData`. */
    method CopyColumnData(source: string, target: string, toIso: string -> string, dateParses: string -> bool)
      modifies this
      ensures old(current).None? ==> current == old(current) && lists == old(lists)
      ensures old(current).Some? ==>
        var list := old(current).value;
        var updated := list.(guests := CopyColumn(list.guests, source, target, toIso, dateParses));
        current == Some(updated) && lists == ReplaceById(old(lists), updated)
    {
      if current.Some? {
        var list := current.value;
        var updated := list.(guests := CopyColumn(list.guests, source, target, toIso, dateParses));
        current := Some(updated);
        lists := ReplaceById(lists, updated);
      }
    }

    /** `processImportedData`: on success the open list is replaced by the
        imported one, here and in `lists`; on any refusal nothing changes.
        Returns the number of guests imported, or why nothing was. */
    method ProcessImportedData(sheet: Sheet, stamp: string, guestId: int -> string, dateParses: string -> bool)
      returns (outcome: Result<nat, ImportError>)
      modifies this
      ensures old(current).None? ==>
        outcome == Failure(NoCurrentList) && current == old(current) && lists == old(lists)
      ensures old(current).Some? ==>
        match ImportOutcome(old(current).value, sheet, stamp, guestId, dateParses)
        case Failure(e) => outcome == Failure(e) && current == old(current) && lists == old(lists)
        case Success(updated) =>
          outcome == Success(|updated.guests|) && current == Some(updated) && lists == ReplaceById(old(lists), updated)
    {
      if current.None? {
        return Failure(NoCurrentList);
      }
      var result := ImportSheet(current.value, sheet, stamp, guestId, dateParses);
      if result.Failure? {
        return Failure(result.error);
      }
      var updated := result.value;
      current := Some(updated);
      lists := ReplaceById(lists, updated);
      return Success(|updated.guests|);
    }
  }
}
