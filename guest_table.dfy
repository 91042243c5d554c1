/**
 * The list-editing handlers of src/components/GuestTable.tsx. Each builds
 * the updated list that is handed to `onUpdateList`; the column filters
 * are the component's own state.
 */
module GuestTable {
  import opened Wrappers
  import opened Text
  import opened Types
  import opened Seqs

  /** `addGuest`: the guest, with a fresh id, goes to the end. */
  function AddGuest(list: GuestList, guest: Guest, newId: string): GuestList
  {
    list.(guests := list.guests + [guest["id" := Str(newId)]])
  }

  /** `updateGuest`: every guest with the edited guest's id is replaced by it. */
  function UpdateGuest(list: GuestList, guest: Guest): GuestList
  {
    list.(guests := seq(|list.guests|, i requires 0 <= i < |list.guests| =>
                          if Get(list.guests[i], "id") == Get(guest, "id") then guest else list.guests[i]))
  }

  /** `deleteGuest`. */
  function DeleteGuest(list: GuestList, id: string): GuestList
  {
    list.(guests := Filter(list.guests, (g: Guest) => Get(g, "id") != Some(Str(id))))
  }

  /** `!col.visible`: a missing flag reads as false, so it becomes true. */
  function Toggled(c: Column): Column
  {
    c.(visible := Some(c.visible != Some(true)))
  }

  /** `toggleColumnVisibility`. */
  function ToggleColumnVisibility(list: GuestList, columnId: string): GuestList
  {
    list.(columns := seq(|list.columns|, i requires 0 <= i < |list.columns| =>
                           if list.columns[i].id == columnId then Toggled(list.columns[i]) else list.columns[i]))
  }

  /** `removeColumn`. */
  function RemoveColumn(list: GuestList, columnId: string): GuestList
  {
    list.(columns := Filter(list.columns, (c: Column) => c.id != columnId))
  }

  /** The column settings offer a delete button only for non-status columns. */
  predicate OffersDelete(c: Column)
  {
    c.kind != StatusKind
  }

  /** Adding appends exactly one guest, carrying the new id, and changes nothing else. */
  lemma AddGuestFrame(list: GuestList, guest: Guest, newId: string)
    ensures var l := AddGuest(list, guest, newId);
      && |l.guests| == |list.guests| + 1
      && l.guests[..|list.guests|] == list.guests
      && Get(l.guests[|list.guests|], "id") == Some(Str(newId))
      && (forall k :: k in guest && k != "id" ==> k in l.guests[|list.guests|] && l.guests[|list.guests|][k] == guest[k])
      && l.(guests := list.guests) == list
  {
  }

  /** Updating keeps the count and order, replaces exactly the guests whose
      id matches and changes nothing else. */
  lemma UpdateGuestFrame(list: GuestList, guest: Guest)
    ensures var l := UpdateGuest(list, guest);
      && |l.guests| == |list.guests|
      && (forall i :: 0 <= i < |list.guests| ==>
            l.guests[i] == if Get(list.guests[i], "id") == Get(guest, "id") then guest else list.guests[i])
      && l.(guests := list.guests) == list
  {
  }

  /** Deleting removes exactly the guests with that id, keeps the others in
      order and changes nothing else. */
  lemma DeleteGuestFrame(list: GuestList, id: string)
    ensures var l := DeleteGuest(list, id);
      && (forall g :: g in l.guests <==> g in list.guests && Get(g, "id") != Some(Str(id)))
      && Subsequence(l.guests, list.guests)
      && l.(guests := list.guests) == list
  {
    FilterMeaning(list.guests, (g: Guest) => Get(g, "id") != Some(Str(id)));
  }

  /** Toggling flips the flag of the columns with that id, where a missing
      flag counts as false and so becomes true: such a column stays shown.
      Other columns are unchanged, and toggling twice restores any column
      whose flag was set. */
  lemma ToggleColumnVisibilityFrame(list: GuestList, columnId: string)
    ensures var l := ToggleColumnVisibility(list, columnId);
      && |l.columns| == |list.columns|
      && (forall i :: 0 <= i < |list.columns| && list.columns[i].id != columnId ==> l.columns[i] == list.columns[i])
      && (forall i :: 0 <= i < |list.columns| && list.columns[i].id == columnId ==>
            l.columns[i] == list.columns[i].(visible := l.columns[i].visible)
            && (list.columns[i].visible == None ==> IsShown(l.columns[i]))
            && (list.columns[i].visible.Some? ==> l.columns[i].visible == Some(!list.columns[i].visible.value)))
      && l.(columns := list.columns) == list
  {
  }

  lemma ToggleTwice(list: GuestList, columnId: string)
    requires forall i :: 0 <= i < |list.columns| && list.columns[i].id == columnId ==> list.columns[i].visible.Some?
    ensures ToggleColumnVisibility(ToggleColumnVisibility(list, columnId), columnId) == list
  {
    var l1 := ToggleColumnVisibility(list, columnId);
    var l2 := ToggleColumnVisibility(l1, columnId);
    forall i | 0 <= i < |list.columns|
      ensures l2.columns[i] == list.columns[i]
    {
      if list.columns[i].id == columnId {
        assert l1.columns[i] == Toggled(list.columns[i]);
        assert l1.columns[i].id == columnId;
        assert l2.columns[i] == Toggled(l1.columns[i]);
        var c := list.columns[i];
        assert c.visible.Some?;
        assert Toggled(c).visible == Some(!c.visible.value);
        assert Toggled(Toggled(c)).visible == c.visible;
      } else {
        assert l1.columns[i] == list.columns[i];
      }
    }
    assert l2.columns == list.columns;
  }

  /** Removing drops exactly the columns with that id, keeps the rest in
      order and changes nothing else. */
  lemma RemoveColumnFrame(list: GuestList, columnId: string)
    ensures var l := RemoveColumn(list, columnId);
      && (forall c :: c in l.columns <==> c in list.columns && c.id != columnId)
      && Subsequence(l.columns, list.columns)
      && l.(columns := list.columns) == list
  {
    FilterMeaning(list.columns, (c: Column) => c.id != columnId);
  }

  /** Removing a column through its delete button (the column at `d`), when
      ids are distinct, never loses the status column. */
  lemma RemoveColumnKeepsStatus(list: GuestList, columnId: string, d: nat)
    requires IdsDistinct(list.columns)
    requires d < |list.columns| && list.columns[d].id == columnId && OffersDelete(list.columns[d])
    ensures HasStatusColumn(RemoveColumn(list, columnId).columns) <==> HasStatusColumn(list.columns)
  {
    var all := list.columns;
    var keep := (c: Column) => c.id != columnId;
    var status := (c: Column) => c.kind == StatusKind;
    FilterAny(all, keep, status);
    if HasStatusColumn(all) {
      var i :| 0 <= i < |all| && all[i].kind == StatusKind;
      assert i != d;
      assert all[i].id != all[d].id by {
        if i < d { assert all[i].id != all[d].id; } else { assert all[d].id != all[i].id; }
      }
      assert keep(all[i]) && status(all[i]);
    }
    if HasStatusColumn(Filter(all, keep)) {
      var j :| 0 <= j < |Filter(all, keep)| && Filter(all, keep)[j].kind == StatusKind;
      assert status(Filter(all, keep)[j]);
    }
  }

  /** `s` with the element at `src` taken out and put back at `dst`
      (the two `splice` calls of `handleDragEnd`). */
  function Moved<T>(s: seq<T>, src: nat, dst: nat): seq<T>
    requires src < |s| && dst < |s|
  {
    var rest := s[..src] + s[src + 1..];
    rest[..dst] + [s[src]] + rest[dst..]
  }

  /** Every column's order set to its position. */
  function Renumbered(cols: seq<Column>): seq<Column>
  {
    seq(|cols|, i requires 0 <= i < |cols| => cols[i].(order := Some(i)))
  }

  /** The moved element lands at `dst`, nothing is lost or duplicated, and
      the other elements keep their relative order. */
  lemma MovedMeaning<T>(s: seq<T>, src: nat, dst: nat)
    requires src < |s| && dst < |s|
    ensures |Moved(s, src, dst)| == |s|
    ensures Moved(s, src, dst)[dst] == s[src]
    ensures multiset(Moved(s, src, dst)) == multiset(s)
    ensures Moved(s, src, dst)[..dst] + Moved(s, src, dst)[dst + 1..] == s[..src] + s[src + 1..]
  {
    var rest := s[..src] + s[src + 1..];
    var m := Moved(s, src, dst);
    assert s == s[..src] + [s[src]] + s[src + 1..];
    assert rest == rest[..dst] + rest[dst..];
    calc {
      multiset(m);
      multiset(rest[..dst]) + multiset{s[src]} + multiset(rest[dst..]);
      multiset(rest) + multiset{s[src]};
      multiset(s[..src]) + multiset(s[src + 1..]) + multiset{s[src]};
      multiset(s);
    }
    assert m[..dst] == rest[..dst];
    assert m[dst + 1..] == rest[dst..];
  }

  /** After a drag, every column's order is its new position, and each
      column is otherwise the one that was there. */
  lemma RenumberedMeaning(cols: seq<Column>)
    ensures |Renumbered(cols)| == |cols|
    ensures forall i :: 0 <= i < |cols| ==>
      Renumbered(cols)[i].order == Some(i) && Renumbered(cols)[i].(order := cols[i].order) == cols[i]
  {
  }

  /** `handleDragEnd`: without a destination nothing changes (no update is
      made); otherwise the columns are copied into a fresh array, the
      dragged one is spliced out and spliced back in at the destination,
      and the orders are renumbered. The drag library supplies positions
      inside the list. */
  method HandleDragEnd(list: GuestList, source: nat, destination: Option<nat>) returns (update: Option<GuestList>)
    requires source < |list.columns|
    requires destination.Some? ==> destination.value < |list.columns|
    ensures destination.None? ==> update.None?
    ensures destination.Some? ==>
      update == Some(list.(columns := Renumbered(Moved(list.columns, source, destination.value))))
  {
    if destination.None? {
      return None;
    }
    var dst := destination.value;
    var n := |list.columns|;
    var items := new Column[n](i requires 0 <= i < n => list.columns[i]);
    assert items[..] == list.columns;
    var dragged := items[source];
    ShiftLeft(items, source);
    ShiftRight(items, dst);
    ghost var gapped := items[..];
    items[dst] := dragged;
    assert items[..] == gapped[dst := dragged];
    ShiftsMove(list.columns, source, dst);
    update := Some(list.(columns := Renumbered(items[..])));
  }

  /** `s` with the element at `from` taken out and the last element repeated
      to keep the length. */
  function Closed<T>(s: seq<T>, from: nat): (r: seq<T>)
    requires from < |s|
    ensures |r| == |s|
  {
    s[..from] + s[from + 1..] + [s[|s| - 1]]
  }

  /** `s` with a gap opened at `to`: the element there is repeated and the
      last element drops off. */
  function Gapped<T>(s: seq<T>, to: nat): (r: seq<T>)
    requires to < |s|
    ensures |r| == |s|
  {
    s[..to] + [s[to]] + s[to..|s| - 1]
  }

  /** Closing the gap at the source, opening one at the destination and
      filling it with the dragged element is the move. */
  lemma ShiftsMove<T>(s: seq<T>, src: nat, dst: nat)
    requires src < |s| && dst < |s|
    ensures Gapped(Closed(s, src), dst)[dst := s[src]] == Moved(s, src, dst)
  {
    var rest := s[..src] + s[src + 1..];
    assert Closed(s, src)[..|s| - 1] == rest;
    assert Gapped(Closed(s, src), dst)[dst := s[src]] == rest[..dst] + [s[src]] + rest[dst..];
  }

  /** Takes out the element at `from`, moving the later ones one place
      towards the front; the last place keeps its element. */
  method ShiftLeft<T>(items: array<T>, from: nat)
    requires from < items.Length
    modifies items
    ensures items[..] == Closed(old(items[..]), from)
  {
    var i := from;
    while i < items.Length - 1
      invariant from <= i <= items.Length - 1
      invariant forall k :: 0 <= k < from ==> items[k] == old(items[k])
      invariant forall k :: from <= k < i ==> items[k] == old(items[k + 1])
      invariant forall k :: i <= k < items.Length ==> items[k] == old(items[k])
    {
      items[i] := items[i + 1];
      i := i + 1;
    }
    assert items[..] == Closed(old(items[..]), from);
  }

  /** Opens a gap at `to`, moving the elements from `to` on one place
      towards the back; the last element falls off. */
  method ShiftRight<T>(items: array<T>, to: nat)
    requires to < items.Length
    modifies items
    ensures items[..] == Gapped(old(items[..]), to)
  {
    var j := items.Length - 1;
    while j > to
      invariant to <= j <= items.Length - 1
      invariant forall k :: 0 <= k <= j ==> items[k] == old(items[k])
      invariant forall k :: j < k < items.Length ==> items[k] == old(items[k - 1])
    {
      items[j] := items[j - 1];
      j := j - 1;
    }
    assert items[..] == Gapped(old(items[..]), to);
  }

  /** `ColumnFilter['type']`. */
  datatype FilterKind = TextFilter | DateFilter | NumberFilter | StatusFilter

  /** A filter on one column: the column id, the text to match, how to match it. */
  datatype ColumnFilter = ColumnFilter(column: string, value: string, kind: FilterKind)

  /** The filters without the one at position `index`. */
  function WithoutIndex<T>(filters: seq<T>, index: int): seq<T>
  {
    if |filters| == 0 then []
    else WithoutIndex(filters[..|filters| - 1], index) + (if |filters| - 1 != index then [filters[|filters| - 1]] else [])
  }

  /** Removing the filter at a position drops exactly that one and keeps the
      others in order; a position outside the list removes nothing. */
  lemma WithoutIndexMeaning<T>(filters: seq<T>, index: int)
    ensures 0 <= index < |filters| ==> WithoutIndex(filters, index) == filters[..index] + filters[index + 1..]
    ensures !(0 <= index < |filters|) ==> WithoutIndex(filters, index) == filters
  {
    if 0 <= index < |filters| {
      WithoutIndexInside(filters, index);
    } else {
      WithoutIndexOutside(filters, index);
    }
  }

  lemma {:induction false} WithoutIndexOutside<T>(filters: seq<T>, index: int)
    requires !(0 <= index < |filters|)
    ensures WithoutIndex(filters, index) == filters
  {
    if |filters| > 0 {
      var init := filters[..|filters| - 1];
      var last := filters[|filters| - 1];
      assert WithoutIndex(filters, index) == WithoutIndex(init, index) + [last];
      WithoutIndexOutside(init, index);
      assert init + [last] == filters;
    }
  }

  lemma {:induction false} WithoutIndexInside<T>(filters: seq<T>, index: int)
    requires 0 <= index < |filters|
    ensures WithoutIndex(filters, index) == filters[..index] + filters[index + 1..]
  {
    var init := filters[..|filters| - 1];
    if index == |filters| - 1 {
      WithoutIndexOutside(init, index);
      assert init == filters[..index];
    } else {
      var last := [filters[|filters| - 1]];
      WithoutIndexInside(init, index);
      assert init[..index] == filters[..index];
      assert init[index + 1..] + last == filters[index + 1..];
      calc {
        WithoutIndex(filters, index);
        WithoutIndex(init, index) + last;
        (init[..index] + init[index + 1..]) + last;
        init[..index] + (init[index + 1..] + last);
      }
    }
  }

  /** The column filters of the guest table, the component's own state. */
  class FilterBar {
    var filters: seq<ColumnFilter>

    constructor()
      ensures filters == []
    {
      filters := [];
    }

    /** `addFilter`: an empty filter on the column, by date for date columns, else by text. */
    method AddFilter(column: Column)
      modifies this
      ensures filters == old(filters) + [ColumnFilter(column.id, "", if column.kind == DateKind then DateFilter else TextFilter)]
    {
      filters := filters + [ColumnFilter(column.id, "", if column.kind == DateKind then DateFilter else TextFilter)];
    }

    /** `updateFilter`: sets the text of the filter at `index`. At a position
        with no filter the handler throws before setting any state: `ok` is
        then false and the filters stay as they were. */
    method UpdateFilter(index: int, value: string) returns (ok: bool)
      modifies this
      ensures ok <==> 0 <= index < |old(filters)|
      ensures !ok ==> filters == old(filters)
      ensures |filters| == |old(filters)|
      ensures ok ==> filters[index] == old(filters)[index].(value := value)
      ensures forall k :: 0 <= k < |filters| && k != index ==> filters[k] == old(filters)[k]
    {
      if !(0 <= index < |filters|) {
        return false;
      }
      filters := filters[index := filters[index].(value := value)];
      return true;
    }

    /** `removeFilter`. */
    method RemoveFilter(index: int)
      modifies this
      ensures filters == WithoutIndex(old(filters), index)
      ensures 0 <= index < |old(filters)| ==> filters == old(filters)[..index] + old(filters)[index + 1..]
      ensures !(0 <= index < |old(filters)|) ==> filters == old(filters)
    {
      WithoutIndexMeaning(filters, index);
      filters := WithoutIndex(filters, index);
    }
  }

  /** The value of `guest` under `col` contains the lower-cased search term
      once stringified and lower-cased. */
  predicate CellMatches(guest: Guest, col: Column, termLower: string)
  {
    col.id in guest && Contains(Lower(Display(guest[col.id])), termLower)
  }

  /** The global search: an empty term lets everything through. */
  predicate MatchesSearch(guest: Guest, columns: seq<Column>, term: string)
  {
    term == "" || exists i :: 0 <= i < |columns| && CellMatches(guest, columns[i], Lower(term))
  }

  /** One column filter; a missing or falsy value never passes. The date
      and number comparisons are given as `sameDate` and `sameNumber`. */
  predicate PassesFilter(guest: Guest, f: ColumnFilter,
                         sameDate: (string, Value) -> bool, sameNumber: (Value, string) -> bool)
  {
    var v := Get(guest, f.column);
    Truthy(v) &&
    match f.kind
    case DateFilter => sameDate(f.value, v.value)
    case NumberFilter => sameNumber(v.value, f.value)
    case StatusFilter => v.value == Str(f.value)
    case TextFilter => Contains(Lower(Display(v.value)), Lower(f.value))
  }

  predicate PassesFilters(guest: Guest, filters: seq<ColumnFilter>,
                          sameDate: (string, Value) -> bool, sameNumber: (Value, string) -> bool)
  {
    forall i :: 0 <= i < |filters| ==> PassesFilter(guest, filters[i], sameDate, sameNumber)
  }

  /** `filteredGuests`. */
  function FilteredGuests(list: GuestList, term: string, filters: seq<ColumnFilter>,
                          sameDate: (string, Value) -> bool, sameNumber: (Value, string) -> bool): seq<Guest>
  {
    Filter(list.guests, (g: Guest) => MatchesSearch(g, list.columns, term) && PassesFilters(g, filters, sameDate, sameNumber))
  }

  /** The shown guests are an order-preserving selection of the list's: a
      guest is shown exactly when it matches the search and every filter;
      with no search term and no filters every guest is shown; a guest
      whose filtered field is missing or falsy is never shown. */
  lemma FilteredGuestsMeaning(list: GuestList, term: string, filters: seq<ColumnFilter>,
                              sameDate: (string, Value) -> bool, sameNumber: (Value, string) -> bool)
    ensures Subsequence(FilteredGuests(list, term, filters, sameDate, sameNumber), list.guests)
    ensures forall g :: g in FilteredGuests(list, term, filters, sameDate, sameNumber) <==>
      g in list.guests && MatchesSearch(g, list.columns, term) && PassesFilters(g, filters, sameDate, sameNumber)
    ensures term == "" && filters == [] ==> FilteredGuests(list, term, filters, sameDate, sameNumber) == list.guests
    ensures forall g, i :: g in FilteredGuests(list, term, filters, sameDate, sameNumber) && 0 <= i < |filters| ==>
      Truthy(Get(g, filters[i].column))
  {
    FilterMeaning(list.guests, (g: Guest) => MatchesSearch(g, list.columns, term) && PassesFilters(g, filters, sameDate, sameNumber));
  }

  /** What `calculateColumnSummary` reports; the sum of a number column is
      not modelled. */
  datatype Summary = NumberSummary(count: nat) | CheckboxSummary(checked: nat, total: nat) | CountSummary(count: nat)

  /** Number of guests with a truthy value under `id`. */
  function CountTruthy(guests: seq<Guest>, id: string): (n: nat)
    ensures n <= |guests|
  {
    if |guests| == 0 then 0
    else CountTruthy(guests[..|guests| - 1], id) + (if Truthy(Get(guests[|guests| - 1], id)) then 1 else 0)
  }

  function ColumnSummary(list: GuestList, column: Column): Option<Summary>
  {
    if |list.guests| == 0 then None
    else if column.kind == NumberKind then Some(NumberSummary(|list.guests|))
    else if column.kind == CheckboxKind then Some(CheckboxSummary(CountTruthy(list.guests, column.id), |list.guests|))
    else Some(CountSummary(|list.guests|))
  }

  /** No summary without guests; a checkbox summary counts at most all
      guests and is exact at the extremes; other summaries count every guest. */
  lemma {:induction false} ColumnSummaryMeaning(list: GuestList, column: Column)
    ensures ColumnSummary(list, column).None? <==> |list.guests| == 0
    ensures ColumnSummary(list, column).Some? && column.kind == CheckboxKind ==>
      var s := ColumnSummary(list, column).value;
      && s.CheckboxSummary? && s.checked <= s.total == |list.guests|
      && (s.checked == s.total <==> forall i :: 0 <= i < |list.guests| ==> Truthy(Get(list.guests[i], column.id)))
    ensures ColumnSummary(list, column).Some? && column.kind != CheckboxKind ==>
      ColumnSummary(list, column).value.count == |list.guests|
  {
    if |list.guests| > 0 && column.kind == CheckboxKind {
      CountTruthyAll(list.guests, column.id);
    }
  }

  lemma {:induction false} CountTruthyAll(guests: seq<Guest>, id: string)
    ensures CountTruthy(guests, id) == |guests| <==> forall i :: 0 <= i < |guests| ==> Truthy(Get(guests[i], id))
  {
    if |guests| > 0 {
      var init := guests[..|guests| - 1];
      CountTruthyAll(init, id);
      assert forall i :: 0 <= i < |init| ==> init[i] == guests[i];
    }
  }
}
