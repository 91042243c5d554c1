/**
 * `visibleColumns` (src/components/GuestTable.tsx, and the same expression
 * in `exportToExcel`, src/App.tsx): the columns not hidden, sorted by
 * `order` with a missing order counting as 0.
 */
module Visibility {
  import opened Types
  import opened Seqs

  /** The shown columns, in list order. */
  function Shown(cols: seq<Column>): seq<Column>
  {
    Filter(cols, IsShown)
  }

  predicate SortedByOrder(cols: seq<Column>)
  {
    forall i, j :: 0 <= i < j < |cols| ==> OrderKey(cols[i]) <= OrderKey(cols[j])
  }

  /** Places `c` before the first column whose order is not smaller. */
  function InsertByOrder(c: Column, sorted: seq<Column>): seq<Column>
  {
    if |sorted| == 0 || OrderKey(c) <= OrderKey(sorted[0]) then [c] + sorted
    else [sorted[0]] + InsertByOrder(c, sorted[1..])
  }

  /** The columns sorted by order key, ties keeping their list order. */
  function SortByOrder(cols: seq<Column>): seq<Column>
  {
    if |cols| == 0 then [] else InsertByOrder(cols[0], SortByOrder(cols[1..]))
  }

  function VisibleColumns(cols: seq<Column>): seq<Column>
  {
    SortByOrder(Shown(cols))
  }

  /** The shown columns are those whose flag is not false, each exactly as
      often as in the list. */
  lemma ShownMeaning(cols: seq<Column>)
    ensures forall c :: c in Shown(cols) <==> c in cols && IsShown(c)
    ensures multiset(Shown(cols)) <= multiset(cols)
    ensures forall c :: IsShown(c) ==> multiset(Shown(cols))[c] == multiset(cols)[c]
  {
    FilterMeaning(cols, IsShown);
    FilterCounts(cols, IsShown);
  }

  predicate AllAtLeast(k: int, cols: seq<Column>)
  {
    forall i :: 0 <= i < |cols| ==> k <= OrderKey(cols[i])
  }

  lemma {:induction false} InsertByOrderBound(k: int, c: Column, sorted: seq<Column>)
    requires AllAtLeast(k, sorted) && k <= OrderKey(c)
    ensures AllAtLeast(k, InsertByOrder(c, sorted))
  {
    if |sorted| > 0 && OrderKey(c) > OrderKey(sorted[0]) {
      InsertByOrderBound(k, c, sorted[1..]);
    }
  }

  lemma {:induction false} InsertByOrderSorted(c: Column, sorted: seq<Column>)
    requires SortedByOrder(sorted)
    ensures SortedByOrder(InsertByOrder(c, sorted))
  {
    if |sorted| > 0 {
      var head := sorted[0];
      if OrderKey(c) > OrderKey(head) {
        InsertByOrderSorted(c, sorted[1..]);
        InsertByOrderBound(OrderKey(head), c, sorted[1..]);
      } else {
        assert AllAtLeast(OrderKey(head), sorted);
      }
    }
  }

  lemma {:induction false} InsertByOrderCounts(c: Column, sorted: seq<Column>)
    ensures multiset(InsertByOrder(c, sorted)) == multiset(sorted) + multiset{c}
  {
    if |sorted| > 0 && OrderKey(c) > OrderKey(sorted[0]) {
      InsertByOrderCounts(c, sorted[1..]);
      assert sorted == [sorted[0]] + sorted[1..];
    }
  }

  /** The sort yields the same columns, ordered by `order`. */
  lemma {:induction false} SortByOrderMeaning(cols: seq<Column>)
    ensures SortedByOrder(SortByOrder(cols))
    ensures multiset(SortByOrder(cols)) == multiset(cols)
  {
    if |cols| > 0 {
      SortByOrderMeaning(cols[1..]);
      InsertByOrderSorted(cols[0], SortByOrder(cols[1..]));
      InsertByOrderCounts(cols[0], SortByOrder(cols[1..]));
      assert cols == [cols[0]] + cols[1..];
    }
  }

  /** The visible columns are exactly the shown columns, each as often as it
      occurs, sorted by order. */
  lemma VisibleColumnsMeaning(cols: seq<Column>)
    ensures SortedByOrder(VisibleColumns(cols))
    ensures multiset(VisibleColumns(cols)) == multiset(Shown(cols))
    ensures forall c :: IsShown(c) ==> multiset(VisibleColumns(cols))[c] == multiset(cols)[c]
    ensures forall c :: c in VisibleColumns(cols) <==> c in cols && IsShown(c)
  {
    ShownMeaning(cols);
    SortByOrderMeaning(Shown(cols));
    forall c
      ensures c in VisibleColumns(cols) <==> c in Shown(cols)
    {
      assert c in VisibleColumns(cols) <==> c in multiset(VisibleColumns(cols));
      assert c in Shown(cols) <==> c in multiset(Shown(cols));
    }
  }
}
