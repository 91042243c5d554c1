/**
 * The row loop of `processImportedData` (src/App.tsx): every row below the
 * header becomes a guest record when at least one of its cells lands in a
 * column of the new schema.
 */
module Rows {
  import opened Wrappers
  import opened Text
  import opened Types
  import opened Sheet
  import opened Seqs

  /** The first column with id `id`. */
  function FindById(cols: seq<Column>, id: string): (r: Option<Column>)
    ensures r.Some? ==> r.value in cols && r.value.id == id
    ensures r.None? <==> forall i :: 0 <= i < |cols| ==> cols[i].id != id
  {
    if |cols| == 0 then None
    else if cols[0].id == id then Some(cols[0])
    else FindById(cols[1..], id)
  }

  /** The record a row starts from; `id` stands for the generated guest id. */
  function FreshGuest(id: string): Guest
  {
    map["id" := Str(id), "status" := Str("Pending")]
  }

  /** How a checkbox cell is read: yes, true, 1 or y (any case), or the boolean true. */
  predicate Checked(v: Value)
  {
    var s := Lower(Display(v));
    s == "yes" || s == "true" || s == "1" || s == "y" || v == Bool(true)
  }

  /** A guest under construction, and whether any cell has filled it yet. */
  datatype Draft = Draft(guest: Guest, hasData: bool)

  /** The column cell `(r, c)` is written to and the value written, when
      the cell is under a real header whose key is mapped to a column and
      the cell holds something other than the empty string. */
  function Target(cols: seq<Column>, columnMap: map<string, string>, headers: seq<string>,
                  g: Sheet, r: int, c: int): Option<(Column, Value)>
  {
    var k := c - g.sc;
    if !(0 <= k < |headers|) then None
    else
      var header := headers[k];
      var key := Trim(Lower(header));
      if header == "" || StartsWith(header, "Column ") || key !in columnMap || columnMap[key] == "" then None
      else match FindById(cols, columnMap[key])
        case None => None
        case Some(col) =>
          match Cell(g, r, c)
          case None => None
          case Some(v) => if v == Str("") then None else Some((col, v))
  }

  /** Writes one cell into the draft, according to the kind of its column. */
  function Fill(d: Draft, col: Column, v: Value): Draft
  {
    if col.kind == CheckboxKind then Draft(d.guest[col.id := Bool(Checked(v))], true)
    else if col.kind == StatusKind then Draft(d.guest["status" := Str(Display(v))], true)
    else Draft(d.guest[col.id := v], true)
  }

  /** The draft of row `r` after the columns `s.c` up to (not including) `c`. */
  function RowDraft(cols: seq<Column>, columnMap: map<string, string>, headers: seq<string>,
                    g: Sheet, guestId: int -> string, r: int, c: int): Draft
    decreases c - g.sc
  {
    if c <= g.sc then Draft(FreshGuest(guestId(r)), false)
    else
      var d := RowDraft(cols, columnMap, headers, g, guestId, r, c - 1);
      match Target(cols, columnMap, headers, g, r, c - 1)
      case None => d
      case Some((col, v)) => Fill(d, col, v)
  }

  /** Row `r` has at least one cell that lands in a column. */
  predicate RowHasData(cols: seq<Column>, columnMap: map<string, string>, headers: seq<string>,
                       g: Sheet, guestId: int -> string, r: int)
  {
    RowDraft(cols, columnMap, headers, g, guestId, r, g.ec + 1).hasData
  }

  /** No row strictly between `rowIndex` and `r` has data. */
  predicate NoDataRows(cols: seq<Column>, columnMap: map<string, string>, headers: seq<string>,
                       g: Sheet, guestId: int -> string, rowIndex: int, r: int)
  {
    forall r' :: rowIndex < r' < r ==> !RowHasData(cols, columnMap, headers, g, guestId, r')
  }

  /** The guests made from the rows `rowIndex + 1` up to (not including) `r`, in row order. */
  function ImportedGuests(cols: seq<Column>, columnMap: map<string, string>, headers: seq<string>,
                          g: Sheet, guestId: int -> string, rowIndex: int, r: int): seq<Guest>
    decreases r - rowIndex
  {
    if r <= rowIndex + 1 then []
    else
      var d := RowDraft(cols, columnMap, headers, g, guestId, r - 1, g.ec + 1);
      ImportedGuests(cols, columnMap, headers, g, guestId, rowIndex, r - 1) + (if d.hasData then [d.guest] else [])
  }

  /** A row yields a guest exactly when one of its cells has a target. */
  lemma RowDraftHasData(cols: seq<Column>, columnMap: map<string, string>, headers: seq<string>,
                        g: Sheet, guestId: int -> string, r: int, c: int)
    ensures RowDraft(cols, columnMap, headers, g, guestId, r, c).hasData <==>
      exists c' :: g.sc <= c' < c && Target(cols, columnMap, headers, g, r, c').Some?
  {
    if RowDraft(cols, columnMap, headers, g, guestId, r, c).hasData {
      var c' := FilledByTarget(cols, columnMap, headers, g, guestId, r, c);
    }
    if exists c' :: g.sc <= c' < c && Target(cols, columnMap, headers, g, r, c').Some? {
      var c' :| g.sc <= c' < c && Target(cols, columnMap, headers, g, r, c').Some?;
      TargetFills(cols, columnMap, headers, g, guestId, r, c', c);
    }
  }

  /** A filled draft was filled by a cell with a target, left of `c`. */
  lemma {:induction false} FilledByTarget(cols: seq<Column>, columnMap: map<string, string>, headers: seq<string>,
                                          g: Sheet, guestId: int -> string, r: int, c: int)
    returns (c': int)
    requires RowDraft(cols, columnMap, headers, g, guestId, r, c).hasData
    ensures g.sc <= c' < c && Target(cols, columnMap, headers, g, r, c').Some?
    decreases c - g.sc
  {
    var prev := c - 1;
    assert c > g.sc;
    RowDraftStep(cols, columnMap, headers, g, guestId, r, c);
    if Target(cols, columnMap, headers, g, r, prev).Some? {
      c' := prev;
    } else {
      assert RowDraft(cols, columnMap, headers, g, guestId, r, prev).hasData;
      c' := FilledByTarget(cols, columnMap, headers, g, guestId, r, prev);
    }
  }

  /** A cell with a target at `c'` leaves every later draft filled. */
  lemma {:induction false} TargetFills(cols: seq<Column>, columnMap: map<string, string>, headers: seq<string>,
                                       g: Sheet, guestId: int -> string, r: int, c': int, c: int)
    requires g.sc <= c' < c && Target(cols, columnMap, headers, g, r, c').Some?
    ensures RowDraft(cols, columnMap, headers, g, guestId, r, c).hasData
    decreases c - c'
  {
    var prev := c - 1;
    RowDraftStep(cols, columnMap, headers, g, guestId, r, c);
    if prev > c' {
      TargetFills(cols, columnMap, headers, g, guestId, r, c', prev);
      assert RowDraft(cols, columnMap, headers, g, guestId, r, prev).hasData;
    } else {
      assert prev == c';
      assert Target(cols, columnMap, headers, g, r, prev).Some?;
    }
  }

  /** One more cell marks the draft as filled exactly when that cell has a target. */
  lemma RowDraftStep(cols: seq<Column>, columnMap: map<string, string>, headers: seq<string>,
                     g: Sheet, guestId: int -> string, r: int, c: int)
    requires c > g.sc
    ensures RowDraft(cols, columnMap, headers, g, guestId, r, c).hasData <==>
      RowDraft(cols, columnMap, headers, g, guestId, r, c - 1).hasData || Target(cols, columnMap, headers, g, r, c - 1).Some?
  {
  }

  /** A property of the guest record a cell can write: the status, or the
      property under a column id. */
  datatype Slot = StatusSlot | FieldSlot(key: string)

  /** Filling a cell of column `col` writes `slot`. */
  predicate Writes(col: Column, slot: Slot)
  {
    match slot
    case StatusSlot => col.kind == StatusKind
    case FieldSlot(k) => col.kind != StatusKind && col.id == k
  }

  /** The value a cell with target `(col, v)` writes: a boolean for a checkbox
      column, the text for the status, the value itself otherwise. */
  function Written(col: Column, v: Value): Value
  {
    if col.kind == CheckboxKind then Bool(Checked(v))
    else if col.kind == StatusKind then Str(Display(v))
    else v
  }

  /** The targets of the cells of row `r` from `s.c` up to (not including) `c`. */
  function RowTargets(cols: seq<Column>, columnMap: map<string, string>, headers: seq<string>,
                      g: Sheet, r: int, c: int): (ts: seq<Option<(Column, Value)>>)
    ensures |ts| == if c <= g.sc then 0 else c - g.sc
    decreases c - g.sc
  {
    if c <= g.sc then [] else RowTargets(cols, columnMap, headers, g, r, c - 1) + [Target(cols, columnMap, headers, g, r, c - 1)]
  }

  /** The draft after one cell with target `t`. */
  function Step(d: Draft, t: Option<(Column, Value)>): Draft
  {
    match t
    case None => d
    case Some((col, v)) => Fill(d, col, v)
  }

  /** The draft after the cells with targets `ts[..n]`, left to right. */
  function Steps(d: Draft, ts: seq<Option<(Column, Value)>>, n: nat): Draft
    requires n <= |ts|
  {
    if n == 0 then d else Step(Steps(d, ts, n - 1), ts[n - 1])
  }

  /** A row's draft is its fresh record after the steps of its cells. */
  lemma {:induction false} RowDraftIsSteps(cols: seq<Column>, columnMap: map<string, string>, headers: seq<string>,
                                           g: Sheet, guestId: int -> string, r: int, c: int)
    ensures RowDraft(cols, columnMap, headers, g, guestId, r, c) ==
      Steps(Draft(FreshGuest(guestId(r)), false), RowTargets(cols, columnMap, headers, g, r, c),
            |RowTargets(cols, columnMap, headers, g, r, c)|)
    decreases c - g.sc
  {
    if c > g.sc {
      RowDraftIsSteps(cols, columnMap, headers, g, guestId, r, c - 1);
      var ts := RowTargets(cols, columnMap, headers, g, r, c);
      var init := RowTargets(cols, columnMap, headers, g, r, c - 1);
      StepsPrefix(Draft(FreshGuest(guestId(r)), false), init, ts, |init|);
    }
  }

  /** Steps over a prefix do not look past it. */
  lemma {:induction false} StepsPrefix(d: Draft, ts: seq<Option<(Column, Value)>>, us: seq<Option<(Column, Value)>>, n: nat)
    requires n <= |ts| && n <= |us| && ts[..n] == us[..n]
    ensures Steps(d, ts, n) == Steps(d, us, n)
  {
    if n > 0 {
      assert ts[..n - 1] == ts[..n][..n - 1] == us[..n][..n - 1] == us[..n - 1];
      assert ts[n - 1] == ts[..n][n - 1] == us[n - 1];
      StepsPrefix(d, ts, us, n - 1);
    }
  }

  /** The target `t` writes `slot`. */
  predicate WritesSlot(t: Option<(Column, Value)>, slot: Slot)
  {
    t.Some? && Writes(t.value.0, slot)
  }

  /** The test "writes `slot`" on targets. */
  function WritesTo(slot: Slot): Option<(Column, Value)> -> bool
  {
    t => WritesSlot(t, slot)
  }

  /** The position, among the row's cells left of `c`, of the last one whose
      target writes `slot`. */
  function LastWrite(cols: seq<Column>, columnMap: map<string, string>, headers: seq<string>,
                     g: Sheet, r: int, c: int, slot: Slot): (k: Option<nat>)
    ensures var ts := RowTargets(cols, columnMap, headers, g, r, c);
      k.Some? ==> k.value < |ts| && WritesSlot(ts[k.value], slot)
  {
    var ts := RowTargets(cols, columnMap, headers, g, r, c);
    LastWhere(ts, WritesTo(slot), |ts|)
  }

  /** No target among `ts[..n]` writes a non-status column under `status`. */
  predicate KeepsStatusKey(ts: seq<Option<(Column, Value)>>, n: nat)
    requires n <= |ts|
  {
    forall i :: 0 <= i < n && ts[i].Some? && ts[i].value.0.kind != StatusKind ==> ts[i].value.0.id != "status"
  }

  /** The status after the steps is the one written by the last status cell,
      or the starting one when no cell writes it. */
  lemma {:induction false} StepsStatus(d: Draft, ts: seq<Option<(Column, Value)>>, n: nat)
    requires n <= |ts| && "status" in d.guest && KeepsStatusKey(ts, n)
    ensures "status" in Steps(d, ts, n).guest
    ensures LastWhere(ts, WritesTo(StatusSlot), n).None? ==>
      Steps(d, ts, n).guest["status"] == d.guest["status"]
    ensures LastWhere(ts, WritesTo(StatusSlot), n).Some? ==>
      var t := ts[LastWhere(ts, WritesTo(StatusSlot), n).value].value;
      Steps(d, ts, n).guest["status"] == Str(Display(t.1))
  {
    if n > 0 {
      StepsStatus(d, ts, n - 1);
    }
  }

  /** Any other property after the steps is present exactly when it was at
      the start or some cell writes it, and holds what the last such cell writes. */
  lemma {:induction false} StepsField(d: Draft, ts: seq<Option<(Column, Value)>>, n: nat, k: string)
    requires n <= |ts| && k != "status"
    ensures k in Steps(d, ts, n).guest <==>
      k in d.guest || LastWhere(ts, WritesTo(FieldSlot(k)), n).Some?
    ensures LastWhere(ts, WritesTo(FieldSlot(k)), n).None? && k in d.guest ==>
      Steps(d, ts, n).guest[k] == d.guest[k]
    ensures LastWhere(ts, WritesTo(FieldSlot(k)), n).Some? ==>
      var t := ts[LastWhere(ts, WritesTo(FieldSlot(k)), n).value].value;
      Steps(d, ts, n).guest[k] == Written(t.0, t.1)
  {
    if n > 0 {
      StepsField(d, ts, n - 1, k);
    }
  }

  /** The status of a row's record is "Pending" until a cell of a status
      column is filled, and then the text of the last such cell. The import's
      column ids all start with "col_", so none of them is "status". */
  lemma RowDraftStatus(cols: seq<Column>, columnMap: map<string, string>, headers: seq<string>,
                       g: Sheet, guestId: int -> string, r: int, c: int)
    requires "status" !in columnMap.Values
    ensures var d := RowDraft(cols, columnMap, headers, g, guestId, r, c);
      var ts := RowTargets(cols, columnMap, headers, g, r, c);
      var last := LastWrite(cols, columnMap, headers, g, r, c, StatusSlot);
      && "status" in d.guest
      && d.guest["status"] == (if last.None? then Str("Pending") else Str(Display(ts[last.value].value.1)))
  {
    var ts := RowTargets(cols, columnMap, headers, g, r, c);
    RowDraftIsSteps(cols, columnMap, headers, g, guestId, r, c);
    RowTargetsKeepStatusKey(cols, columnMap, headers, g, r, c);
    StepsStatus(Draft(FreshGuest(guestId(r)), false), ts, |ts|);
  }

  /** Any other property of a row's record is present exactly when it is
      the id or a cell of a non-status column with that id is filled; it
      holds the value the last such cell writes, and the id is the generated
      one until a cell overwrites it. */
  lemma RowDraftField(cols: seq<Column>, columnMap: map<string, string>, headers: seq<string>,
                      g: Sheet, guestId: int -> string, r: int, c: int, k: string)
    requires k != "status"
    ensures var d := RowDraft(cols, columnMap, headers, g, guestId, r, c);
      var ts := RowTargets(cols, columnMap, headers, g, r, c);
      var last := LastWrite(cols, columnMap, headers, g, r, c, FieldSlot(k));
      && (k in d.guest <==> k == "id" || last.Some?)
      && (last.Some? ==> d.guest[k] == Written(ts[last.value].value.0, ts[last.value].value.1))
      && (last.None? && k == "id" ==> d.guest[k] == Str(guestId(r)))
  {
    var ts := RowTargets(cols, columnMap, headers, g, r, c);
    RowDraftIsSteps(cols, columnMap, headers, g, guestId, r, c);
    StepsField(Draft(FreshGuest(guestId(r)), false), ts, |ts|, k);
  }

  /** Position `i` of the row's targets is the target of column `s.c + i`. */
  lemma {:induction false} RowTargetsAt(cols: seq<Column>, columnMap: map<string, string>, headers: seq<string>,
                                        g: Sheet, r: int, c: int, i: int)
    requires 0 <= i < |RowTargets(cols, columnMap, headers, g, r, c)|
    ensures RowTargets(cols, columnMap, headers, g, r, c)[i] == Target(cols, columnMap, headers, g, r, g.sc + i)
    decreases c - g.sc
  {
    var init := RowTargets(cols, columnMap, headers, g, r, c - 1);
    var x := Target(cols, columnMap, headers, g, r, c - 1);
    assert RowTargets(cols, columnMap, headers, g, r, c) == init + [x];
    SnocAt(init, x, i);
    if i < |init| {
      RowTargetsAt(cols, columnMap, headers, g, r, c - 1, i);
    }
  }

  /** Appending keeps the earlier positions and puts `x` last. */
  lemma SnocAt<T>(s: seq<T>, x: T, i: int)
    requires 0 <= i <= |s|
    ensures (s + [x])[i] == if i < |s| then s[i] else x
  {
  }

  /** No cell of a row writes a non-status column under `status` when no
      header is mapped to that id. */
  lemma RowTargetsKeepStatusKey(cols: seq<Column>, columnMap: map<string, string>, headers: seq<string>,
                                g: Sheet, r: int, c: int)
    requires "status" !in columnMap.Values
    ensures var ts := RowTargets(cols, columnMap, headers, g, r, c);
      KeepsStatusKey(ts, |ts|)
  {
    var ts := RowTargets(cols, columnMap, headers, g, r, c);
    forall i | 0 <= i < |ts| && ts[i].Some? && ts[i].value.0.kind != StatusKind
      ensures ts[i].value.0.id != "status"
    {
      RowTargetsAt(cols, columnMap, headers, g, r, c, i);
      TargetKeepsStatusKey(cols, columnMap, headers, g, r, g.sc + i);
    }
  }

  /** One cell's version of `RowTargetsKeepStatusKey`. */
  lemma TargetKeepsStatusKey(cols: seq<Column>, columnMap: map<string, string>, headers: seq<string>,
                             g: Sheet, r: int, c: int)
    requires "status" !in columnMap.Values
    ensures var t := Target(cols, columnMap, headers, g, r, c);
      t.Some? && t.value.0.kind != StatusKind ==> t.value.0.id != "status"
  {
    if Target(cols, columnMap, headers, g, r, c).Some? {
      TargetColumnIsMapped(cols, columnMap, headers, g, r, c);
    }
  }

  /** A target's column carries an id of the column map. */
  lemma TargetColumnIsMapped(cols: seq<Column>, columnMap: map<string, string>, headers: seq<string>,
                             g: Sheet, r: int, c: int)
    requires Target(cols, columnMap, headers, g, r, c).Some?
    ensures Target(cols, columnMap, headers, g, r, c).value.0.id in columnMap.Values
  {
    var key := Trim(Lower(headers[c - g.sc]));
    assert key in columnMap;
  }

  /** What every imported guest looks like: an id and a status that are
      strings, other properties only under mapped column ids, and a boolean
      under every checkbox column it has a value for. */
  predicate WellFormedGuest(guest: Guest, cols: seq<Column>, columnMap: map<string, string>)
  {
    && "id" in guest && guest["id"].Str?
    && "status" in guest && guest["status"].Str?
    && (forall k :: k in guest ==> k == "id" || k == "status" || k in columnMap.Values)
    && (forall i ::
          (0 <= i < |cols| && cols[i].kind == CheckboxKind && cols[i].id in columnMap.Values && cols[i].id in guest)
          ==> guest[cols[i].id].Bool?)
  }

  /** With distinct ids, the column found for an id is the only one carrying it. */
  lemma FindByIdUnique(cols: seq<Column>, id: string, i: int)
    requires IdsDistinct(cols)
    requires 0 <= i < |cols| && cols[i].id == id
    ensures FindById(cols, id) == Some(cols[i])
  {
    var r := FindById(cols, id);
    var j :| 0 <= j < |cols| && cols[j] == r.value;
    assert i == j;
  }

  /** The draft of a row is well formed whenever the mapped ids are neither
      `id` nor `status` and the column ids are distinct; its id is the
      generated one. */
  lemma {:induction false} RowDraftWellFormed(cols: seq<Column>, columnMap: map<string, string>, headers: seq<string>,
                                              g: Sheet, guestId: int -> string, r: int, c: int)
    requires IdsDistinct(cols)
    requires "id" !in columnMap.Values && "status" !in columnMap.Values
    ensures WellFormedGuest(RowDraft(cols, columnMap, headers, g, guestId, r, c).guest, cols, columnMap)
    ensures RowDraft(cols, columnMap, headers, g, guestId, r, c).guest["id"] == Str(guestId(r))
    decreases c - g.sc
  {
    if c > g.sc {
      RowDraftWellFormed(cols, columnMap, headers, g, guestId, r, c - 1);
      var d := RowDraft(cols, columnMap, headers, g, guestId, r, c - 1);
      var t := Target(cols, columnMap, headers, g, r, c - 1);
      if t.Some? {
        var col, v := t.value.0, t.value.1;
        var key := Trim(Lower(headers[c - 1 - g.sc]));
        assert key in columnMap && FindById(cols, columnMap[key]) == Some(col);
        assert col.id in columnMap.Values;
        var d' := Fill(d, col, v);
        forall i | 0 <= i < |cols| && cols[i].kind == CheckboxKind && cols[i].id in columnMap.Values
            && cols[i].id in d'.guest
          ensures d'.guest[cols[i].id].Bool?
        {
          if cols[i].id == col.id && col.kind != StatusKind {
            FindByIdUnique(cols, col.id, i);
          }
        }
      }
    }
  }

  /** Every imported guest is well formed. */
  lemma {:induction false} ImportedGuestsWellFormed(cols: seq<Column>, columnMap: map<string, string>, headers: seq<string>,
                                                    g: Sheet, guestId: int -> string, rowIndex: int, r: int)
    requires IdsDistinct(cols)
    requires "id" !in columnMap.Values && "status" !in columnMap.Values
    ensures forall i :: 0 <= i < |ImportedGuests(cols, columnMap, headers, g, guestId, rowIndex, r)| ==>
      WellFormedGuest(ImportedGuests(cols, columnMap, headers, g, guestId, rowIndex, r)[i], cols, columnMap)
    decreases r - rowIndex
  {
    if r > rowIndex + 1 {
      ImportedGuestsWellFormed(cols, columnMap, headers, g, guestId, rowIndex, r - 1);
      RowDraftWellFormed(cols, columnMap, headers, g, guestId, r - 1, g.ec + 1);
    }
  }

  /** At most one guest per row, and none at all exactly when no row below
      the header has a cell with a target. */
  lemma {:induction false} ImportedGuestsCount(cols: seq<Column>, columnMap: map<string, string>, headers: seq<string>,
                                               g: Sheet, guestId: int -> string, rowIndex: int, r: int)
    ensures |ImportedGuests(cols, columnMap, headers, g, guestId, rowIndex, r)| <=
      if r > rowIndex + 1 then r - rowIndex - 1 else 0
    ensures |ImportedGuests(cols, columnMap, headers, g, guestId, rowIndex, r)| == 0 <==>
      NoDataRows(cols, columnMap, headers, g, guestId, rowIndex, r)
    decreases r - rowIndex
  {
    if r > rowIndex + 1 {
      ImportedGuestsCount(cols, columnMap, headers, g, guestId, rowIndex, r - 1);
      if RowHasData(cols, columnMap, headers, g, guestId, r - 1) {
        assert rowIndex < r - 1 < r;
      }
    }
  }

  /** One pass of the inner loop: the cells of row `r`, left to right. */
  method FillRow(cols: seq<Column>, columnMap: map<string, string>, headers: seq<string>,
                 g: Sheet, guestId: int -> string, r: int)
    returns (guest: Guest, hasData: bool)
    ensures Draft(guest, hasData) == RowDraft(cols, columnMap, headers, g, guestId, r, g.ec + 1)
  {
    guest := FreshGuest(guestId(r));
    hasData := false;
    var c := g.sc;
    while c <= g.ec
      invariant g.sc <= c <= g.sc + Width(g)
      invariant Draft(guest, hasData) == RowDraft(cols, columnMap, headers, g, guestId, r, c)
      decreases g.ec - c
    {
      guest, hasData := FillCell(cols, columnMap, headers, g, r, c, guest, hasData);
      c := c + 1;
    }
  }

  /** The body of the inner loop: cell `(r, c)` written into the draft. */
  method FillCell(cols: seq<Column>, columnMap: map<string, string>, headers: seq<string>,
                  g: Sheet, r: int, c: int, guest: Guest, hasData: bool)
    returns (guest': Guest, hasData': bool)
    requires g.sc <= c
    ensures Draft(guest', hasData') ==
      match Target(cols, columnMap, headers, g, r, c)
      case None => Draft(guest, hasData)
      case Some((col, v)) => Fill(Draft(guest, hasData), col, v)
  {
    guest', hasData' := guest, hasData;
    if c - g.sc < |headers| {
      var header := headers[c - g.sc];
      if header != "" && !StartsWith(header, "Column ") {
        var key := Trim(Lower(header));
        if key in columnMap && columnMap[key] != "" {
          var columnId := columnMap[key];
          var column := FindById(cols, columnId);
          var cell := Cell(g, r, c);
          if column.Some? && cell.Some? && cell.value != Str("") {
            var v := cell.value;
            if column.value.kind == CheckboxKind {
              guest' := guest[columnId := Bool(Checked(v))];
            } else if column.value.kind == StatusKind {
              guest' := guest["status" := Str(Display(v))];
            } else {
              guest' := guest[columnId := v];
            }
            hasData' := true;
          }
        }
      }
    }
  }

  /** The row loop: one guest per row below the header that has data. */
  method MaterializeRows(cols: seq<Column>, columnMap: map<string, string>, headers: seq<string>,
                         g: Sheet, guestId: int -> string, rowIndex: int)
    returns (guests: seq<Guest>)
    ensures guests == ImportedGuests(cols, columnMap, headers, g, guestId, rowIndex, g.er + 1)
  {
    guests := [];
    var r := rowIndex + 1;
    while r <= g.er
      invariant rowIndex + 1 <= r && (r <= g.er + 1 || r == rowIndex + 1)
      invariant guests == ImportedGuests(cols, columnMap, headers, g, guestId, rowIndex, r)
      decreases g.er - r
    {
      var guest, hasData := FillRow(cols, columnMap, headers, g, guestId, r);
      if hasData {
        guests := guests + [guest];
      }
      r := r + 1;
    }
  }
}
