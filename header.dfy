/**
 * The worksheet as the import pipeline sees it, and the header-row locator
 * (`findHeaderRow`, src/App.tsx).
 */
module Sheet {
  import opened Wrappers
  import opened Types

  /** A worksheet: the decoded range `s.r..e.r` x `s.c..e.c` and its cells.
      A sheet without a range is read as the range of cell A1 (all bounds 0). */
  datatype Sheet = Sheet(sr: int, er: int, sc: int, ec: int, cells: map<(int, int), Value>)

  /** The value of cell `(r, c)`, absent when the cell or its value is missing. */
  function Cell(g: Sheet, r: int, c: int): Option<Value>
  {
    if (r, c) in g.cells then Some(g.cells[(r, c)]) else None
  }

  /** Number of columns in the range. */
  function Width(g: Sheet): nat
  {
    if g.ec < g.sc then 0 else g.ec - g.sc + 1
  }

  function Min(a: int, b: int): int
  {
    if a <= b then a else b
  }

  /** The first row in `r..last` that satisfies `p`, scanning downwards. */
  function FirstRowWhere(p: int -> bool, r: int, last: int): Option<int>
    decreases last - r
  {
    if r > last then None
    else if p(r) then Some(r)
    else FirstRowWhere(p, r + 1, last)
  }

  lemma {:induction false} FirstRowWhereIsFirst(p: int -> bool, r: int, last: int)
    ensures FirstRowWhere(p, r, last).Some? ==>
      var k := FirstRowWhere(p, r, last).value;
      r <= k <= last && p(k) && forall j :: r <= j < k ==> !p(j)
    ensures FirstRowWhere(p, r, last).None? ==> forall j :: r <= j <= last ==> !p(j)
    decreases last - r
  {
    if r <= last && !p(r) {
      FirstRowWhereIsFirst(p, r + 1, last);
    }
  }
}

module HeaderLocator {
  import opened Wrappers
  import opened Text
  import opened Types
  import opened Sheet

  /** The label used for an empty header cell: `Column <1-based offset>`. */
  function Placeholder(k: int): string
  {
    "Column " + IntToString(k)
  }

  /** The label of the cell of row `r` at offset `k` from the first column:
      its trimmed text, or the placeholder of its column. */
  function Label(g: Sheet, r: int, k: int): string
  {
    match Cell(g, r, g.sc + k)
    case Some(v) => Trim(Display(v))
    case None => Placeholder(k + 1)
  }

  /** The labels of row `r`, one per column of the range, left to right. */
  function RowLabels(g: Sheet, r: int): (labels: seq<string>)
    ensures |labels| == Width(g)
    ensures forall i :: 0 <= i < |labels| ==> labels[i] == Label(g, r, i)
  {
    seq(Width(g), i requires 0 <= i < Width(g) => Label(g, r, i))
  }

  /** Cell `(r, c)` holds "name", ignoring case and surrounding white space. */
  predicate IsNameCell(g: Sheet, r: int, c: int)
  {
    Cell(g, r, c).Some? && Lower(Trim(Display(Cell(g, r, c).value))) == "name"
  }

  /** Some cell of row `r` in columns `c..e.c` holds "name". */
  predicate NameCellFrom(g: Sheet, r: int, c: int)
    decreases g.ec - c
  {
    c <= g.ec && (IsNameCell(g, r, c) || NameCellFrom(g, r, c + 1))
  }

  /** Row `r` holds a "name" cell. */
  predicate HasNameCell(g: Sheet, r: int)
  {
    NameCellFrom(g, r, g.sc)
  }

  lemma {:induction false} NameCellFromIsSome(g: Sheet, r: int, c: int)
    ensures NameCellFrom(g, r, c) <==> exists j :: c <= j <= g.ec && IsNameCell(g, r, j)
    decreases g.ec - c
  {
    if c <= g.ec {
      NameCellFromIsSome(g, r, c + 1);
      if !IsNameCell(g, r, c) && !NameCellFrom(g, r, c + 1) {
        forall j | c <= j <= g.ec
          ensures !IsNameCell(g, r, j)
        {
          if j > c {
            assert c + 1 <= j <= g.ec;
          }
        }
      }
    }
  }

  /** The labels that do not start with "Column " (real labels as the locator sees them). */
  function RealLabels(labels: seq<string>): (r: seq<string>)
    ensures |r| <= |labels|
  {
    if |labels| == 0 then []
    else (if StartsWith(labels[0], "Column ") then [] else [labels[0]]) + RealLabels(labels[1..])
  }

  /** Row `r` has more than one real label. */
  predicate IsLabelRow(g: Sheet, r: int)
  {
    |RealLabels(RowLabels(g, r))| > 1
  }

  /** Last row of the "name" scan: absolute row 10, not `s.r + 10`. */
  function NameScanEnd(g: Sheet): int { Min(g.er, 10) }

  /** Last row of the multi-label scan: absolute row 3. */
  function LabelScanEnd(g: Sheet): int { Min(g.er, 3) }

  /** The first row from `r` on, up to the scan end, holding a "name" cell. */
  function FirstNameRow(g: Sheet, r: int): Option<int>
  {
    FirstRowWhere(row => HasNameCell(g, row), r, NameScanEnd(g))
  }

  /** The first row from `r` on, up to the scan end, with more than one real label. */
  function FirstLabelRow(g: Sheet, r: int): Option<int>
  {
    FirstRowWhere(row => IsLabelRow(g, row), r, LabelScanEnd(g))
  }

  datatype HeaderRow = HeaderRow(headers: seq<string>, rowIndex: int)

  /** What `findHeaderRow` returns: the three-stage cascade. */
  function LocateHeader(g: Sheet): HeaderRow
  {
    match FirstNameRow(g, g.sr)
    case Some(r) => HeaderRow(RowLabels(g, r), r)
    case None =>
      match FirstLabelRow(g, g.sr)
      case Some(r) => HeaderRow(RowLabels(g, r), r)
      case None => HeaderRow(RowLabels(g, g.sr), g.sr)
  }

  /** The headers are the labels of the chosen row, one per column of the range. */
  lemma HeaderIsRowLabels(g: Sheet)
    ensures |LocateHeader(g).headers| == Width(g)
    ensures LocateHeader(g).headers == RowLabels(g, LocateHeader(g).rowIndex)
  {
  }

  /** Stage one: when some row up to absolute row 10 holds a "name" cell,
      the header row is the earliest such row. */
  lemma HeaderPrefersNameRow(g: Sheet, r: int)
    requires g.sr <= r <= NameScanEnd(g) && HasNameCell(g, r)
    ensures var k := LocateHeader(g).rowIndex;
      g.sr <= k <= r && HasNameCell(g, k) &&
      forall j :: g.sr <= j < k ==> !HasNameCell(g, j)
  {
    var p := row => HasNameCell(g, row);
    FirstRowWhereIsFirst(p, g.sr, NameScanEnd(g));
    assert p(r);
    var k := FirstNameRow(g, g.sr).value;
    forall j | g.sr <= j < k
      ensures !HasNameCell(g, j)
    {
      assert !p(j);
    }
  }

  /** Stage two: with no "name" row, the header row is the earliest row up to
      absolute row 3 with more than one real label. */
  lemma HeaderFallsBackToLabelRow(g: Sheet, r: int)
    requires forall j :: g.sr <= j <= NameScanEnd(g) ==> !HasNameCell(g, j)
    requires g.sr <= r <= LabelScanEnd(g) && IsLabelRow(g, r)
    ensures var k := LocateHeader(g).rowIndex;
      g.sr <= k <= r && IsLabelRow(g, k) &&
      forall j :: g.sr <= j < k ==> !IsLabelRow(g, j)
  {
    var p := row => HasNameCell(g, row);
    var q := row => IsLabelRow(g, row);
    FirstRowWhereIsFirst(p, g.sr, NameScanEnd(g));
    FirstRowWhereIsFirst(q, g.sr, LabelScanEnd(g));
    forall j | g.sr <= j <= NameScanEnd(g)
      ensures !p(j)
    {
    }
    assert q(r);
    var k := FirstLabelRow(g, g.sr).value;
    forall j | g.sr <= j < k
      ensures !IsLabelRow(g, j)
    {
      assert !q(j);
    }
  }

  /** Stage three: with neither kind of row, the header row is the first row. */
  lemma HeaderFallsBackToFirstRow(g: Sheet)
    requires forall j :: g.sr <= j <= NameScanEnd(g) ==> !HasNameCell(g, j)
    requires forall j :: g.sr <= j <= LabelScanEnd(g) ==> !IsLabelRow(g, j)
    ensures LocateHeader(g).rowIndex == g.sr
  {
    var p := row => HasNameCell(g, row);
    var q := row => IsLabelRow(g, row);
    FirstRowWhereIsFirst(p, g.sr, NameScanEnd(g));
    FirstRowWhereIsFirst(q, g.sr, LabelScanEnd(g));
    forall j | g.sr <= j <= NameScanEnd(g)
      ensures !p(j)
    {
    }
    forall j | g.sr <= j <= LabelScanEnd(g)
      ensures !q(j)
    {
    }
  }

  /** An empty header cell at column `c` becomes `Column <c - s.c + 1>`. */
  lemma EmptyHeaderCellIsPlaceholder(g: Sheet, c: int)
    requires g.sc <= c <= g.ec
    requires Cell(g, LocateHeader(g).rowIndex, c).None?
    ensures LocateHeader(g).headers[c - g.sc] == Placeholder(c - g.sc + 1)
  {
    var located := LocateHeader(g);
    HeaderIsRowLabels(g);
    assert located.headers[c - g.sc] == Label(g, located.rowIndex, c - g.sc);
  }

  /** The first pass of the row scan: does row `r` hold a "name" cell? */
  method RowHasName(g: Sheet, r: int) returns (found: bool)
    ensures found == HasNameCell(g, r)
  {
    found := false;
    var c := g.sc;
    while c <= g.ec
      invariant NameCellFrom(g, r, c) == HasNameCell(g, r)
      decreases g.ec - c
    {
      var isName := CellIsName(g, r, c);
      if isName {
        found := true;
        return;
      }
      c := c + 1;
    }
  }

  /** One step of `RowHasName`: whether cell `(r, c)` trims and lower-cases to "name". */
  method CellIsName(g: Sheet, r: int, c: int) returns (isName: bool)
    ensures isName == IsNameCell(g, r, c)
  {
    var cell := Cell(g, r, c);
    isName := false;
    if cell.Some? {
      var value := Trim(Display(cell.value));
      isName := Lower(value) == "name";
    }
  }

  /** Collects the labels of row `r`, with placeholders for empty cells. */
  method CollectRowLabels(g: Sheet, r: int) returns (labels: seq<string>)
    ensures labels == RowLabels(g, r)
  {
    labels := [];
    ghost var all := RowLabels(g, r);
    var c := g.sc;
    while c <= g.ec
      invariant g.sc <= c <= g.sc + Width(g)
      invariant labels == all[..c - g.sc]
      decreases g.ec - c
    {
      LabelsStep(g, r, c, labels);
      labels := labels + [Label(g, r, c - g.sc)];
      c := c + 1;
    }
    assert all[..c - g.sc] == all;
  }

  /** Appending the label of column `c` extends the collected prefix of the row by one. */
  lemma LabelsStep(g: Sheet, r: int, c: int, labels: seq<string>)
    requires g.sc <= c <= g.ec
    requires labels == RowLabels(g, r)[..c - g.sc]
    ensures labels + [Label(g, r, c - g.sc)] == RowLabels(g, r)[..c - g.sc + 1]
  {
    var all := RowLabels(g, r);
    var k := c - g.sc;
    PrefixSnoc(all, k, labels, all[k]);
  }

  /** A prefix extended by the next element is the prefix one longer. */
  lemma PrefixSnoc<T>(s: seq<T>, k: nat, prefix: seq<T>, x: T)
    requires k < |s| && prefix == s[..k] && s[k] == x
    ensures prefix + [x] == s[..k + 1]
  {
  }

  /** `findHeaderRow`: scans for a "name" row, then for a row with several
      real labels, then falls back to the first row. */
  method FindHeaderRow(g: Sheet) returns (headers: seq<string>, rowIndex: int)
    ensures HeaderRow(headers, rowIndex) == LocateHeader(g)
  {
    var r := g.sr;
    while r <= Min(g.er, 10)
      invariant FirstNameRow(g, r) == FirstNameRow(g, g.sr)
      decreases NameScanEnd(g) - r
    {
      var found := RowHasName(g, r);
      if found {
        headers := CollectRowLabels(g, r);
        rowIndex := r;
        return;
      }
      r := r + 1;
    }

    r := g.sr;
    while r <= Min(g.er, 3)
      invariant FirstLabelRow(g, r) == FirstLabelRow(g, g.sr)
      decreases LabelScanEnd(g) - r
    {
      var rowHeaders := CollectRowLabels(g, r);
      var nonEmptyHeaders := RealLabels(rowHeaders);
      if |nonEmptyHeaders| > 1 {
        headers, rowIndex := rowHeaders, r;
        return;
      }
      r := r + 1;
    }

    headers := CollectRowLabels(g, g.sr);
    rowIndex := g.sr;
  }
}
