/**
 * The column schema built by `processImportedData` (src/App.tsx): one
 * column per real header, a `Status` column when none was recognised, and
 * the map from lower-cased header to column id used to place row values.
 */
module Schema {
  import opened Wrappers
  import opened Text
  import opened Types
  import opened Sheet
  import opened Classify
  import opened Sampling
  import opened Seqs

  /** `col_<stamp>_<index>`, where `stamp` is the text of `Date.now()`. */
  function ColumnId(stamp: string, index: nat): string
  {
    "col_" + stamp + "_" + NatToString(index)
  }

  /** Columns created at the same instant have distinct ids. */
  lemma ColumnIdInjective(stamp: string, a: nat, b: nat)
    requires ColumnId(stamp, a) == ColumnId(stamp, b)
    ensures a == b
  {
    var p := "col_" + stamp + "_";
    assert ColumnId(stamp, a)[|p|..] == NatToString(a);
    assert ColumnId(stamp, b)[|p|..] == NatToString(b);
    NatToStringInjective(a, b);
  }

  /** A header that yields no column: blank once trimmed, or a placeholder. */
  predicate Skipped(header: string)
  {
    Trim(header) == "" || StartsWith(Trim(header), "Column ")
  }

  /** The key a header is filed under in the column map. */
  function MapKey(header: string): string
  {
    Lower(Trim(header))
  }

  function Somes(vs: seq<Value>): (r: seq<Option<Value>>)
    ensures |r| == |vs|
    ensures forall i :: 0 <= i < |vs| ==> r[i] == Some(vs[i])
  {
    seq(|vs|, i requires 0 <= i < |vs| => Some(vs[i]))
  }

  /** The column made for header number `index`, from the samples of its trimmed name. */
  function MakeColumn(g: Sheet, headers: seq<string>, rowIndex: int, stamp: string,
                      dateParses: string -> bool, index: nat): Column
    requires index < |headers|
  {
    var name := Trim(headers[index]);
    var vs := Samples(g, headers, rowIndex, name);
    Column(ColumnId(stamp, index), name, ColumnKindOf(name, Somes(vs)),
           Some(true), Some(index), Some(ColumnTag(vs, dateParses)))
  }

  /** The column each header would make, in header order. */
  function Candidates(g: Sheet, headers: seq<string>, rowIndex: int, stamp: string,
                      dateParses: string -> bool): seq<Column>
  {
    seq(|headers|, i requires 0 <= i < |headers| => MakeColumn(g, headers, rowIndex, stamp, dateParses, i))
  }

  /** The candidates of those among the first `n` headers that are not skipped, in header order. */
  function Kept(cands: seq<Column>, headers: seq<string>, n: nat): seq<Column>
    requires n <= |headers| && n <= |cands|
  {
    if n == 0 then []
    else Kept(cands, headers, n - 1) + (if Skipped(headers[n - 1]) then [] else [cands[n - 1]])
  }

  /** The columns made for the first `n` headers, in header order. */
  function HeaderColumns(g: Sheet, headers: seq<string>, rowIndex: int, stamp: string,
                         dateParses: string -> bool, n: nat): seq<Column>
    requires n <= |headers|
  {
    Kept(Candidates(g, headers, rowIndex, stamp, dateParses), headers, n)
  }

  /** The column added when no imported column is a status column. */
  function StatusColumn(order: nat): Column
  {
    Column("status", "Status", StatusKind, Some(true), Some(order), None)
  }

  /** `newColumns` once the header loop and the status check have run. */
  function ImportSchema(g: Sheet, headers: seq<string>, rowIndex: int, stamp: string,
                        dateParses: string -> bool): seq<Column>
  {
    var cols := HeaderColumns(g, headers, rowIndex, stamp, dateParses, |headers|);
    if HasStatusColumn(cols) then cols else cols + [StatusColumn(|cols|)]
  }

  /** `columnMap` after the first `n` headers: a later header with the same key replaces an earlier one. */
  function ColumnMap(headers: seq<string>, stamp: string, n: nat): map<string, string>
    requires n <= |headers|
  {
    if n == 0 then map[]
    else
      var m := ColumnMap(headers, stamp, n - 1);
      if Skipped(headers[n - 1]) then m else m[MapKey(headers[n - 1]) := ColumnId(stamp, n - 1)]
  }

  /** The header makes a column and is filed under `key` in the column map. */
  predicate FiledUnder(header: string, key: string)
  {
    !Skipped(header) && MapKey(header) == key
  }

  /** Reference definition: the last of the first `n` headers filed under `key`. */
  function LastWithKey(headers: seq<string>, key: string, n: nat): (r: Option<nat>)
    requires n <= |headers|
    ensures r.Some? ==> r.value < n
  {
    LastWhere(headers, h => FiledUnder(h, key), n)
  }

  lemma LastWithKeyMeaning(headers: seq<string>, key: string, n: nat)
    requires n <= |headers|
    ensures LastWithKey(headers, key, n).None? <==> forall j :: 0 <= j < n ==> !FiledUnder(headers[j], key)
    ensures LastWithKey(headers, key, n).Some? ==>
      var j := LastWithKey(headers, key, n).value;
      && j < n && FiledUnder(headers[j], key)
      && forall j' :: j < j' < n ==> !FiledUnder(headers[j'], key)
  {
    LastWhereMeaning(headers, h => FiledUnder(h, key), n);
  }

  /** The column map sends every key to the id made for the last header filed under it. */
  lemma {:induction false} ColumnMapLastWins(headers: seq<string>, stamp: string, n: nat, key: string)
    requires n <= |headers|
    ensures key in ColumnMap(headers, stamp, n) <==> LastWithKey(headers, key, n).Some?
    ensures key in ColumnMap(headers, stamp, n) ==>
      ColumnMap(headers, stamp, n)[key] == ColumnId(stamp, LastWithKey(headers, key, n).value)
  {
    if n > 0 {
      ColumnMapLastWins(headers, stamp, n - 1, key);
    }
  }

  /** `c` is the column made for one of the first `n` headers, a real one. */
  predicate MadeFromHeader(g: Sheet, headers: seq<string>, rowIndex: int, stamp: string,
                           dateParses: string -> bool, n: nat, c: Column)
    requires n <= |headers|
  {
    exists j :: 0 <= j < n && !Skipped(headers[j]) && c == MakeColumn(g, headers, rowIndex, stamp, dateParses, j)
  }

  /** Every candidate kept carries the index of its header as its order,
      and the kept candidates come in strictly increasing header order. */
  lemma {:induction false} KeptOrdered(cands: seq<Column>, headers: seq<string>, n: nat)
    requires n <= |headers| && n <= |cands|
    requires forall j :: 0 <= j < |cands| ==> cands[j].order == Some(j)
    ensures forall i :: 0 <= i < |Kept(cands, headers, n)| ==>
      var k := Kept(cands, headers, n)[i];
      k.order.Some? && 0 <= k.order.value < n && k == cands[k.order.value] && !Skipped(headers[k.order.value])
    ensures forall i, j :: 0 <= i < j < |Kept(cands, headers, n)| ==>
      Kept(cands, headers, n)[i].order.value < Kept(cands, headers, n)[j].order.value
  {
    if n > 0 {
      KeptOrdered(cands, headers, n - 1);
      var prefix := Kept(cands, headers, n - 1);
      var kept := Kept(cands, headers, n);
      assert forall i :: 0 <= i < |prefix| ==> kept[i] == prefix[i];
    }
  }

  /** Every header among the first `n` that is not skipped has its candidate kept. */
  lemma {:induction false} KeptComplete(cands: seq<Column>, headers: seq<string>, n: nat, j: nat)
    requires j < n <= |headers| && n <= |cands|
    requires !Skipped(headers[j])
    ensures cands[j] in Kept(cands, headers, n)
  {
    var prev := Kept(cands, headers, n - 1);
    var extra := if Skipped(headers[n - 1]) then [] else [cands[n - 1]];
    assert Kept(cands, headers, n) == prev + extra;
    if j < n - 1 {
      KeptComplete(cands, headers, n - 1, j);
      assert cands[j] in prev;
    } else {
      assert extra == [cands[j]];
    }
  }

  /** At most one candidate per header is kept, and all of them exactly
      when no header is skipped. */
  lemma {:induction false} KeptCount(cands: seq<Column>, headers: seq<string>, n: nat)
    requires n <= |headers| && n <= |cands|
    ensures |Kept(cands, headers, n)| <= n
    ensures |Kept(cands, headers, n)| == n <==> forall j :: 0 <= j < n ==> !Skipped(headers[j])
  {
    if n > 0 {
      KeptCount(cands, headers, n - 1);
      if !Skipped(headers[n - 1]) && forall j :: 0 <= j < n - 1 ==> !Skipped(headers[j]) {
        assert forall j :: 0 <= j < n ==> !Skipped(headers[j]);
      }
    }
  }

  /** The candidate of header `i` is the column made for it: its id is made
      from `i`, its order is `i` and it is visible. */
  lemma CandidatesShape(g: Sheet, headers: seq<string>, rowIndex: int, stamp: string,
                        dateParses: string -> bool)
    ensures |Candidates(g, headers, rowIndex, stamp, dateParses)| == |headers|
    ensures forall i :: 0 <= i < |headers| ==>
      Candidates(g, headers, rowIndex, stamp, dateParses)[i] == MakeColumn(g, headers, rowIndex, stamp, dateParses, i)
    ensures forall i :: 0 <= i < |headers| ==>
      && Candidates(g, headers, rowIndex, stamp, dateParses)[i].order == Some(i)
      && Candidates(g, headers, rowIndex, stamp, dateParses)[i].id == ColumnId(stamp, i)
      && Candidates(g, headers, rowIndex, stamp, dateParses)[i].visible == Some(true)
  {
  }

  /** Every column made for the first `n` headers comes from a real header. */
  lemma HeaderColumnsShape(g: Sheet, headers: seq<string>, rowIndex: int, stamp: string,
                           dateParses: string -> bool, n: nat)
    requires n <= |headers|
    ensures forall i :: 0 <= i < |HeaderColumns(g, headers, rowIndex, stamp, dateParses, n)| ==>
      MadeFromHeader(g, headers, rowIndex, stamp, dateParses, n, HeaderColumns(g, headers, rowIndex, stamp, dateParses, n)[i])
  {
    var cands := Candidates(g, headers, rowIndex, stamp, dateParses);
    CandidatesShape(g, headers, rowIndex, stamp, dateParses);
    KeptOrdered(cands, headers, n);
    var cols := Kept(cands, headers, n);
    forall i | 0 <= i < |cols|
      ensures MadeFromHeader(g, headers, rowIndex, stamp, dateParses, n, cols[i])
    {
      var j := cols[i].order.value;
      assert cols[i] == cands[j] == MakeColumn(g, headers, rowIndex, stamp, dateParses, j);
    }
  }

  /** The made columns keep header order: their orders are the header
      indices, strictly increasing, and each id is made from its order. */
  lemma HeaderColumnsOrdered(g: Sheet, headers: seq<string>, rowIndex: int, stamp: string,
                             dateParses: string -> bool, n: nat)
    requires n <= |headers|
    ensures forall i :: 0 <= i < |HeaderColumns(g, headers, rowIndex, stamp, dateParses, n)| ==>
      HeaderColumns(g, headers, rowIndex, stamp, dateParses, n)[i].order.Some? &&
      0 <= HeaderColumns(g, headers, rowIndex, stamp, dateParses, n)[i].order.value < n &&
      HeaderColumns(g, headers, rowIndex, stamp, dateParses, n)[i].id ==
        ColumnId(stamp, HeaderColumns(g, headers, rowIndex, stamp, dateParses, n)[i].order.value)
    ensures forall i, j :: 0 <= i < j < |HeaderColumns(g, headers, rowIndex, stamp, dateParses, n)| ==>
      HeaderColumns(g, headers, rowIndex, stamp, dateParses, n)[i].order.value <
      HeaderColumns(g, headers, rowIndex, stamp, dateParses, n)[j].order.value
  {
    var cands := Candidates(g, headers, rowIndex, stamp, dateParses);
    CandidatesShape(g, headers, rowIndex, stamp, dateParses);
    KeptOrdered(cands, headers, n);
  }

  /** Every real header among the first `n` gets its column. */
  lemma HeaderColumnsComplete(g: Sheet, headers: seq<string>, rowIndex: int, stamp: string,
                              dateParses: string -> bool, n: nat, j: nat)
    requires j < n <= |headers|
    requires !Skipped(headers[j])
    ensures MakeColumn(g, headers, rowIndex, stamp, dateParses, j) in HeaderColumns(g, headers, rowIndex, stamp, dateParses, n)
  {
    var cands := Candidates(g, headers, rowIndex, stamp, dateParses);
    CandidatesShape(g, headers, rowIndex, stamp, dateParses);
    KeptComplete(cands, headers, n, j);
  }

  /** No two columns of the imported schema share an id. */
  lemma ImportSchemaIdsDistinct(g: Sheet, headers: seq<string>, rowIndex: int, stamp: string,
                                dateParses: string -> bool)
    ensures IdsDistinct(ImportSchema(g, headers, rowIndex, stamp, dateParses))
  {
    var cols := HeaderColumns(g, headers, rowIndex, stamp, dateParses, |headers|);
    var schema := ImportSchema(g, headers, rowIndex, stamp, dateParses);
    HeaderColumnsOrdered(g, headers, rowIndex, stamp, dateParses, |headers|);
    forall i, j | 0 <= i < j < |schema|
      ensures schema[i].id != schema[j].id
    {
      assert schema[i] == cols[i];
      if j < |cols| {
        assert schema[j] == cols[j];
        if schema[i].id == schema[j].id {
          ColumnIdInjective(stamp, cols[i].order.value, cols[j].order.value);
        }
      } else {
        assert schema[j].id == "status";
        assert cols[i].id == ColumnId(stamp, cols[i].order.value);
        assert schema[i].id[..4] == "col_";
        assert "status"[0] == 's' != 'c' == schema[i].id[0];
      }
    }
  }

  /** The imported schema always has a status column: an imported one, or the added one. */
  lemma ImportSchemaHasStatus(g: Sheet, headers: seq<string>, rowIndex: int, stamp: string,
                              dateParses: string -> bool)
    ensures HasStatusColumn(ImportSchema(g, headers, rowIndex, stamp, dateParses))
  {
    var cols := HeaderColumns(g, headers, rowIndex, stamp, dateParses, |headers|);
    if !HasStatusColumn(cols) {
      assert ImportSchema(g, headers, rowIndex, stamp, dateParses)[|cols|].kind == StatusKind;
    }
  }

  /** Every column of the imported schema is visible. */
  lemma ImportSchemaVisible(g: Sheet, headers: seq<string>, rowIndex: int, stamp: string,
                            dateParses: string -> bool)
    ensures forall i :: 0 <= i < |ImportSchema(g, headers, rowIndex, stamp, dateParses)| ==>
      ImportSchema(g, headers, rowIndex, stamp, dateParses)[i].visible == Some(true)
  {
    var n := |headers|;
    var cols := HeaderColumns(g, headers, rowIndex, stamp, dateParses, n);
    var schema := ImportSchema(g, headers, rowIndex, stamp, dateParses);
    HeaderColumnsShape(g, headers, rowIndex, stamp, dateParses, n);
    forall i | 0 <= i < |schema|
      ensures schema[i].visible == Some(true)
    {
      if i < |cols| {
        assert schema[i] == cols[i];
        assert MadeFromHeader(g, headers, rowIndex, stamp, dateParses, n, cols[i]);
      }
    }
  }

  /** The made columns number at most the headers, and exactly as many
      when no header is skipped. */
  lemma HeaderColumnsCount(g: Sheet, headers: seq<string>, rowIndex: int, stamp: string,
                           dateParses: string -> bool, n: nat)
    requires n <= |headers|
    ensures |HeaderColumns(g, headers, rowIndex, stamp, dateParses, n)| <= n
    ensures |HeaderColumns(g, headers, rowIndex, stamp, dateParses, n)| == n <==>
      forall j :: 0 <= j < n ==> !Skipped(headers[j])
  {
    CandidatesShape(g, headers, rowIndex, stamp, dateParses);
    KeptCount(Candidates(g, headers, rowIndex, stamp, dateParses), headers, n);
  }

  /** The added status column comes last and its order is the number of
      made columns, not of headers. So once a header is skipped, the
      status column shares its order with the column of the header at that
      index, when that header is a real one. */
  lemma StatusOrderCountsMadeColumns(g: Sheet, headers: seq<string>, rowIndex: int, stamp: string,
                                     dateParses: string -> bool)
    requires !HasStatusColumn(HeaderColumns(g, headers, rowIndex, stamp, dateParses, |headers|))
    ensures var made := |HeaderColumns(g, headers, rowIndex, stamp, dateParses, |headers|)|;
      var schema := ImportSchema(g, headers, rowIndex, stamp, dateParses);
      && |schema| == made + 1
      && schema[made] == StatusColumn(made)
      && made <= |headers|
      && (made == |headers| <==> forall j :: 0 <= j < |headers| ==> !Skipped(headers[j]))
      && (made < |headers| && !Skipped(headers[made]) ==>
            exists i :: 0 <= i < made && schema[i].order == schema[made].order)
  {
    var cols := HeaderColumns(g, headers, rowIndex, stamp, dateParses, |headers|);
    var schema := ImportSchema(g, headers, rowIndex, stamp, dateParses);
    var made := |cols|;
    HeaderColumnsCount(g, headers, rowIndex, stamp, dateParses, |headers|);
    if made < |headers| && !Skipped(headers[made]) {
      HeaderColumnsComplete(g, headers, rowIndex, stamp, dateParses, |headers|, made);
      var c := MakeColumn(g, headers, rowIndex, stamp, dateParses, made);
      var i :| 0 <= i < made && cols[i] == c;
      assert schema[i] == c && c.order == Some(made);
    }
  }

  /** Every id in the column map belongs to a column of the imported schema,
      the one made for the last header filed under that key. */
  lemma ColumnMapTargetsSchema(g: Sheet, headers: seq<string>, rowIndex: int, stamp: string,
                               dateParses: string -> bool, key: string)
    requires key in ColumnMap(headers, stamp, |headers|)
    ensures LastWithKey(headers, key, |headers|).Some?
    ensures MakeColumn(g, headers, rowIndex, stamp, dateParses, LastWithKey(headers, key, |headers|).value)
              in ImportSchema(g, headers, rowIndex, stamp, dateParses)
    ensures ColumnMap(headers, stamp, |headers|)[key] ==
            MakeColumn(g, headers, rowIndex, stamp, dateParses, LastWithKey(headers, key, |headers|).value).id
  {
    ColumnMapLastWins(headers, stamp, |headers|, key);
    LastWithKeyMeaning(headers, key, |headers|);
    var j := LastWithKey(headers, key, |headers|).value;
    HeaderColumnsComplete(g, headers, rowIndex, stamp, dateParses, |headers|, j);
  }

  /** One more header adds its column unless it is skipped. */
  lemma HeaderColumnsStep(g: Sheet, headers: seq<string>, rowIndex: int, stamp: string,
                          dateParses: string -> bool, n: nat)
    requires n < |headers|
    ensures HeaderColumns(g, headers, rowIndex, stamp, dateParses, n + 1) ==
      HeaderColumns(g, headers, rowIndex, stamp, dateParses, n) +
      (if Skipped(headers[n]) then [] else [MakeColumn(g, headers, rowIndex, stamp, dateParses, n)])
  {
    assert Candidates(g, headers, rowIndex, stamp, dateParses)[n] == MakeColumn(g, headers, rowIndex, stamp, dateParses, n);
  }

  /** The column the loop builds from the sample and type tables is the one
      made for the header. */
  lemma MakeColumnFromTables(g: Sheet, headers: seq<string>, rowIndex: int, stamp: string, dateParses: string -> bool,
                             samples: map<string, seq<Value>>, types: map<string, DataTag>, index: nat)
    requires index < |headers|
    requires forall h :: Lookup(samples, h) == Samples(g, headers, rowIndex, h)
    requires TagsAgree(samples, types, dateParses)
    ensures var name := Trim(headers[index]);
      MakeColumn(g, headers, rowIndex, stamp, dateParses, index) ==
      Column(ColumnId(stamp, index), name, ColumnKindOf(name, Somes(Lookup(samples, name))), Some(true), Some(index),
             Some(if name in types then types[name] else StringType))
  {
    var name := Trim(headers[index]);
    assert TagAt(types, name) == TagOf(Lookup(samples, name), dateParses);
    assert Lookup(samples, name) == Samples(g, headers, rowIndex, name);
  }

  /** The header loop of `processImportedData` and the status check after it. */
  method BuildSchema(g: Sheet, headers: seq<string>, rowIndex: int, stamp: string, dateParses: string -> bool,
                     samples: map<string, seq<Value>>, types: map<string, DataTag>)
    returns (columns: seq<Column>, columnMap: map<string, string>)
    requires forall h :: Lookup(samples, h) == Samples(g, headers, rowIndex, h)
    requires TagsAgree(samples, types, dateParses)
    ensures columns == ImportSchema(g, headers, rowIndex, stamp, dateParses)
    ensures columnMap == ColumnMap(headers, stamp, |headers|)
  {
    columns, columnMap := [], map[];
    var index := 0;
    while index < |headers|
      invariant 0 <= index <= |headers|
      invariant columns == HeaderColumns(g, headers, rowIndex, stamp, dateParses, index)
      invariant columnMap == ColumnMap(headers, stamp, index)
    {
      columns, columnMap := BuildColumn(g, headers, rowIndex, stamp, dateParses, samples, types, index, columns, columnMap);
      index := index + 1;
    }
    if !HasStatusColumn(columns) {
      columns := columns + [StatusColumn(|columns|)];
    }
  }

  /** One pass of `BuildSchema`'s loop: the header at `index` adds its
      column and its map entry, unless it is blank or a placeholder. */
  method BuildColumn(g: Sheet, headers: seq<string>, rowIndex: int, stamp: string, dateParses: string -> bool,
                     samples: map<string, seq<Value>>, types: map<string, DataTag>, index: nat,
                     columns: seq<Column>, columnMap: map<string, string>)
    returns (columns': seq<Column>, columnMap': map<string, string>)
    requires index < |headers|
    requires forall h :: Lookup(samples, h) == Samples(g, headers, rowIndex, h)
    requires TagsAgree(samples, types, dateParses)
    requires columns == HeaderColumns(g, headers, rowIndex, stamp, dateParses, index)
    requires columnMap == ColumnMap(headers, stamp, index)
    ensures columns' == HeaderColumns(g, headers, rowIndex, stamp, dateParses, index + 1)
    ensures columnMap' == ColumnMap(headers, stamp, index + 1)
  {
    HeaderColumnsStep(g, headers, rowIndex, stamp, dateParses, index);
    columns', columnMap' := columns, columnMap;
    var name := Trim(headers[index]);
    if name != "" && !StartsWith(name, "Column ") {
      var columnId := ColumnId(stamp, index);
      columnMap' := columnMap[Lower(name) := columnId];
      var kind := DetermineColumnType(name, Somes(Lookup(samples, name)));
      var dataType := if name in types then types[name] else StringType;
      MakeColumnFromTables(g, headers, rowIndex, stamp, dateParses, samples, types, index);
      columns' := columns + [Column(columnId, name, kind, Some(true), Some(index), Some(dataType))];
    }
  }
}
