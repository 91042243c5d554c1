/**
 * Column sampling in `processImportedData` (src/App.tsx): the values below
 * the header row that feed the column classifier, and the datatype tag each
 * column accumulates from them.
 */
module Sampling {
  import opened Wrappers
  import opened Types
  import opened Sheet
  import opened Classify

  /** Last row sampled: at most ten rows below the header, within the range. */
  function SampleEnd(g: Sheet, rowIndex: int): int
  {
    Min(g.er, rowIndex + 10)
  }

  /** What cell `(r, c)` adds to the samples of header `h`. */
  function CellSample(g: Sheet, headers: seq<string>, r: int, c: int, h: string): seq<Value>
  {
    var k := c - g.sc;
    if 0 <= k < |headers| && h != "" && headers[k] == h && Cell(g, r, c).Some?
    then [Cell(g, r, c).value]
    else []
  }

  /** Samples of header `h` in row `r`, columns `s.c` up to (not including) `c`. */
  function RowSamples(g: Sheet, headers: seq<string>, r: int, c: int, h: string): seq<Value>
    decreases c - g.sc
  {
    if c <= g.sc then [] else RowSamples(g, headers, r, c - 1, h) + CellSample(g, headers, r, c - 1, h)
  }

  /** Samples of header `h` in rows `lo` up to (not including) `r`, row by row. */
  function WindowSamples(g: Sheet, headers: seq<string>, lo: int, r: int, h: string): seq<Value>
    decreases r - lo
  {
    if r <= lo then [] else WindowSamples(g, headers, lo, r - 1, h) + RowSamples(g, headers, r - 1, g.ec + 1, h)
  }

  /** `columnSamples[h]`: the present values under every column labelled `h`,
      from the rows `rowIndex + 1 .. min(e.r, rowIndex + 10)`. Columns that
      share a label share their samples. */
  function Samples(g: Sheet, headers: seq<string>, rowIndex: int, h: string): seq<Value>
  {
    WindowSamples(g, headers, rowIndex + 1, SampleEnd(g, rowIndex) + 1, h)
  }

  /** One step of the tag accumulation: the first tag sticks, a different one makes it mixed. */
  function MergeTag(acc: Option<DataTag>, t: DataTag): DataTag
  {
    match acc
    case None => t
    case Some(a) => if a == t then a else Mixed
  }

  /** `columnTypes[h]` after the given samples, or nothing when there were none. */
  function TagOf(vs: seq<Value>, dateParses: string -> bool): Option<DataTag>
  {
    if |vs| == 0 then None
    else Some(MergeTag(TagOf(vs[..|vs| - 1], dateParses), GetDataType(Some(vs[|vs| - 1]), dateParses)))
  }

  /** The tag recorded for a column, the string tag when none was recorded. */
  function ColumnTag(vs: seq<Value>, dateParses: string -> bool): DataTag
  {
    match TagOf(vs, dateParses)
    case None => StringType
    case Some(t) => t
  }

  /** The tag is the type of the first sample as long as all samples share
      it, and `Mixed` as soon as one differs; no samples give no tag. */
  lemma {:induction false} TagOfMeaning(vs: seq<Value>, dateParses: string -> bool)
    ensures TagOf(vs, dateParses).None? <==> |vs| == 0
    ensures |vs| > 0 ==>
      var first := GetDataType(Some(vs[0]), dateParses);
      && ((forall i :: 0 <= i < |vs| ==> GetDataType(Some(vs[i]), dateParses) == first) ==>
            TagOf(vs, dateParses) == Some(first))
      && ((exists i :: 0 <= i < |vs| && GetDataType(Some(vs[i]), dateParses) != first) ==>
            TagOf(vs, dateParses) == Some(Mixed))
  {
    if |vs| > 1 {
      var init := vs[..|vs| - 1];
      TagOfMeaning(init, dateParses);
      var first := GetDataType(Some(vs[0]), dateParses);
      assert init[0] == vs[0];
      if exists i :: 0 <= i < |vs| && GetDataType(Some(vs[i]), dateParses) != first {
        var i :| 0 <= i < |vs| && GetDataType(Some(vs[i]), dateParses) != first;
        if i < |vs| - 1 {
          assert init[i] == vs[i];
        }
      } else {
        forall i | 0 <= i < |init|
          ensures GetDataType(Some(init[i]), dateParses) == first
        {
          assert init[i] == vs[i];
        }
      }
    }
  }

  /** The column tag never reports the type of a missing value. */
  lemma ColumnTagIsNeverNull(vs: seq<Value>, dateParses: string -> bool)
    ensures ColumnTag(vs, dateParses) != NullType
  {
    if |vs| > 0 {
      NoNullTag(vs, dateParses);
    }
  }

  lemma {:induction false} NoNullTag(vs: seq<Value>, dateParses: string -> bool)
    ensures TagOf(vs, dateParses) != Some(NullType)
  {
    if |vs| > 0 {
      NoNullTag(vs[..|vs| - 1], dateParses);
    }
  }

  function Lookup(m: map<string, seq<Value>>, h: string): seq<Value>
  {
    if h in m then m[h] else []
  }

  function TagAt(m: map<string, DataTag>, h: string): Option<DataTag>
  {
    if h in m then Some(m[h]) else None
  }

  /** Every header's tag is the one its samples give. */
  ghost predicate TagsAgree(samples: map<string, seq<Value>>, types: map<string, DataTag>, dateParses: string -> bool)
  {
    forall h {:trigger TagAt(types, h)} :: TagAt(types, h) == TagOf(Lookup(samples, h), dateParses)
  }

  /** Appending a sample merges its type into the tag. */
  lemma TagOfSnoc(vs: seq<Value>, v: Value, dateParses: string -> bool)
    ensures TagOf(vs + [v], dateParses) == Some(MergeTag(TagOf(vs, dateParses), GetDataType(Some(v), dateParses)))
  {
    assert (vs + [v])[..|vs|] == vs;
  }

  /** One cell of the sampling loop: the value is appended to its header's
      samples and merged into its header's tag. */
  method SampleCell(g: Sheet, headers: seq<string>, r: int, c: int, dateParses: string -> bool,
                    samples: map<string, seq<Value>>, types: map<string, DataTag>)
    returns (samples': map<string, seq<Value>>, types': map<string, DataTag>)
    requires TagsAgree(samples, types, dateParses)
    ensures forall h :: Lookup(samples', h) == Lookup(samples, h) + CellSample(g, headers, r, c, h)
    ensures TagsAgree(samples', types', dateParses)
  {
    samples', types' := samples, types;
    var k := c - g.sc;
    if 0 <= k < |headers| && headers[k] != "" && Cell(g, r, c).Some? {
      var header := headers[k];
      var value := Cell(g, r, c).value;
      var before := Lookup(samples, header);
      assert TagAt(types, header) == TagOf(before, dateParses);
      samples' := samples[header := before + [value]];
      var dataType := GetDataType(Some(value), dateParses);
      if header !in types {
        types' := types[header := dataType];
      } else if types[header] != dataType {
        types' := types[header := Mixed];
      }
      TagOfSnoc(before, value, dateParses);
      forall h
        ensures TagAt(types', h) == TagOf(Lookup(samples', h), dateParses)
        ensures Lookup(samples', h) == Lookup(samples, h) + CellSample(g, headers, r, c, h)
      {
        if h == header {
          assert CellSample(g, headers, r, c, h) == [value];
        } else {
          assert TagAt(types', h) == TagAt(types, h);
          assert CellSample(g, headers, r, c, h) == [];
          AppendNothing(Lookup(samples, h));
        }
      }
    } else {
      forall h ensures Lookup(samples', h) == Lookup(samples, h) + CellSample(g, headers, r, c, h) {
        assert CellSample(g, headers, r, c, h) == [];
        AppendNothing(Lookup(samples, h));
      }
    }
  }

  lemma AppendNothing(a: seq<Value>)
    ensures a + [] == a
  {
  }

  lemma RowSamplesSnoc(g: Sheet, headers: seq<string>, r: int, c: int, h: string)
    requires g.sc <= c
    ensures RowSamples(g, headers, r, c + 1, h) == RowSamples(g, headers, r, c, h) + CellSample(g, headers, r, c, h)
  {
  }

  lemma AppendAssoc(a: seq<Value>, b: seq<Value>, x: seq<Value>)
    ensures (a + b) + x == a + (b + x)
  {
  }

  /** No column before the first one contributes samples. */
  lemma RowSamplesBefore(g: Sheet, headers: seq<string>, r: int, c: int)
    requires c <= g.sc
    ensures forall h :: RowSamples(g, headers, r, c, h) == []
  {
  }

  lemma NothingSampledYet(g: Sheet, headers: seq<string>, r: int, base: map<string, seq<Value>>)
    ensures forall h :: Lookup(base, h) == Lookup(base, h) + RowSamples(g, headers, r, g.sc, h)
  {
    forall h ensures Lookup(base, h) == Lookup(base, h) + RowSamples(g, headers, r, g.sc, h) {
      assert RowSamples(g, headers, r, g.sc, h) == [];
      assert Lookup(base, h) + [] == Lookup(base, h);
    }
  }

  /** Adding the samples of cell `c` to those of the cells before it gives
      the samples of the cells up to and including `c`. */
  lemma RowSamplesStep(g: Sheet, headers: seq<string>, r: int, c: int,
                       base: map<string, seq<Value>>, mid: map<string, seq<Value>>, next: map<string, seq<Value>>)
    requires g.sc <= c
    requires forall h :: Lookup(mid, h) == Lookup(base, h) + RowSamples(g, headers, r, c, h)
    requires forall h :: Lookup(next, h) == Lookup(mid, h) + CellSample(g, headers, r, c, h)
    ensures forall h :: Lookup(next, h) == Lookup(base, h) + RowSamples(g, headers, r, c + 1, h)
  {
    forall h ensures Lookup(next, h) == Lookup(base, h) + RowSamples(g, headers, r, c + 1, h) {
      RowSamplesSnoc(g, headers, r, c, h);
      AppendAssoc(Lookup(base, h), RowSamples(g, headers, r, c, h), CellSample(g, headers, r, c, h));
    }
  }

  /** One row of the sampling loop, left to right. */
  method SampleRow(g: Sheet, headers: seq<string>, r: int, dateParses: string -> bool,
                   samples: map<string, seq<Value>>, types: map<string, DataTag>)
    returns (samples': map<string, seq<Value>>, types': map<string, DataTag>)
    requires TagsAgree(samples, types, dateParses)
    ensures forall h :: Lookup(samples', h) == Lookup(samples, h) + RowSamples(g, headers, r, g.ec + 1, h)
    ensures TagsAgree(samples', types', dateParses)
  {
    samples', types' := samples, types;
    var c := g.sc;
    NothingSampledYet(g, headers, r, samples);
    while c <= g.ec
      invariant g.sc <= c && (c <= g.ec + 1 || c == g.sc)
      invariant forall h :: Lookup(samples', h) == Lookup(samples, h) + RowSamples(g, headers, r, c, h)
      invariant TagsAgree(samples', types', dateParses)
      decreases g.ec - c
    {
      ghost var mid := samples';
      samples', types' := SampleCell(g, headers, r, c, dateParses, samples', types');
      RowSamplesStep(g, headers, r, c, samples, mid, samples');
      c := c + 1;
    }
    if c != g.ec + 1 {
      RowSamplesBefore(g, headers, r, c);
      RowSamplesBefore(g, headers, r, g.ec + 1);
    }
  }

  /** The sampling loop of `processImportedData`: fills `columnSamples` and
      `columnTypes` from the rows below the header row. */
  method SampleColumns(g: Sheet, headers: seq<string>, rowIndex: int, dateParses: string -> bool)
    returns (samples: map<string, seq<Value>>, types: map<string, DataTag>)
    ensures forall h :: Lookup(samples, h) == Samples(g, headers, rowIndex, h)
    ensures TagsAgree(samples, types, dateParses)
  {
    samples, types := map[], map[];
    var last := SampleEnd(g, rowIndex);
    var r := rowIndex + 1;
    while r <= last
      invariant rowIndex + 1 <= r && (r <= last + 1 || r == rowIndex + 1)
      invariant forall h :: Lookup(samples, h) == WindowSamples(g, headers, rowIndex + 1, r, h)
      invariant TagsAgree(samples, types, dateParses)
      decreases last - r
    {
      samples, types := SampleRow(g, headers, r, dateParses, samples, types);
      r := r + 1;
    }
  }
}
