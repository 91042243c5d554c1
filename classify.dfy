/**
 * Type classification of imported values and columns
 * (`getDataType` and `determineColumnType`, src/App.tsx).
 */
module Classify {
  import opened Wrappers
  import opened Text
  import opened Types

  /** `getDataType`: the datatype tag of a single value. `dateParses` stands
      for `!isNaN(Date.parse(s))`. */
  function GetDataType(v: Option<Value>, dateParses: string -> bool): (t: DataTag)
    ensures t != Mixed
    ensures t == NullType <==> v.None?
    ensures t == BooleanType <==> v.Some? && v.value.Bool?
    ensures t == IntegerType <==> v.Some? && v.value.Int?
    ensures t == FloatType <==> v.Some? && v.value.Frac?
    ensures t == DateType <==> v.Some? && v.value.Str? && dateParses(v.value.s) && '-' in v.value.s
    ensures t == StringType <==> v.Some? && v.value.Str? && !(dateParses(v.value.s) && '-' in v.value.s)
  {
    match v
    case None => NullType
    case Some(Bool(_)) => BooleanType
    case Some(Int(_)) => IntegerType
    case Some(Frac(_)) => FloatType
    case Some(Str(s)) => if dateParses(s) && '-' in s then DateType else StringType
  }

  /** A sample that votes for a checkbox column: a boolean, or one of
      yes/no/true/false/y/n once lower-cased and trimmed. */
  predicate IsBooleanLike(v: Value)
  {
    match v
    case Bool(_) => true
    case Str(s) =>
      var t := Trim(Lower(s));
      t == "yes" || t == "no" || t == "true" || t == "false" || t == "y" || t == "n"
    case _ => false
  }

  /** Number of boolean-like samples; missing values are not counted. */
  function BooleanCount(values: seq<Option<Value>>): nat
  {
    if |values| == 0 then 0
    else
      var last := values[|values| - 1];
      BooleanCount(values[..|values| - 1]) + (if last.Some? && IsBooleanLike(last.value) then 1 else 0)
  }

  /** Number of present samples that are not boolean-like. */
  function NonBooleanCount(values: seq<Option<Value>>): nat
  {
    if |values| == 0 then 0
    else
      var last := values[|values| - 1];
      NonBooleanCount(values[..|values| - 1]) + (if last.Some? && !IsBooleanLike(last.value) then 1 else 0)
  }

  /** Number of present samples. */
  function PresentCount(values: seq<Option<Value>>): nat
  {
    if |values| == 0 then 0
    else PresentCount(values[..|values| - 1]) + (if values[|values| - 1].Some? then 1 else 0)
  }

  /** Every present sample is counted exactly once, missing ones never. */
  lemma {:induction false} TallyPartitionsPresent(values: seq<Option<Value>>)
    ensures BooleanCount(values) + NonBooleanCount(values) == PresentCount(values) <= |values|
  {
    if |values| > 0 {
      TallyPartitionsPresent(values[..|values| - 1]);
    }
  }

  /** Header names that make a column a checkbox column outright. */
  predicate IsCheckboxHeader(headerLower: string)
  {
    Contains(headerLower, "check") || Contains(headerLower, "arrived")
    || headerLower == "present" || headerLower == "attending" || headerLower == "confirmed"
  }

  /** The kind `determineColumnType` gives a column: status by header, then
      checkbox by header, then checkbox by majority vote of the samples. */
  function ColumnKindOf(header: string, values: seq<Option<Value>>): ColumnKind
  {
    var headerLower := Lower(header);
    if Contains(headerLower, "status") then StatusKind
    else if IsCheckboxHeader(headerLower) then CheckboxKind
    else
      var booleans := BooleanCount(values);
      if booleans > 0 && booleans > NonBooleanCount(values) * 2 then CheckboxKind else TextKind
  }

  /** The classifier only yields status, checkbox or text, and each outcome
      happens exactly when its rule is the first that applies. */
  lemma ColumnKindCases(header: string, values: seq<Option<Value>>)
    ensures var k := ColumnKindOf(header, values);
      && (k == StatusKind <==> Contains(Lower(header), "status"))
      && (k == CheckboxKind <==>
            !Contains(Lower(header), "status") &&
            (IsCheckboxHeader(Lower(header)) ||
             (BooleanCount(values) > 0 && BooleanCount(values) > 2 * NonBooleanCount(values))))
      && (k == TextKind <==> k != StatusKind && k != CheckboxKind)
  {
  }

  /** `determineColumnType`: classifies a column from its header and its samples. */
  method DetermineColumnType(header: string, values: seq<Option<Value>>) returns (kind: ColumnKind)
    ensures kind == ColumnKindOf(header, values)
  {
    var headerLower := Lower(header);
    if Contains(headerLower, "status") {
      return StatusKind;
    }
    if IsCheckboxHeader(headerLower) {
      return CheckboxKind;
    }
    var booleanCount := 0;
    var nonBooleanCount := 0;
    var i := 0;
    while i < |values|
      invariant 0 <= i <= |values|
      invariant booleanCount == BooleanCount(values[..i])
      invariant nonBooleanCount == NonBooleanCount(values[..i])
    {
      assert values[..i + 1][..i] == values[..i];
      var value := values[i];
      if value.Some? {
        if IsBooleanLike(value.value) {
          booleanCount := booleanCount + 1;
        } else {
          nonBooleanCount := nonBooleanCount + 1;
        }
      }
      i := i + 1;
    }
    assert values[..i] == values;
    if booleanCount > 0 && booleanCount > nonBooleanCount * 2 {
      return CheckboxKind;
    }
    return TextKind;
  }

  /** The samples of `MajorityVoteExample`: "yes" and "no" are boolean-like, "x" is not. */
  lemma SampleVotes()
    ensures IsBooleanLike(Str("yes")) && IsBooleanLike(Str("no")) && !IsBooleanLike(Str("x"))
  {
    LowerTrimsTo("yes");
    LowerTrimsTo("no");
    LowerTrimsTo("x");
  }

  /** A lower-case word without spaces is its own lower-cased, trimmed form. */
  lemma LowerTrimsTo(w: string)
    requires w == "yes" || w == "no" || w == "x"
    ensures Trim(Lower(w)) == w
  {
    if w == "yes" {
      assert Lower("yes") == "yes";
    } else if w == "no" {
      assert Lower("no") == "no";
    } else {
      assert Lower("x") == "x";
    }
    assert SkipSpaces(w, 0) == 0;
    assert DropTrailingSpaces(w, 0, |w|) == |w|;
  }

  /** The header "RSVP" names neither a status nor a checkbox column. */
  lemma RsvpIsPlainHeader()
    ensures !Contains(Lower("RSVP"), "status") && !IsCheckboxHeader(Lower("RSVP"))
  {
    var h := Lower("RSVP");
    assert h == "rsvp";
    assert !Contains(h[1..][1..][1..], "check") && !Contains(h[1..][1..][1..], "arrived");
  }

  /** A column whose samples are yes, no, yes and x is a checkbox column:
      three boolean-like votes beat twice the one other. */
  lemma MajorityVoteExample()
    ensures ColumnKindOf("RSVP", [Some(Str("yes")), Some(Str("no")), Some(Str("yes")), Some(Str("x"))]) == CheckboxKind
  {
    var values := [Some(Str("yes")), Some(Str("no")), Some(Str("yes")), Some(Str("x"))];
    SampleVotes();
    assert values[..3] == [Some(Str("yes")), Some(Str("no")), Some(Str("yes"))];
    assert values[..3][..2] == [Some(Str("yes")), Some(Str("no"))];
    assert values[..3][..2][..1] == [Some(Str("yes"))];
    assert BooleanCount(values[..3][..2][..1]) == 1 && NonBooleanCount(values[..3][..2][..1]) == 0;
    assert BooleanCount(values[..3][..2]) == 2 && NonBooleanCount(values[..3][..2]) == 0;
    assert BooleanCount(values[..3]) == 3 && NonBooleanCount(values[..3]) == 0;
    assert BooleanCount(values) == 3 && NonBooleanCount(values) == 1;
    RsvpIsPlainHeader();
  }
}
