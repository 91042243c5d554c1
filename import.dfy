/**
 * The outcome of `processImportedData` (src/App.tsx) as one function of the
 * current list and the worksheet: the list with its columns, guests and
 * status tags replaced, or the reason the import was refused.
 */
module Import {
  import opened Wrappers
  import opened Text
  import opened Types
  import opened Sheet
  import opened HeaderLocator
  import opened Sampling
  import opened Schema
  import opened Rows

  /** Why an import leaves the lists untouched. `ProcessingFailed` is the
      catch-all handler's refusal after an exception. */
  datatype ImportError = NoCurrentList | NoHeaderRow | ProcessingFailed | NoGuestData

  /** The properties every JavaScript object inherits from `Object.prototype`. */
  const InheritedKeys: set<string> := {
    "constructor", "hasOwnProperty", "isPrototypeOf", "propertyIsEnumerable",
    "toLocaleString", "toString", "valueOf", "__proto__",
    "__defineGetter__", "__defineSetter__", "__lookupGetter__", "__lookupSetter__"
  }

  /** Some header, once trimmed, names an inherited property. Its sample
      bucket is then the inherited value rather than an array: pushing a
      sample into it throws, and so does the classifier's loop over it
      (no such name contains "status" or a checkbox word, so the classifier
      always reaches that loop). Either way the import ends in the catch. */
  predicate HasInheritedHeader(headers: seq<string>)
  {
    exists i :: 0 <= i < |headers| && Trim(headers[i]) in InheritedKeys
  }

  /** `Array.from(new Set(xs))`: the first occurrence of every element, in order. */
  function Dedup(xs: seq<string>): seq<string>
  {
    if |xs| == 0 then []
    else
      var d := Dedup(xs[..|xs| - 1]);
      if xs[|xs| - 1] in d then d else d + [xs[|xs| - 1]]
  }

  predicate NoDuplicates(xs: seq<string>)
  {
    forall i, j :: 0 <= i < j < |xs| ==> xs[i] != xs[j]
  }

  /** Deduplication keeps exactly the elements, each once. */
  lemma {:induction false} DedupMeaning(xs: seq<string>)
    ensures NoDuplicates(Dedup(xs))
    ensures forall x :: x in Dedup(xs) <==> x in xs
  {
    if |xs| > 0 {
      DedupMeaning(xs[..|xs| - 1]);
      assert xs == xs[..|xs| - 1] + [xs[|xs| - 1]];
    }
  }

  /** A sequence without duplicates survives deduplication unchanged. */
  lemma {:induction false} DedupOfDistinct(xs: seq<string>)
    requires NoDuplicates(xs)
    ensures Dedup(xs) == xs
  {
    if |xs| > 0 {
      var init := xs[..|xs| - 1];
      DedupOfDistinct(init);
      assert xs[|xs| - 1] !in init;
      assert xs == init + [xs[|xs| - 1]];
    }
  }

  /** Deduplicating `xs + ys` keeps `Dedup(xs)` as its prefix: the old tags
      stay first and in their order, new ones follow. */
  lemma {:induction false} DedupAppend(xs: seq<string>, ys: seq<string>)
    ensures |Dedup(xs)| <= |Dedup(xs + ys)|
    ensures Dedup(xs + ys)[..|Dedup(xs)|] == Dedup(xs)
    decreases |ys|
  {
    if |ys| == 0 {
      assert xs + ys == xs;
    } else {
      var init := ys[..|ys| - 1];
      DedupAppend(xs, init);
      assert (xs + ys)[..|xs + ys| - 1] == xs + init;
    }
  }

  /** The non-empty statuses of the guests, in guest order, for guests whose status is a string. */
  function Statuses(guests: seq<Guest>): seq<string>
  {
    if |guests| == 0 then []
    else
      var g := guests[|guests| - 1];
      Statuses(guests[..|guests| - 1]) + (if "status" in g && g["status"].Str? && g["status"].s != "" then [g["status"].s] else [])
  }

  lemma {:induction false} StatusesNonEmpty(guests: seq<Guest>)
    ensures forall i :: 0 <= i < |Statuses(guests)| ==> Statuses(guests)[i] != ""
  {
    if |guests| > 0 {
      StatusesNonEmpty(guests[..|guests| - 1]);
    }
  }

  /** The import of `sheet` into `list` once its header row is located. */
  function ImportAt(list: GuestList, sheet: Sheet, located: HeaderRow, stamp: string, guestId: int -> string,
                    dateParses: string -> bool): Result<GuestList, ImportError>
  {
    var headers := located.headers;
    if |headers| == 0 then Failure(NoHeaderRow)
    else if HasInheritedHeader(headers) then Failure(ProcessingFailed)
    else
      var columns := ImportSchema(sheet, headers, located.rowIndex, stamp, dateParses);
      var columnMap := ColumnMap(headers, stamp, |headers|);
      var guests := ImportedGuests(columns, columnMap, headers, sheet, guestId, located.rowIndex, sheet.er + 1);
      if |guests| == 0 then Failure(NoGuestData)
      else Success(list.(columns := columns, guests := guests,
                         statusTags := Dedup(list.statusTags + Statuses(guests))))
  }

  /** The whole import of `sheet` into `list`. `stamp` is the text of
      `Date.now()` used in column ids, `guestId` the id generated for a row. */
  function ImportOutcome(list: GuestList, sheet: Sheet, stamp: string, guestId: int -> string,
                         dateParses: string -> bool): Result<GuestList, ImportError>
  {
    ImportAt(list, sheet, LocateHeader(sheet), stamp, guestId, dateParses)
  }

  /** The ids in the column map are made ids, never `id` or `status`. */
  lemma ColumnMapAvoidsReservedKeys(headers: seq<string>, stamp: string)
    ensures "id" !in ColumnMap(headers, stamp, |headers|).Values
    ensures "status" !in ColumnMap(headers, stamp, |headers|).Values
  {
    var m := ColumnMap(headers, stamp, |headers|);
    forall key | key in m
      ensures m[key] != "id" && m[key] != "status"
    {
      ColumnMapLastWins(headers, stamp, |headers|, key);
      var j := LastWithKey(headers, key, |headers|).value;
      assert m[key][0] == 'c';
    }
  }

  /** The header row has a label for every column of the range, so the
      import is refused for lack of headers exactly when the range has no columns. */
  lemma ImportNeedsColumns(list: GuestList, sheet: Sheet, stamp: string, guestId: int -> string,
                           dateParses: string -> bool)
    ensures ImportOutcome(list, sheet, stamp, guestId, dateParses) == Failure(NoHeaderRow) <==> Width(sheet) == 0
  {
    HeaderIsRowLabels(sheet);
  }

  /** The whole import fails in the catch-all handler exactly when a header
      row is found and one of its headers names an inherited property. */
  lemma InheritedHeaderFails(list: GuestList, sheet: Sheet, stamp: string, guestId: int -> string,
                             dateParses: string -> bool)
    ensures ImportOutcome(list, sheet, stamp, guestId, dateParses) == Failure(ProcessingFailed) <==>
      Width(sheet) > 0 && HasInheritedHeader(LocateHeader(sheet).headers)
  {
    HeaderIsRowLabels(sheet);
  }

  /** Once headers are found, a header naming an inherited property makes
      the import fail; otherwise it is refused exactly when no row below the
      header row has a cell that lands in a column. */
  lemma ImportNeedsGuests(list: GuestList, sheet: Sheet, located: HeaderRow, stamp: string, guestId: int -> string,
                          dateParses: string -> bool)
    requires |located.headers| > 0
    ensures ImportAt(list, sheet, located, stamp, guestId, dateParses) == Failure(ProcessingFailed) <==>
      HasInheritedHeader(located.headers)
    ensures ImportAt(list, sheet, located, stamp, guestId, dateParses) == Failure(NoGuestData) <==>
      !HasInheritedHeader(located.headers) &&
      NoDataRows(ImportSchema(sheet, located.headers, located.rowIndex, stamp, dateParses),
                 ColumnMap(located.headers, stamp, |located.headers|), located.headers, sheet, guestId,
                 located.rowIndex, sheet.er + 1)
    ensures ImportAt(list, sheet, located, stamp, guestId, dateParses) != Failure(NoHeaderRow)
  {
    var columns := ImportSchema(sheet, located.headers, located.rowIndex, stamp, dateParses);
    var columnMap := ColumnMap(located.headers, stamp, |located.headers|);
    var guests := ImportedGuests(columns, columnMap, located.headers, sheet, guestId, located.rowIndex, sheet.er + 1);
    ImportedGuestsCount(columns, columnMap, located.headers, sheet, guestId, located.rowIndex, sheet.er + 1);
  }

  /** A successful import replaces the columns and guests wholesale and keeps
      the id, name, tasks and categories. The new columns have distinct ids
      and a status column; every guest is well formed, and there is at most
      one guest per row below the header. The status tags are the old ones,
      deduplicated, followed by the new non-empty statuses, with no duplicates. */
  lemma ImportSuccess(list: GuestList, sheet: Sheet, located: HeaderRow, stamp: string, guestId: int -> string,
                      dateParses: string -> bool)
    requires ImportAt(list, sheet, located, stamp, guestId, dateParses).Success?
    ensures var l := ImportAt(list, sheet, located, stamp, guestId, dateParses).value;
      && l.id == list.id && l.name == list.name && l.tasks == list.tasks && l.categories == list.categories
      && IdsDistinct(l.columns) && HasStatusColumn(l.columns)
      && 0 < |l.guests| <= sheet.er - located.rowIndex
      && (forall i :: 0 <= i < |l.guests| ==>
            WellFormedGuest(l.guests[i], l.columns, ColumnMap(located.headers, stamp, |located.headers|)))
      && NoDuplicates(l.statusTags)
      && (forall t :: t in l.statusTags <==> t in list.statusTags || t in Statuses(l.guests))
      && |Dedup(list.statusTags)| <= |l.statusTags|
      && l.statusTags[..|Dedup(list.statusTags)|] == Dedup(list.statusTags)
  {
    var headers := located.headers;
    var columns := ImportSchema(sheet, headers, located.rowIndex, stamp, dateParses);
    var columnMap := ColumnMap(headers, stamp, |headers|);
    var guests := ImportedGuests(columns, columnMap, headers, sheet, guestId, located.rowIndex, sheet.er + 1);
    ImportSchemaIdsDistinct(sheet, headers, located.rowIndex, stamp, dateParses);
    ImportSchemaHasStatus(sheet, headers, located.rowIndex, stamp, dateParses);
    ColumnMapAvoidsReservedKeys(headers, stamp);
    ImportedGuestsWellFormed(columns, columnMap, headers, sheet, guestId, located.rowIndex, sheet.er + 1);
    ImportedGuestsCount(columns, columnMap, headers, sheet, guestId, located.rowIndex, sheet.er + 1);
    DedupMeaning(list.statusTags + Statuses(guests));
    DedupAppend(list.statusTags, Statuses(guests));
  }
}
