/**
 * `copyColumnData` (src/App.tsx): copies every guest's value in one column
 * into another, converting dates to their ISO form.
 */
module ColumnCopy {
  import opened Wrappers
  import opened Types
  import opened Classify

  /** The copied form of a value: numbers and booleans are kept as they
      are, a date string becomes `toIso` of it, anything else is copied. */
  function CopiedValue(v: Value, toIso: string -> string, dateParses: string -> bool): Value
  {
    match GetDataType(Some(v), dateParses)
    case DateType => Str(toIso(v.s))
    case _ => v
  }

  /** One guest: untouched without a source value, else the target set. */
  function CopyGuest(guest: Guest, source: string, target: string,
                     toIso: string -> string, dateParses: string -> bool): Guest
  {
    match Get(guest, source)
    case None => guest
    case Some(v) => guest[target := CopiedValue(v, toIso, dateParses)]
  }

  /** The copy applied to every guest, in order. */
  function CopyColumn(guests: seq<Guest>, source: string, target: string,
                      toIso: string -> string, dateParses: string -> bool): seq<Guest>
  {
    seq(|guests|, i requires 0 <= i < |guests| => CopyGuest(guests[i], source, target, toIso, dateParses))
  }

  /** Numbers stay the same number, booleans the same boolean, strings that
      are not dates the same string; only date strings are rewritten. */
  lemma CopiedValueKinds(v: Value, toIso: string -> string, dateParses: string -> bool)
    ensures !v.Str? ==> CopiedValue(v, toIso, dateParses) == v
    ensures v.Str? && !(dateParses(v.s) && '-' in v.s) ==> CopiedValue(v, toIso, dateParses) == v
    ensures v.Str? && dateParses(v.s) && '-' in v.s ==> CopiedValue(v, toIso, dateParses) == Str(toIso(v.s))
  {
  }

  /** The guest count and order are kept; a guest without a source value is
      returned unchanged; any other guest gains or changes only the target
      property, which holds the copied source value. */
  lemma CopyColumnFrame(guests: seq<Guest>, source: string, target: string,
                        toIso: string -> string, dateParses: string -> bool)
    ensures |CopyColumn(guests, source, target, toIso, dateParses)| == |guests|
    ensures forall i :: 0 <= i < |guests| && source !in guests[i] ==>
      CopyColumn(guests, source, target, toIso, dateParses)[i] == guests[i]
    ensures forall i :: 0 <= i < |guests| && source in guests[i] ==>
      && CopyColumn(guests, source, target, toIso, dateParses)[i].Keys == guests[i].Keys + {target}
      && CopyColumn(guests, source, target, toIso, dateParses)[i][target] == CopiedValue(guests[i][source], toIso, dateParses)
      && forall k :: k in guests[i] && k != target ==> CopyColumn(guests, source, target, toIso, dateParses)[i][k] == guests[i][k]
  {
  }
}
