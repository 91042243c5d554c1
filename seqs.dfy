/**
 * Sequence operations shared by the handlers and the import: filtering
 * (`Array.prototype.filter`) and the search for the last position that
 * passes a test, with what they preserve.
 */
module Seqs {
  import opened Wrappers

  /** The elements of `s` that satisfy `p`, in order. */
  function Filter<T>(s: seq<T>, p: T -> bool): seq<T>
  {
    if |s| == 0 then [] else (if p(s[0]) then [s[0]] else []) + Filter(s[1..], p)
  }

  /** `a` is `b` with some elements left out, the rest in their order. */
  ghost predicate Subsequence<T>(a: seq<T>, b: seq<T>)
    decreases |b|
  {
    |a| == 0 || (|b| > 0 && ((a[0] == b[0] && Subsequence(a[1..], b[1..])) || Subsequence(a, b[1..])))
  }

  /** Filtering keeps exactly the elements that pass, in their order, and
      changes nothing when all pass. */
  lemma {:induction false} FilterMeaning<T>(s: seq<T>, p: T -> bool)
    ensures forall x :: x in Filter(s, p) <==> x in s && p(x)
    ensures |Filter(s, p)| <= |s|
    ensures Subsequence(Filter(s, p), s)
    ensures (forall i :: 0 <= i < |s| ==> p(s[i])) ==> Filter(s, p) == s
  {
    if |s| > 0 {
      FilterMeaning(s[1..], p);
      assert s == [s[0]] + s[1..];
      var r := Filter(s, p);
      if p(s[0]) {
        assert r[0] == s[0] && r[1..] == Filter(s[1..], p);
      } else {
        assert r == Filter(s[1..], p);
      }
    }
  }

  /** Every position of the filtered sequence holds an element of `s` that passes `p`. */
  lemma FilterAt<T>(s: seq<T>, p: T -> bool)
    ensures forall j :: 0 <= j < |Filter(s, p)| ==> Filter(s, p)[j] in s && p(Filter(s, p)[j])
  {
    FilterMeaning(s, p);
  }

  /** Some element of the filtered sequence has property `q` exactly when
      some element of `s` passes `p` and has `q`. */
  lemma FilterAny<T>(s: seq<T>, p: T -> bool, q: T -> bool)
    ensures (exists j :: 0 <= j < |Filter(s, p)| && q(Filter(s, p)[j])) <==>
            (exists i :: 0 <= i < |s| && p(s[i]) && q(s[i]))
  {
    var r := Filter(s, p);
    FilterMeaning(s, p);
    FilterAt(s, p);
    if exists i :: 0 <= i < |s| && p(s[i]) && q(s[i]) {
      var i :| 0 <= i < |s| && p(s[i]) && q(s[i]);
      assert s[i] in r;
      var j :| 0 <= j < |r| && r[j] == s[i];
      assert q(r[j]);
    }
    if exists j :: 0 <= j < |r| && q(r[j]) {
      var j :| 0 <= j < |r| && q(r[j]);
      assert r[j] in s && p(r[j]);
      var i :| 0 <= i < |s| && s[i] == r[j];
      assert p(s[i]) && q(s[i]);
    }
  }

  /** Filtering never adds occurrences, and keeps every occurrence of an
      element that passes. */
  lemma {:induction false} FilterCounts<T>(s: seq<T>, p: T -> bool)
    ensures multiset(Filter(s, p)) <= multiset(s)
    ensures forall x :: p(x) ==> multiset(Filter(s, p))[x] == multiset(s)[x]
  {
    if |s| > 0 {
      FilterCounts(s[1..], p);
      assert s == [s[0]] + s[1..];
    }
  }

  /** Filtering drops at least one element when one fails. */
  lemma {:induction false} FilterDrops<T>(s: seq<T>, p: T -> bool, i: int)
    requires 0 <= i < |s| && !p(s[i])
    ensures |Filter(s, p)| < |s|
  {
    FilterMeaning(s[1..], p);
    if i > 0 {
      FilterDrops(s[1..], p, i - 1);
    }
  }

  /** Filtering distributes over concatenation. */
  lemma {:induction false} FilterAppend<T>(a: seq<T>, b: seq<T>, p: T -> bool)
    ensures Filter(a + b, p) == Filter(a, p) + Filter(b, p)
  {
    if |a| > 0 {
      FilterAppend(a[1..], b, p);
      assert (a + b)[1..] == a[1..] + b;
    } else {
      assert a + b == b;
    }
  }

  /** The last of the first `n` positions of `s` whose element satisfies `p`. */
  function LastWhere<T>(s: seq<T>, p: T -> bool, n: nat): (r: Option<nat>)
    requires n <= |s|
    ensures r.Some? ==> r.value < n && p(s[r.value])
  {
    if n == 0 then None
    else if p(s[n - 1]) then Some(n - 1)
    else LastWhere(s, p, n - 1)
  }

  /** The position found satisfies `p` and no later one does; none is found
      exactly when no position does. */
  lemma {:induction false} LastWhereMeaning<T>(s: seq<T>, p: T -> bool, n: nat)
    requires n <= |s|
    ensures LastWhere(s, p, n).None? <==> forall j :: 0 <= j < n ==> !p(s[j])
    ensures LastWhere(s, p, n).Some? ==>
      var j := LastWhere(s, p, n).value;
      p(s[j]) && forall j' :: j < j' < n ==> !p(s[j'])
  {
    if n > 0 {
      LastWhereMeaning(s, p, n - 1);
    }
  }
}
