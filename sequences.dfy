/** Order-preserving selection from a sequence: the shape shared by the
    viewer's card filters and the generator's term selection, all of which walk
    a list once and append each element that passes a test. */
module Sequences {

  /** The elements of `s` that satisfy `p`, in their original order. Defined on
      the last element, the way an appending loop builds it. */
  function Filter<T>(s: seq<T>, p: T -> bool): seq<T>
  {
    if s == [] then []
    else Filter(s[..|s| - 1], p) + (if p(s[|s| - 1]) then [s[|s| - 1]] else [])
  }

  /** Extending the walked prefix by one element appends that element exactly
      when it passes. */
  lemma FilterStep<T>(s: seq<T>, i: nat, p: T -> bool)
    requires i < |s|
    ensures Filter(s[..i + 1], p) == Filter(s[..i], p) + (if p(s[i]) then [s[i]] else [])
  {
    assert s[..i + 1][..i] == s[..i];
  }

  /** An element is kept exactly when it occurs in the input and passes. */
  lemma {:induction false} FilterMembership<T>(s: seq<T>, p: T -> bool, x: T)
    ensures x in Filter(s, p) <==> x in s && p(x)
  {
    if s != [] {
      var init := s[..|s| - 1];
      FilterMembership(init, p, x);
      assert s == init + [s[|s| - 1]];
    }
  }

  /** Selection distributes over concatenation: whatever comes first in the
      input comes first in the output. */
  lemma {:induction false} FilterAppend<T>(a: seq<T>, b: seq<T>, p: T -> bool)
    ensures Filter(a + b, p) == Filter(a, p) + Filter(b, p)
  {
    if b == [] {
      assert a + b == a;
    } else {
      var init := b[..|b| - 1];
      assert (a + b)[..|a + b| - 1] == a + init;
      FilterAppend(a, init, p);
    }
  }

  /** When every element passes, the selection is the whole input in order. */
  lemma {:induction false} FilterAllPass<T>(s: seq<T>, p: T -> bool)
    requires forall k :: 0 <= k < |s| ==> p(s[k])
    ensures Filter(s, p) == s
  {
    if s != [] {
      FilterAllPass(s[..|s| - 1], p);
    }
  }

  /** The selection is empty exactly when no element passes. */
  lemma FilterEmptyIff<T>(s: seq<T>, p: T -> bool)
    ensures Filter(s, p) == [] <==> forall k :: 0 <= k < |s| ==> !p(s[k])
  {
    if Filter(s, p) == [] {
      forall k | 0 <= k < |s| ensures !p(s[k]) {
        FilterMembership(s, p, s[k]);
      }
    } else {
      var x := Filter(s, p)[0];
      FilterMembership(s, p, x);
    }
  }

  /** Two tests that agree on every element select the same sequence. */
  lemma {:induction false} FilterCongruence<T>(s: seq<T>, p: T -> bool, q: T -> bool)
    requires forall k :: 0 <= k < |s| ==> p(s[k]) == q(s[k])
    ensures Filter(s, p) == Filter(s, q)
  {
    if s != [] {
      FilterCongruence(s[..|s| - 1], p, q);
    }
  }

  /** The number of occurrences of `x` in `s`. */
  function Occurrences<T(==)>(s: seq<T>, x: T): nat
  {
    if s == [] then 0
    else Occurrences(s[..|s| - 1], x) + (if s[|s| - 1] == x then 1 else 0)
  }

  /** Each element is kept as often as it occurs in the input when it passes,
      and not at all otherwise: nothing is duplicated or dropped. */
  lemma {:induction false} FilterOccurrences<T>(s: seq<T>, p: T -> bool, x: T)
    ensures Occurrences(Filter(s, p), x) == if p(x) then Occurrences(s, x) else 0
  {
    if s != [] {
      var init := s[..|s| - 1];
      var last := s[|s| - 1];
      var tail := if p(last) then [last] else [];
      FilterOccurrences(init, p, x);
      OccurrencesAppend(Filter(init, p), tail, x);
    }
  }

  lemma {:induction false} OccurrencesAppend<T>(a: seq<T>, b: seq<T>, x: T)
    ensures Occurrences(a + b, x) == Occurrences(a, x) + Occurrences(b, x)
  {
    if b == [] {
      assert a + b == a;
    } else {
      var init := b[..|b| - 1];
      assert (a + b)[..|a + b| - 1] == a + init;
      OccurrencesAppend(a, init, x);
    }
  }

  /** The first occurrence of each element of `s`, in order: what a walk that
      remembers the elements it has already met visits. */
  function Distinct<T(==)>(s: seq<T>): seq<T>
  {
    if s == [] then []
    else Distinct(s[..|s| - 1]) + (if s[|s| - 1] in s[..|s| - 1] then [] else [s[|s| - 1]])
  }

  /** Extending the walked prefix by one element appends it exactly when it
      has not been met before. */
  lemma DistinctStep<T>(s: seq<T>, i: nat)
    requires i < |s|
    ensures Distinct(s[..i + 1]) == Distinct(s[..i]) + (if s[i] in s[..i] then [] else [s[i]])
  {
    assert s[..i + 1][..i] == s[..i];
  }

  /** The distinct elements are exactly the elements of the input. */
  lemma {:induction false} DistinctMembership<T>(s: seq<T>, x: T)
    ensures x in Distinct(s) <==> x in s
  {
    if s != [] {
      var init := s[..|s| - 1];
      DistinctMembership(init, x);
      assert s == init + [s[|s| - 1]];
    }
  }

  /** No element is listed twice. */
  predicate NoDuplicates<T(==)>(s: seq<T>)
  {
    forall i, j :: 0 <= i < j < |s| ==> s[i] != s[j]
  }

  /** Two sequences hold the same elements, whatever their order and repetitions. */
  ghost predicate SameElements<T(!new)>(a: seq<T>, b: seq<T>)
  {
    forall x :: x in a <==> x in b
  }

  lemma {:induction false} DistinctHasNoDuplicates<T>(s: seq<T>)
    ensures NoDuplicates(Distinct(s))
  {
    if s != [] {
      var init := s[..|s| - 1];
      var last := s[|s| - 1];
      DistinctHasNoDuplicates(init);
      DistinctMembership(init, last);
    }
  }

  /** The distinct elements, each listed once, are those of the input. */
  lemma DistinctSummary<T(!new)>(s: seq<T>)
    ensures SameElements(Distinct(s), s)
    ensures NoDuplicates(Distinct(s))
  {
    forall x ensures x in Distinct(s) <==> x in s {
      DistinctMembership(s, x);
    }
    DistinctHasNoDuplicates(s);
  }
}
