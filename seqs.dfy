/** Sequence helpers shared by the preprocessor and the scorer: counting the
    elements that satisfy a test, and the list-comprehension filter
    `[x for x in s if p(x)]` together with what it preserves. */
module Seqs {

  /** Number of elements of `s` that satisfy `p`. It is defined from the back,
      so that a loop running from left to right extends it one element at a
      time. */
  function Count<T>(s: seq<T>, p: T -> bool): (n: nat)
    ensures n <= |s|
  {
    if s == [] then 0
    else Count(s[..|s| - 1], p) + (if p(s[|s| - 1]) then 1 else 0)
  }

  /** The elements of `s` that satisfy `p`, in their original order. */
  function Filter<T>(s: seq<T>, p: T -> bool): (r: seq<T>)
    ensures |r| <= |s|
  {
    if s == [] then [] else (if p(s[0]) then [s[0]] else []) + Filter(s[1..], p)
  }

  /** `sub` is `s` with some of its elements left out and the others kept in
      their relative order. */
  predicate IsSubsequence<T(==)>(sub: seq<T>, s: seq<T>)
  {
    if sub == [] then true
    else if s == [] then false
    else if sub[0] == s[0] then IsSubsequence(sub[1..], s[1..])
    else IsSubsequence(sub, s[1..])
  }

  /** Extending a prefix by one element extends its count by that element's
      contribution. */
  lemma CountStep<T>(s: seq<T>, i: nat, p: T -> bool)
    requires i < |s|
    ensures Count(s[..i + 1], p) == Count(s[..i], p) + (if p(s[i]) then 1 else 0)
  {
    assert s[..i + 1][..i] == s[..i];
  }

  /** Counting distributes over concatenation. */
  lemma {:induction false} CountAppend<T>(a: seq<T>, b: seq<T>, p: T -> bool)
    ensures Count(a + b, p) == Count(a, p) + Count(b, p)
    decreases |b|
  {
    if b == [] {
      assert a + b == a;
    } else {
      var b' := b[..|b| - 1];
      assert (a + b)[..|a + b| - 1] == a + b';
      CountAppend(a, b', p);
    }
  }

  /** Counting can equally be read from the front. */
  lemma CountFront<T>(s: seq<T>, p: T -> bool)
    requires s != []
    ensures Count(s, p) == (if p(s[0]) then 1 else 0) + Count(s[1..], p)
  {
    assert s == [s[0]] + s[1..];
    CountAppend([s[0]], s[1..], p);
    assert [s[0]][..0] == [];
  }

  /** The filter keeps exactly as many elements as satisfy the test. */
  lemma {:induction false} FilterLength<T>(s: seq<T>, p: T -> bool)
    ensures |Filter(s, p)| == Count(s, p)
  {
    if s != [] {
      FilterLength(s[1..], p);
      CountFront(s, p);
    }
  }

  /** The filter keeps every occurrence of a kept value and no occurrence of
      any other value. */
  lemma {:induction false} FilterMultiplicity<T>(s: seq<T>, p: T -> bool, x: T)
    ensures multiset(Filter(s, p))[x] == if p(x) then multiset(s)[x] else 0
  {
    if s != [] {
      FilterMultiplicity(s[1..], p, x);
      assert s == [s[0]] + s[1..];
    }
  }

  /** Filtering by a test that every element counted by `p` passes leaves
      the count by `p` unchanged. */
  lemma {:induction false} CountAfterFilter<T>(s: seq<T>, q: T -> bool, p: T -> bool)
    requires forall x :: p(x) ==> q(x)
    ensures Count(Filter(s, q), p) == Count(s, p)
  {
    if |s| > 0 {
      CountAfterFilter(s[1..], q, p);
      CountFront(s, p);
      var rest := Filter(s[1..], q);
      if q(s[0]) {
        assert Filter(s, q) == [s[0]] + rest;
        CountFront([s[0]] + rest, p);
        assert ([s[0]] + rest)[1..] == rest;
      } else {
        assert Filter(s, q) == rest;
      }
    }
  }

  /** Filtering first by a test that everything `p` keeps passes, then by
      `p`, is the same as filtering by `p` alone. */
  lemma {:induction false} FilterAfterFilter<T>(s: seq<T>, q: T -> bool, p: T -> bool)
    requires forall x :: p(x) ==> q(x)
    ensures Filter(Filter(s, q), p) == Filter(s, p)
  {
    if |s| > 0 {
      FilterAfterFilter(s[1..], q, p);
      var rest := Filter(s[1..], q);
      if q(s[0]) {
        assert Filter(s, q) == [s[0]] + rest;
        assert ([s[0]] + rest)[1..] == rest;
      } else {
        assert Filter(s, q) == rest;
      }
    }
  }

  /** The filter keeps the relative order of what it keeps. */
  lemma {:induction false} FilterIsSubsequence<T>(s: seq<T>, p: T -> bool)
    ensures IsSubsequence(Filter(s, p), s)
  {
    if s != [] {
      FilterIsSubsequence(s[1..], p);
      var rest := Filter(s[1..], p);
      if !p(s[0]) {
        assert Filter(s, p) == rest;
        if |rest| > 0 {
          FilterMembership(s[1..], p, rest[0]);
        }
      } else {
        assert Filter(s, p) == [s[0]] + rest;
      }
    }
  }

  /** A kept value found in `s` is found in the filter, and conversely. */
  lemma FilterMembership<T>(s: seq<T>, p: T -> bool, x: T)
    ensures x in Filter(s, p) <==> x in s && p(x)
  {
    FilterMultiplicity(s, p, x);
  }

  /** The count depends only on which elements occur how often, not on their
      order. */
  lemma CountPermutation<T>(a: seq<T>, b: seq<T>, p: T -> bool)
    requires multiset(a) == multiset(b)
    ensures Count(a, p) == Count(b, p)
  {
    var fa, fb := Filter(a, p), Filter(b, p);
    forall x ensures multiset(fa)[x] == multiset(fb)[x] {
      FilterMultiplicity(a, p, x);
      FilterMultiplicity(b, p, x);
    }
    SameOccurrences(fa, fb);
    FilterLength(a, p);
    FilterLength(b, p);
  }

  /** Filtering two reorderings of one sequence gives two reorderings of one
      sequence. */
  lemma FilterPermutation<T>(a: seq<T>, b: seq<T>, p: T -> bool)
    requires multiset(a) == multiset(b)
    ensures multiset(Filter(a, p)) == multiset(Filter(b, p))
  {
    var fa, fb := Filter(a, p), Filter(b, p);
    forall x ensures multiset(fa)[x] == multiset(fb)[x] {
      FilterMultiplicity(a, p, x);
      FilterMultiplicity(b, p, x);
    }
    SameOccurrences(fa, fb);
  }

  /** Two sequences with the same number of occurrences of every value are
      reorderings of each other and have the same length. */
  lemma SameOccurrences<T>(a: seq<T>, b: seq<T>)
    requires forall x :: multiset(a)[x] == multiset(b)[x]
    ensures multiset(a) == multiset(b)
    ensures |a| == |b|
  {
    assert multiset(a) == multiset(b);
    assert |multiset(a)| == |a| && |multiset(b)| == |b|;
  }
}
