/** Sequence relations used by more than one module. */
module Seqs {
  /** `a` is `b` with some entries dropped and the rest kept in order. */
  predicate Subsequence<T(==)>(a: seq<T>, b: seq<T>)
    decreases |b|
  {
    if a == [] then true
    else if b == [] then false
    else (a[|a| - 1] == b[|b| - 1] && Subsequence(a[..|a| - 1], b[..|b| - 1])) || Subsequence(a, b[..|b| - 1])
  }

  /** `s.map(f)`, built the way a loop appends: one entry per element, in order. */
  function Map<A, B>(f: A -> B, s: seq<A>): (r: seq<B>)
    ensures |r| == |s|
    ensures forall i :: 0 <= i < |s| ==> r[i] == f(s[i])
  {
    if s == [] then [] else Map(f, s[..|s| - 1]) + [f(s[|s| - 1])]
  }

  /** `s.filter(f)`: the entries `f` accepts, in their order in `s`. */
  function KeepIf<T>(f: T -> bool, s: seq<T>): seq<T> {
    if s == [] then [] else (if f(s[0]) then [s[0]] else []) + KeepIf(f, s[1..])
  }

  lemma {:induction false} KeepIfAppend<T>(f: T -> bool, a: seq<T>, b: seq<T>)
    ensures KeepIf(f, a + b) == KeepIf(f, a) + KeepIf(f, b)
  {
    if a != [] {
      assert (a + b)[1..] == a[1..] + b;
      KeepIfAppend(f, a[1..], b);
    } else {
      assert a + b == b;
    }
  }

  lemma {:induction false} KeepIfNone<T>(f: T -> bool, s: seq<T>)
    requires forall i :: 0 <= i < |s| ==> !f(s[i])
    ensures KeepIf(f, s) == []
  {
    if s != [] {
      KeepIfNone(f, s[1..]);
    }
  }

  /** A non-empty sequence holds its front and its last entry. */
  lemma MultisetSnoc<T>(s: seq<T>)
    requires s != []
    ensures multiset(s) == multiset(s[..|s| - 1]) + multiset{s[|s| - 1]}
  {
    assert s == s[..|s| - 1] + [s[|s| - 1]];
  }

  /** A non-empty sequence holds its first entry and its tail. */
  lemma MultisetCons<T>(s: seq<T>)
    requires s != []
    ensures multiset(s) == multiset{s[0]} + multiset(s[1..])
  {
    assert s == [s[0]] + s[1..];
  }
}
