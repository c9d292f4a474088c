/** Sequence helpers standing for Python list comprehensions and slices. */
module Seqs {

  /** `[x for x in s if p(x)]`, built from the end so that a loop appending to a list
      can keep `Filter(s[..i], p)` as its invariant. */
  function Filter<T>(s: seq<T>, p: T -> bool): (r: seq<T>)
    ensures |r| <= |s|
    ensures forall x :: x in r ==> x in s && p(x)
    decreases |s|
  {
    if s == [] then []
    else Filter(s[..|s| - 1], p) + (if p(s[|s| - 1]) then [s[|s| - 1]] else [])
  }

  /** An element of `s` that satisfies `p` is kept. */
  lemma {:induction false} FilterKeeps<T>(s: seq<T>, p: T -> bool, x: T)
    requires x in s && p(x)
    ensures x in Filter(s, p)
    decreases |s|
  {
    if s[|s| - 1] != x {
      var k :| 0 <= k < |s| && s[k] == x;
      assert s[..|s| - 1][k] == x;
      FilterKeeps(s[..|s| - 1], p, x);
    }
  }

  /** Filtering keeps the order of the input: it distributes over concatenation. */
  lemma {:induction false} FilterConcat<T>(a: seq<T>, b: seq<T>, p: T -> bool)
    ensures Filter(a + b, p) == Filter(a, p) + Filter(b, p)
    decreases |b|
  {
    if b == [] {
      assert a + b == a;
    } else {
      var b' := b[..|b| - 1];
      assert (a + b)[..|a + b| - 1] == a + b';
      assert (a + b)[|a + b| - 1] == b[|b| - 1];
      FilterConcat(a, b', p);
    }
  }

  /** Filtering one more element of a prefix adds that element exactly when it passes. */
  lemma FilterStep<T>(s: seq<T>, i: nat, p: T -> bool)
    requires i < |s|
    ensures Filter(s[..i + 1], p) == Filter(s[..i], p) + (if p(s[i]) then [s[i]] else [])
  {
    assert s[..i + 1][..i] == s[..i];
  }

  /** Nothing is kept exactly when no element passes. */
  lemma {:induction false} FilterEmpty<T>(s: seq<T>, p: T -> bool)
    ensures Filter(s, p) == [] <==> forall i :: 0 <= i < |s| ==> !p(s[i])
    decreases |s|
  {
    if s != [] {
      var init := s[..|s| - 1];
      FilterEmpty(init, p);
      assert forall i :: 0 <= i < |init| ==> init[i] == s[i];
    }
  }

  /** The first element kept is the first element of `s` that passes. */
  lemma {:induction false} FilterHead<T>(s: seq<T>, p: T -> bool) returns (i: nat)
    requires Filter(s, p) != []
    ensures i < |s| && p(s[i]) && Filter(s, p)[0] == s[i]
    ensures forall j :: 0 <= j < i ==> !p(s[j])
    decreases |s|
  {
    var init := s[..|s| - 1];
    assert forall k :: 0 <= k < |init| ==> init[k] == s[k];
    if Filter(init, p) != [] {
      i := FilterHead(init, p);
    } else {
      FilterEmpty(init, p);
      i := |s| - 1;
    }
  }

  /** When nothing before `k` passes and `s[k]` does, `s[k]` is the first element kept. */
  lemma FirstKept<T>(s: seq<T>, k: nat, p: T -> bool)
    requires k < |s| && Filter(s[..k], p) == [] && p(s[k])
    ensures Filter(s, p) != [] && Filter(s, p)[0] == s[k]
  {
    FilterStep(s, k, p);
    TakeFilterPrefix(s, k + 1, p);
  }

  /** Python's `s[:n]` for a non-negative `n`. */
  function Take<T>(s: seq<T>, n: nat): (r: seq<T>)
    ensures |r| <= n && |r| <= |s|
    ensures r == s[..|r|]
    ensures |r| == n || r == s
  {
    if n <= |s| then s[..n] else s
  }

  /** When a prefix already yields `n` elements, the first `n` elements of the whole filter are
      those of the prefix. */
  lemma TakeFilterPrefix<T>(s: seq<T>, m: nat, p: T -> bool)
    requires m <= |s|
    ensures Take(Filter(s, p), |Filter(s[..m], p)|) == Filter(s[..m], p)
  {
    assert s == s[..m] + s[m..];
    FilterConcat(s[..m], s[m..], p);
  }

  /** Proof hint for loops that append one element at a time: it regroups the accumulated list,
      the new element and what is still to come. */
  lemma AppendAssoc<T>(a: seq<T>, x: T, b: seq<T>)
    ensures (a + [x]) + b == a + ([x] + b)
  {
  }

  /** The concatenation of a list of lists. */
  function Flatten<T>(ss: seq<seq<T>>): (r: seq<T>)
  {
    if ss == [] then [] else ss[0] + Flatten(ss[1..])
  }
}
