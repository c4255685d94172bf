/**
  `Array.prototype.filter` on sequences, and what it means for the result to
  be the order-preserving selection of the kept elements.
 */
module Seqs {

  /** The elements of `s` that `keep` accepts, in their original order. */
  function Filter<T>(s: seq<T>, keep: T -> bool): (r: seq<T>)
    ensures |r| <= |s|
    ensures forall x :: x in r ==> x in s && keep(x)
    ensures forall i :: 0 <= i < |s| && keep(s[i]) ==> s[i] in r
  {
    if s == [] then []
    else (if keep(s[0]) then [s[0]] else []) + Filter(s[1..], keep)
  }

  /** Filtering a one-element sequence. */
  lemma FilterSingleton<T>(a: T, keep: T -> bool)
    ensures Filter([a], keep) == if keep(a) then [a] else []
  {
    assert [a][1..] == [];
  }

  /** Filtering a sequence with a given first element. */
  lemma FilterCons<T>(a: T, s: seq<T>, keep: T -> bool)
    ensures Filter([a] + s, keep) == (if keep(a) then [a] else []) + Filter(s, keep)
  {
    assert ([a] + s)[0] == a && ([a] + s)[1..] == s;
  }

  /** Filtering distributes over concatenation. */
  lemma {:induction false} FilterConcat<T>(a: seq<T>, b: seq<T>, keep: T -> bool)
    ensures Filter(a + b, keep) == Filter(a, keep) + Filter(b, keep)
  {
    if a != [] {
      assert (a + b)[0] == a[0];
      assert (a + b)[1..] == a[1..] + b;
      FilterConcat(a[1..], b, keep);
    } else {
      assert a + b == b;
    }
  }

  /** Filtering a prefix yields a prefix of the filtered sequence. */
  lemma FilterOfPrefix<T>(s: seq<T>, m: int, keep: T -> bool)
    requires 0 <= m <= |s|
    ensures Filter(s[..m], keep) <= Filter(s, keep)
  {
    assert s == s[..m] + s[m..];
    FilterConcat(s[..m], s[m..], keep);
  }

  ghost predicate StrictlyIncreasing(idx: seq<int>) {
    forall a, b :: 0 <= a < b < |idx| ==> idx[a] < idx[b]
  }

  /** `r` lists the elements of `s` at positions `idx`. */
  ghost predicate ReadsAt<T>(r: seq<T>, s: seq<T>, idx: seq<int>) {
    |r| == |idx| && forall k :: 0 <= k < |idx| ==> 0 <= idx[k] < |s| && r[k] == s[idx[k]]
  }

  /** `r` is `s` restricted to the positions `idx`, listed in increasing order,
      and those positions are exactly the ones whose element `keep` accepts. */
  ghost predicate SelectsExactly<T>(r: seq<T>, s: seq<T>, keep: T -> bool, idx: seq<int>) {
    && ReadsAt(r, s, idx)
    && StrictlyIncreasing(idx)
    && (forall i :: 0 <= i < |s| ==> (keep(s[i]) <==> i in idx))
  }

  /** The positions from `lo` on whose element `keep` accepts. */
  function KeptFrom<T>(s: seq<T>, keep: T -> bool, lo: nat): (idx: seq<int>)
    requires lo <= |s|
    ensures forall k :: 0 <= k < |idx| ==> lo <= idx[k] < |s|
    ensures StrictlyIncreasing(idx)
    ensures forall i :: lo <= i < |s| ==> (keep(s[i]) <==> i in idx)
    decreases |s| - lo
  {
    if lo == |s| then []
    else (if keep(s[lo]) then [lo] else []) + KeptFrom(s, keep, lo + 1)
  }

  /** One step of `Filter` and `KeptFrom` from position `lo`. */
  lemma FilterStep<T>(s: seq<T>, keep: T -> bool, lo: nat)
    requires lo < |s|
    ensures Filter(s[lo..], keep) == (if keep(s[lo]) then [s[lo]] else []) + Filter(s[lo + 1..], keep)
    ensures KeptFrom(s, keep, lo) == (if keep(s[lo]) then [lo] else []) + KeptFrom(s, keep, lo + 1)
  {
    assert s[lo..][0] == s[lo];
    assert s[lo..][1..] == s[lo + 1..];
  }

  lemma ReadsAtConcat<T>(a: seq<T>, ia: seq<int>, b: seq<T>, ib: seq<int>, s: seq<T>)
    requires ReadsAt(a, s, ia) && ReadsAt(b, s, ib)
    ensures ReadsAt(a + b, s, ia + ib)
  {
    forall k | 0 <= k < |ia + ib|
      ensures 0 <= (ia + ib)[k] < |s| && (a + b)[k] == s[(ia + ib)[k]]
    {
      if k >= |ia| {
        assert (a + b)[k] == b[k - |a|] && (ia + ib)[k] == ib[k - |ia|];
      }
    }
  }

  lemma {:induction false} FilterSelectsFrom<T>(s: seq<T>, keep: T -> bool, lo: nat)
    requires lo <= |s|
    ensures ReadsAt(Filter(s[lo..], keep), s, KeptFrom(s, keep, lo))
    decreases |s| - lo
  {
    if lo < |s| {
      FilterSelectsFrom(s, keep, lo + 1);
      FilterStep(s, keep, lo);
      var hr, hidx := (if keep(s[lo]) then [s[lo]] else []), (if keep(s[lo]) then [lo] else []);
      assert ReadsAt(hr, s, hidx);
      ReadsAtConcat(hr, hidx, Filter(s[lo + 1..], keep), KeptFrom(s, keep, lo + 1), s);
    }
  }

  /** `filter` keeps exactly the accepted elements, in their original order. */
  lemma FilterSelectsExactly<T>(s: seq<T>, keep: T -> bool)
    ensures exists idx :: SelectsExactly(Filter(s, keep), s, keep, idx)
  {
    FilterSelectsFrom(s, keep, 0);
    assert s[0..] == s;
    assert SelectsExactly(Filter(s, keep), s, keep, KeptFrom(s, keep, 0));
  }
}
