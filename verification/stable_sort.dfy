/**
  `Array.prototype.sort` with the comparator `(a, b) => key(a) - key(b)`:
  a stable ascending sort, modelled as insertion sort on sequences.
 */
module StableSort {
  import opened Seqs

  ghost predicate SortedBy<T>(s: seq<T>, key: T -> real) {
    forall i, j :: 0 <= i < j < |s| ==> key(s[i]) <= key(s[j])
  }

  /** Accepts exactly the elements whose key is `k`. */
  function SameKey<T>(key: T -> real, k: real): (same: T -> bool) {
    x => key(x) == k
  }

  /** Puts `x` in front of the first element whose key is not smaller than its own. */
  function Insert<T>(x: T, s: seq<T>, key: T -> real): (r: seq<T>)
    ensures |r| == |s| + 1
    ensures multiset(r) == multiset(s) + multiset{x}
  {
    if s == [] then [x]
    else if key(x) <= key(s[0]) then [x] + s
    else
      assert s == [s[0]] + s[1..];
      [s[0]] + Insert(x, s[1..], key)
  }

  lemma {:induction false} InsertSorted<T>(x: T, s: seq<T>, key: T -> real)
    requires SortedBy(s, key)
    ensures SortedBy(Insert(x, s, key), key)
  {
    if s != [] && key(x) > key(s[0]) {
      var rest := Insert(x, s[1..], key);
      InsertSorted(x, s[1..], key);
      forall j | 0 <= j < |rest|
        ensures key(s[0]) <= key(rest[j])
      {
        assert rest[j] in multiset(rest);
        if rest[j] != x {
          assert rest[j] in multiset(s[1..]);
          var i :| 0 <= i < |s[1..]| && s[1..][i] == rest[j];
          assert s[i + 1] == rest[j];
        }
      }
      assert Insert(x, s, key) == [s[0]] + rest;
    }
  }

  /** The sorted arrangement of `s`. */
  function SortBy<T>(s: seq<T>, key: T -> real): (r: seq<T>)
    ensures |r| == |s|
    ensures SortedBy(r, key)
    ensures multiset(r) == multiset(s)
  {
    if s == [] then []
    else
      assert s == [s[0]] + s[1..];
      InsertSorted(s[0], SortBy(s[1..], key), key);
      Insert(s[0], SortBy(s[1..], key), key)
  }

  lemma {:induction false} InsertKeepsKeyOrder<T>(x: T, s: seq<T>, key: T -> real, k: real)
    ensures Filter(Insert(x, s, key), SameKey(key, k)) == Filter([x] + s, SameKey(key, k))
  {
    if s != [] && key(x) > key(s[0]) {
      var same := SameKey(key, k);
      var rest := Insert(x, s[1..], key);
      assert Insert(x, s, key) == [s[0]] + rest;
      assert s == [s[0]] + s[1..];
      InsertKeepsKeyOrder(x, s[1..], key, k);
      FilterCons(s[0], rest, same);
      FilterCons(x, s[1..], same);
      FilterCons(s[0], s[1..], same);
      FilterCons(x, s, same);
      var headS, headX := (if same(s[0]) then [s[0]] else []), (if same(x) then [x] else []);
      var tail := Filter(s[1..], same);
      if headS == [] {
        assert headS + tail == tail && headS + (headX + tail) == headX + tail;
      } else {
        assert headX == [];
        assert headX + (headS + tail) == headS + tail && headX + tail == tail;
      }
    }
  }

  /** Stability: the elements sharing any one key keep their original relative order. */
  lemma {:induction false} SortByStable<T>(s: seq<T>, key: T -> real, k: real)
    ensures Filter(SortBy(s, key), SameKey(key, k)) == Filter(s, SameKey(key, k))
  {
    if s != [] {
      SortByStable(s[1..], key, k);
      InsertKeepsKeyOrder(s[0], SortBy(s[1..], key), key, k);
      var sorted := SortBy(s[1..], key);
      FilterCons(s[0], sorted, SameKey(key, k));
      FilterCons(s[0], s[1..], SameKey(key, k));
      assert s == [s[0]] + s[1..];
    }
  }

  /** A prefix of a sorted sequence holds its smallest keys: nothing outside the prefix has a smaller key. */
  lemma SortedPrefixIsLeast<T>(s: seq<T>, key: T -> real, m: int)
    requires SortedBy(s, key)
    requires 0 <= m <= |s|
    ensures forall o, e :: o in s[..m] && e in multiset(s) - multiset(s[..m]) ==> key(o) <= key(e)
  {
    assert s == s[..m] + s[m..];
    assert multiset(s) - multiset(s[..m]) == multiset(s[m..]);
    forall o, e | o in s[..m] && e in multiset(s[m..])
      ensures key(o) <= key(e)
    {
      var a :| 0 <= a < m && s[a] == o;
      var b :| 0 <= b < |s[m..]| && s[m..][b] == e;
      assert s[m + b] == e;
    }
  }
}
