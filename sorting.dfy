/** Python's `sorted(xs, key=...)`: a stable sort. It is modelled over a total
    preorder `le` on the elements, where `le(x, y)` means "the key of x is not
    greater than the key of y"; elements with equal keys keep their order. */
module Sorting {

  ghost predicate TotalPreorder<T(!new)>(le: (T, T) -> bool)
  {
    && (forall x, y :: le(x, y) || le(y, x))
    && (forall x, y, z :: le(x, y) && le(y, z) ==> le(x, z))
  }

  predicate Sorted<T>(s: seq<T>, le: (T, T) -> bool)
  {
    forall i, j :: 0 <= i < j < |s| ==> le(s[i], s[j])
  }

  predicate Equivalent<T>(x: T, y: T, le: (T, T) -> bool) { le(x, y) && le(y, x) }

  /** The elements of `s` whose key equals the key of `e`, in order. */
  function EqualKeys<T>(s: seq<T>, e: T, le: (T, T) -> bool): seq<T>
  {
    if s == [] then []
    else (if Equivalent(s[0], e, le) then [s[0]] else []) + EqualKeys(s[1..], e, le)
  }

  /** Puts `x` before the first element whose key is not smaller than its own. */
  function Insert<T>(x: T, s: seq<T>, le: (T, T) -> bool): (r: seq<T>)
    ensures |r| == |s| + 1
    ensures multiset(r) == multiset(s) + multiset{x}
  {
    if s == [] || le(x, s[0]) then [x] + s
    else
      assert s == [s[0]] + s[1..];
      [s[0]] + Insert(x, s[1..], le)
  }

  /** `sorted(s, key=...)` */
  function Sort<T>(s: seq<T>, le: (T, T) -> bool): (r: seq<T>)
    ensures |r| == |s|
    ensures multiset(r) == multiset(s)
  {
    if s == [] then []
    else
      assert s == [s[0]] + s[1..];
      Insert(s[0], Sort(s[1..], le), le)
  }

  lemma {:induction false} InsertSorted<T(!new)>(x: T, s: seq<T>, le: (T, T) -> bool)
    requires TotalPreorder(le)
    requires Sorted(s, le)
    ensures Sorted(Insert(x, s, le), le)
  {
    if s != [] && !le(x, s[0]) {
      var rest := Insert(x, s[1..], le);
      assert Insert(x, s, le) == [s[0]] + rest;
      InsertSorted(x, s[1..], le);
      forall j | 0 <= j < |rest| ensures le(s[0], rest[j]) {
        assert rest[j] in multiset(rest);
        if rest[j] != x {
          assert rest[j] in multiset(s[1..]);
          var k :| 0 <= k < |s[1..]| && s[1..][k] == rest[j];
          assert s[k + 1] == rest[j];
        }
      }
      SortedCons(s[0], rest, le);
    }
  }

  lemma {:induction false} SortedCons<T>(h: T, t: seq<T>, le: (T, T) -> bool)
    requires Sorted(t, le)
    requires forall j :: 0 <= j < |t| ==> le(h, t[j])
    ensures Sorted([h] + t, le)
  {
    var r := [h] + t;
    forall i, j | 0 <= i < j < |r| ensures le(r[i], r[j]) {
      assert r[j] == t[j - 1];
      if i > 0 {
        assert r[i] == t[i - 1];
      }
    }
  }

  lemma {:induction false} SortSorted<T(!new)>(s: seq<T>, le: (T, T) -> bool)
    requires TotalPreorder(le)
    ensures Sorted(Sort(s, le), le)
  {
    if s != [] {
      SortSorted(s[1..], le);
      InsertSorted(s[0], Sort(s[1..], le), le);
    }
  }

  lemma {:induction false} EqualKeysCons<T>(y: T, t: seq<T>, e: T, le: (T, T) -> bool)
    ensures EqualKeys([y] + t, e, le) == (if Equivalent(y, e, le) then [y] else []) + EqualKeys(t, e, le)
  {
    assert ([y] + t)[1..] == t;
  }

  /** Two blocks of which one is empty commute. */
  lemma {:induction false} SwapEmpty<T>(h: seq<T>, f: seq<T>, t: seq<T>)
    requires h == [] || f == []
    ensures h + (f + t) == f + (h + t)
  {
    if h == [] {
      assert h + (f + t) == f + t && h + t == t;
    } else {
      assert f + t == t && f + (h + t) == h + t;
    }
  }

  /** Two elements with the key of `e` have the same key. */
  lemma {:induction false} SameKeyOrdered<T(!new)>(x: T, y: T, e: T, le: (T, T) -> bool)
    requires TotalPreorder(le)
    ensures Equivalent(x, e, le) && Equivalent(y, e, le) ==> le(x, y)
  {
    if Equivalent(x, e, le) && Equivalent(y, e, le) {
      assert le(x, e) && le(e, y);
    }
  }

  lemma {:induction false} InsertStable<T(!new)>(x: T, s: seq<T>, e: T, le: (T, T) -> bool)
    requires TotalPreorder(le)
    ensures EqualKeys(Insert(x, s, le), e, le) == (if Equivalent(x, e, le) then [x] else []) + EqualKeys(s, e, le)
  {
    if s == [] || le(x, s[0]) {
      EqualKeysCons(x, s, e, le);
    } else {
      var rest := Insert(x, s[1..], le);
      assert Insert(x, s, le) == [s[0]] + rest;
      assert s == [s[0]] + s[1..];
      EqualKeysCons(s[0], rest, e, le);
      EqualKeysCons(s[0], s[1..], e, le);
      InsertStable(x, s[1..], e, le);
      SameKeyOrdered(x, s[0], e, le);
      SwapEmpty(if Equivalent(s[0], e, le) then [s[0]] else [],
                if Equivalent(x, e, le) then [x] else [],
                EqualKeys(s[1..], e, le));
    }
  }

  /** Stability: for every key, the elements with that key appear in the
      output in the same order as in the input. */
  lemma {:induction false} SortStable<T(!new)>(s: seq<T>, e: T, le: (T, T) -> bool)
    requires TotalPreorder(le)
    ensures EqualKeys(Sort(s, le), e, le) == EqualKeys(s, e, le)
  {
    if s != [] {
      SortStable(s[1..], e, le);
      InsertStable(s[0], Sort(s[1..], le), e, le);
    }
  }

  /** A first element whose key is minimal stays first. */
  lemma {:induction false} SortKeepsMinimalHead<T(!new)>(s: seq<T>, le: (T, T) -> bool)
    requires TotalPreorder(le)
    requires |s| > 0
    requires forall i :: 0 <= i < |s| ==> le(s[0], s[i])
    ensures Sort(s, le)[0] == s[0]
  {
    var rest := Sort(s[1..], le);
    if rest != [] {
      assert rest[0] in multiset(s[1..]);
      var k :| 0 <= k < |s[1..]| && s[1..][k] == rest[0];
      assert le(s[0], s[k + 1]);
    }
  }

  /** The first `n` elements of a sort come from the input, are in order, and
      no element left out precedes the last one kept. */
  lemma {:induction false} SortedPrefix<T(!new)>(s: seq<T>, le: (T, T) -> bool, n: nat)
    requires TotalPreorder(le) && 0 < n <= |s|
    ensures forall i :: 0 <= i < n ==> Sort(s, le)[i] in s
    ensures forall i, j :: 0 <= i < j < n ==> le(Sort(s, le)[i], Sort(s, le)[j])
    ensures forall k :: k in s && k !in Sort(s, le)[..n] ==> le(Sort(s, le)[n - 1], k)
  {
    var sorted := Sort(s, le);
    SortSorted(s, le);
    forall i | 0 <= i < n ensures sorted[i] in s {
      assert sorted[i] in multiset(s);
    }
    forall k | k in s && k !in sorted[..n] ensures le(sorted[n - 1], k) {
      assert k in multiset(sorted);
      var idx :| 0 <= idx < |sorted| && sorted[idx] == k;
      assert forall t :: 0 <= t < n ==> sorted[..n][t] == sorted[t];
      assert idx >= n;
    }
  }
}
