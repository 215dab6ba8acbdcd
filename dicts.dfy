/** Python dicts with string keys as the modelled code uses them: keys in insertion order,
    each key at most once; assigning to an existing key keeps its position. */
module Dicts {
  import opened Wrappers

  type Dict<V> = seq<(string, V)>

  predicate Distinct<T(==)>(s: seq<T>) { forall i, j :: 0 <= i < j < |s| ==> s[i] != s[j] }

  /** `d.keys()`, in iteration order. */
  function Keys<V>(d: Dict<V>): (r: seq<string>)
    ensures |r| == |d|
  {
    seq(|d|, i requires 0 <= i < |d| => d[i].0)
  }

  /** `d.get(k)`, with `None` for a missing key. */
  function Get<V>(d: Dict<V>, k: string): (r: Option<V>)
    ensures r.Some? <==> k in Keys(d)
    ensures r.Some? ==> (k, r.value) in d
  {
    if d == [] then None
    else if d[0].0 == k then
      assert Keys(d)[0] == k;
      Some(d[0].1)
    else
      assert Keys(d) == [d[0].0] + Keys(d[1..]);
      Get(d[1..], k)
  }

  /** `d[k] = v` */
  function Put<V>(d: Dict<V>, k: string, v: V): Dict<V>
  {
    if d == [] then [(k, v)]
    else if d[0].0 == k then [(k, v)] + d[1..]
    else [d[0]] + Put(d[1..], k, v)
  }

  lemma {:induction false} KeysCons<V>(p: (string, V), rest: Dict<V>)
    ensures Keys([p] + rest) == [p.0] + Keys(rest)
  {
  }

  lemma {:induction false} GetCons<V>(p: (string, V), rest: Dict<V>, k: string)
    ensures Get([p] + rest, k) == if p.0 == k then Some(p.1) else Get(rest, k)
  {
    assert ([p] + rest)[1..] == rest;
  }

  /** Assigning a key binds it, leaves every other key's binding alone, and
      keeps an existing key in its place (a new one goes last). */
  lemma {:induction false} PutSpec<V>(d: Dict<V>, k: string, v: V, k': string)
    ensures Get(Put(d, k, v), k) == Some(v)
    ensures k' != k ==> Get(Put(d, k, v), k') == Get(d, k')
    ensures Keys(Put(d, k, v)) == if k in Keys(d) then Keys(d) else Keys(d) + [k]
  {
    if d != [] {
      assert d == [d[0]] + d[1..];
      KeysCons(d[0], d[1..]);
      GetCons(d[0], d[1..], k);
      GetCons(d[0], d[1..], k');
      if d[0].0 == k {
        KeysCons((k, v), d[1..]);
        GetCons((k, v), d[1..], k);
        GetCons((k, v), d[1..], k');
      } else {
        var rest := Put(d[1..], k, v);
        PutSpec(d[1..], k, v, k');
        KeysCons(d[0], rest);
        GetCons(d[0], rest, k);
        GetCons(d[0], rest, k');
      }
    }
  }

  /** `{k: v for (k, v) in ps}` */
  function FromPairs<V>(ps: seq<(string, V)>): (d: Dict<V>)
  {
    if ps == [] then [] else Put(FromPairs(ps[..|ps| - 1]), ps[|ps| - 1].0, ps[|ps| - 1].1)
  }

  /** The value of the last pair whose key is `k`: an independent reading of
      "a later pair overrides an earlier one". */
  function LastBinding<V>(ps: seq<(string, V)>, k: string): Option<V>
  {
    if ps == [] then None
    else if ps[|ps| - 1].0 == k then Some(ps[|ps| - 1].1)
    else LastBinding(ps[..|ps| - 1], k)
  }

  /** Each element at its first occurrence, later repeats dropped. */
  function FirstOccurrences<T(==)>(s: seq<T>): seq<T>
  {
    if s == [] then []
    else
      var p := FirstOccurrences(s[..|s| - 1]);
      if s[|s| - 1] in p then p else p + [s[|s| - 1]]
  }

  lemma {:induction false} FromPairsGet<V>(ps: seq<(string, V)>, k: string)
    ensures Get(FromPairs(ps), k) == LastBinding(ps, k)
  {
    if ps != [] {
      FromPairsGet(ps[..|ps| - 1], k);
      PutSpec(FromPairs(ps[..|ps| - 1]), ps[|ps| - 1].0, ps[|ps| - 1].1, k);
    }
  }

  lemma {:induction false} FromPairsKeys<V>(ps: seq<(string, V)>)
    ensures Keys(FromPairs(ps)) == FirstOccurrences(Keys(ps))
  {
    if ps != [] {
      var init, k := ps[..|ps| - 1], ps[|ps| - 1].0;
      FromPairsKeys(init);
      PutSpec(FromPairs(init), k, ps[|ps| - 1].1, k);
      var ks := Keys(ps);
      assert ks[..|ks| - 1] == Keys(init) && ks[|ks| - 1] == k;
      assert FirstOccurrences(ks)
          == if k in FirstOccurrences(Keys(init)) then FirstOccurrences(Keys(init))
             else FirstOccurrences(Keys(init)) + [k];
    }
  }

  lemma {:induction false} FirstOccurrencesSound<T>(s: seq<T>)
    ensures Distinct(FirstOccurrences(s))
    ensures forall x :: x in FirstOccurrences(s) <==> x in s
  {
    if s != [] {
      FirstOccurrencesSound(s[..|s| - 1]);
      assert s == s[..|s| - 1] + [s[|s| - 1]];
    }
  }

  /** The dict built from a pair list has exactly the list's keys, each once,
      in the order of their first appearance, and each bound to its last value. */
  lemma {:induction false} FromPairsSound<V>(ps: seq<(string, V)>)
    ensures Distinct(Keys(FromPairs(ps)))
    ensures forall k :: k in Keys(FromPairs(ps)) <==> k in Keys(ps)
    ensures forall k :: Get(FromPairs(ps), k) == LastBinding(ps, k)
  {
    FromPairsKeys(ps);
    FirstOccurrencesSound(Keys(ps));
    forall k ensures Get(FromPairs(ps), k) == LastBinding(ps, k) {
      FromPairsGet(ps, k);
    }
  }

  lemma {:induction false} DistinctCountsOnce<T>(s: seq<T>, x: T)
    requires Distinct(s)
    ensures multiset(s)[x] <= 1
  {
    if s != [] {
      assert s == [s[0]] + s[1..];
      assert Distinct(s[1..]) by {
        forall i, j | 0 <= i < j < |s[1..]| ensures s[1..][i] != s[1..][j] {
          assert s[1..][i] == s[i + 1] && s[1..][j] == s[j + 1];
        }
      }
      DistinctCountsOnce(s[1..], x);
      if x == s[0] {
        assert x !in s[1..] by {
          forall i | 0 <= i < |s[1..]| ensures s[1..][i] != x {
            assert s[1..][i] == s[i + 1];
          }
        }
      }
    }
  }

  /** A rearrangement of a list without repeats has no repeats. */
  lemma {:induction false} DistinctPermutation<T>(s: seq<T>, t: seq<T>)
    requires multiset(s) == multiset(t) && Distinct(s)
    ensures Distinct(t)
  {
    forall i, j | 0 <= i < j < |t| ensures t[i] != t[j] {
      if t[i] == t[j] {
        var x := t[i];
        assert t == t[..j] + t[j..];
        assert x in t[..j] && x == t[j..][0];
        assert multiset(t)[x] == multiset(t[..j])[x] + multiset(t[j..])[x];
        DistinctCountsOnce(s, x);
        assert false;
      }
    }
  }
}
