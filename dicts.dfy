/** Python dictionaries with string keys, in their insertion order: `keys` lists every key
    once, in the order the keys first went in, and `values` holds what each key maps to. */
module Dicts {
  import opened Wrappers
  import opened Seqs

  datatype DictRep<V> = DictRep(keys: seq<string>, values: map<string, V>)

  /** Every key listed once, and the listed keys are exactly the mapped ones. */
  ghost predicate Ordered<V>(d: DictRep<V>)
  {
    && Distinct(d.keys)
    && (forall k :: k in d.values <==> k in d.keys)
  }

  predicate Distinct(s: seq<string>)
  {
    forall i, j :: 0 <= i < j < |s| ==> s[i] != s[j]
  }

  type Dict<V> = d: DictRep<V> | Ordered(d) witness DictRep([], map[])

  function Empty<V>(): (r: Dict<V>)
    ensures |r.keys| == 0 && |r.values| == 0
  {
    DictRep([], map[])
  }

  /** `d.get(k)`. */
  function Get<V>(d: Dict<V>, k: string): (r: Option<V>)
    ensures r.Some? <==> k in d.keys
  {
    if k in d.values then Some(d.values[k]) else None
  }

  /** `d[k] = v`: a new key goes last, a key already there keeps its place. */
  function Put<V>(d: Dict<V>, k: string, v: V): (r: Dict<V>)
    ensures r.keys == if k in d.keys then d.keys else d.keys + [k]
  {
    if k in d.values then DictRep(d.keys, d.values[k := v])
    else DictRep(d.keys + [k], d.values[k := v])
  }

  /** After `d[k] = v`, `k` reads `v` and every other key reads what it read before. */
  lemma PutGet<V>(d: Dict<V>, k: string, v: V, k': string)
    ensures Get(Put(d, k, v), k') == if k' == k then Some(v) else Get(d, k')
  {
  }

  /** `s` with every occurrence of `x` left out. */
  function Without(s: seq<string>, x: string): (r: seq<string>)
  {
    if |s| == 0 then []
    else (if s[0] == x then [] else [s[0]]) + Without(s[1..], x)
  }

  lemma {:induction false} WithoutMembers(s: seq<string>, x: string)
    ensures forall y :: y in Without(s, x) <==> y in s && y != x
  {
    if |s| > 0 {
      WithoutMembers(s[1..], x);
      assert forall y :: y in s <==> y == s[0] || y in s[1..];
    }
  }

  lemma {:induction false} WithoutDistinct(s: seq<string>, x: string)
    requires Distinct(s)
    ensures Distinct(Without(s, x))
  {
    if |s| > 0 {
      var t := s[1..];
      assert forall i, j :: 0 <= i < j < |t| ==> t[i] == s[i + 1] && t[j] == s[j + 1];
      WithoutDistinct(t, x);
      WithoutMembers(t, x);
      var w := Without(t, x);
      if s[0] == x {
        assert Without(s, x) == w;
      } else {
        assert s[0] !in t by {
          forall k | 0 <= k < |t| ensures t[k] != s[0] { assert t[k] == s[k + 1]; }
        }
        var r := [s[0]] + w;
        assert Without(s, x) == r;
        forall i, j | 0 <= i < j < |r|
          ensures r[i] != r[j]
        {
          assert r[j] == w[j - 1] && w[j - 1] in w;
          if i == 0 {
            assert r[i] == s[0];
          } else {
            assert r[i] == w[i - 1];
          }
        }
      }
    }
  }

  lemma {:induction false} WithoutKeepsOrder(s: seq<string>, x: string)
    ensures IsSubsequence(Without(s, x), s)
  {
    if |s| == 0 {
      assert IsSubsequence(s, s);
    } else {
      var w := Without(s[1..], x);
      WithoutKeepsOrder(s[1..], x);
      if s[0] == x {
        SubsequenceOfTail(w, s[1..], s[0]);
        assert Without(s, x) == w;
      } else {
        SubsequenceCons(w, s[1..], s[0]);
        assert Without(s, x) == [s[0]] + w;
      }
      assert [s[0]] + s[1..] == s;
    }
  }

  /** `del d[k]`, which raises `KeyError` unless `k` is present. */
  function Remove<V>(d: Dict<V>, k: string): (r: Dict<V>)
    requires k in d.keys
  {
    WithoutMembers(d.keys, k);
    WithoutDistinct(d.keys, k);
    DictRep(Without(d.keys, k), d.values - {k})
  }

  /** After `del d[k]`, `k` is gone, every other key is untouched, and the remaining keys
      keep their order. */
  lemma RemoveGet<V>(d: Dict<V>, k: string, k': string)
    requires k in d.keys
    ensures Get(Remove(d, k), k') == if k' == k then None else Get(d, k')
    ensures IsSubsequence(Remove(d, k).keys, d.keys) && |Remove(d, k).keys| == |d.keys| - 1
  {
    WithoutKeepsOrder(d.keys, k);
    var r := Remove(d, k);
    DistinctCard(d.keys);
    DistinctCard(r.keys);
    assert (set y | y in r.keys) == (set y | y in d.keys) - {k};
  }

  /** A sequence without repetitions has as many elements as its set of elements. */
  lemma {:induction false} DistinctCard(s: seq<string>)
    requires Distinct(s)
    ensures |set y | y in s| == |s|
  {
    if |s| > 0 {
      var t := s[1..];
      assert forall i, j :: 0 <= i < j < |t| ==> t[i] == s[i + 1] && t[j] == s[j + 1];
      DistinctCard(t);
      assert s[0] !in t;
      assert (set y | y in s) == (set y | y in t) + {s[0]};
    }
  }

  /** Writing a key twice leaves what the second write put, in the first write's place. */
  lemma PutPut<V>(d: Dict<V>, k: string, v: V, w: V)
    ensures Put(Put(d, k, v), k, w) == Put(d, k, w)
  {
  }

  /** `len(d)` counts the listed keys. */
  lemma DictSize<V>(d: Dict<V>)
    ensures |d.values| == |d.keys|
  {
    DistinctCard(d.keys);
    assert d.values.Keys == set y | y in d.keys;
  }
}
