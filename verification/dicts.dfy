/**
 Python's `dict` as the scripts use it: key/value pairs kept in insertion
 order, where assigning to a present key replaces its value in place and
 assigning to a new key appends it.
 */
module Dicts {

  import opened Wrappers

  type Dict<K, V> = seq<(K, V)>

  ghost predicate DistinctKeys<K, V>(d: Dict<K, V>) {
    forall i, j | 0 <= i < j < |d| :: d[i].0 != d[j].0
  }

  function KeysOf<K, V>(d: Dict<K, V>): (ks: seq<K>)
    ensures |ks| == |d|
    ensures forall i | 0 <= i < |d| :: ks[i] == d[i].0
  {
    seq(|d|, i requires 0 <= i < |d| => d[i].0)
  }

  /** `d.get(k)`: the value of the first pair with key `k`. */
  function Get<K(==), V>(d: Dict<K, V>, k: K): (r: Option<V>)
    ensures r.None? <==> forall i | 0 <= i < |d| :: d[i].0 != k
    ensures r.Some? ==> exists i | 0 <= i < |d| :: d[i] == (k, r.value)
  {
    if |d| == 0 then None
    else if d[0].0 == k then Some(d[0].1)
    else Get(d[1..], k)
  }

  /** `d[k] = v`. */
  function Put<K(==), V>(d: Dict<K, V>, k: K, v: V): (r: Dict<K, V>)
    ensures |d| <= |r| <= |d| + 1
  {
    if |d| == 0 then [(k, v)]
    else if d[0].0 == k then [(k, v)] + d[1..]
    else [d[0]] + Put(d[1..], k, v)
  }

  /** After `d[k] = v`, looking `k` up gives `v`. */
  lemma {:induction false} PutGet<K, V>(d: Dict<K, V>, k: K, v: V)
    ensures Get(Put(d, k, v), k) == Some(v)
  {
    if |d| > 0 && d[0].0 != k {
      PutGet(d[1..], k, v);
    }
  }

  /** `d[k] = v` leaves every other key's lookup unchanged. */
  lemma {:induction false} PutGetOther<K, V>(d: Dict<K, V>, k: K, v: V, k': K)
    requires k' != k
    ensures Get(Put(d, k, v), k') == Get(d, k')
  {
    if |d| > 0 && d[0].0 != k {
      PutGetOther(d[1..], k, v, k');
    }
  }

  /** After `d[k] = v`, `k` holds `v` and every other key what it held. */
  lemma PutLookup<K, V>(d: Dict<K, V>, k: K, v: V)
    ensures forall k' :: Get(Put(d, k, v), k') == if k' == k then Some(v) else Get(d, k')
  {
    forall k' ensures Get(Put(d, k, v), k') == if k' == k then Some(v) else Get(d, k') {
      if k' == k {
        PutGet(d, k, v);
      } else {
        PutGetOther(d, k, v, k');
      }
    }
  }

  /** A present key keeps its position; a new key is appended last. */
  lemma {:induction false} PutOrder<K, V>(d: Dict<K, V>, k: K, v: V)
    ensures Get(d, k).Some? ==> KeysOf(Put(d, k, v)) == KeysOf(d)
    ensures Get(d, k).None? ==> Put(d, k, v) == d + [(k, v)]
  {
    if |d| > 0 && d[0].0 != k {
      var t := Put(d[1..], k, v);
      PutOrder(d[1..], k, v);
      assert Put(d, k, v) == [d[0]] + t;
      assert Get(d, k) == Get(d[1..], k);
      if Get(d, k).Some? {
        forall i | 0 <= i < |d| ensures KeysOf([d[0]] + t)[i] == KeysOf(d)[i] {
          if i > 0 {
            assert KeysOf(t)[i - 1] == KeysOf(d[1..])[i - 1];
          }
        }
      } else {
        assert d + [(k, v)] == [d[0]] + (d[1..] + [(k, v)]);
      }
    }
  }

  /** `d[k] = v` keeps the keys distinct. */
  lemma {:induction false} PutDistinct<K, V>(d: Dict<K, V>, k: K, v: V)
    requires DistinctKeys(d)
    ensures DistinctKeys(Put(d, k, v))
  {
    if |d| > 0 && d[0].0 != k {
      PutDistinct(d[1..], k, v);
      PutOrder(d[1..], k, v);
      var r := Put(d, k, v);
      assert r == [d[0]] + Put(d[1..], k, v);
      forall j | 0 < j < |r| ensures r[j].0 != d[0].0 {
        var t := Put(d[1..], k, v);
        assert r[j] == t[j - 1];
        if Get(d[1..], k).Some? {
          assert KeysOf(t)[j - 1] == KeysOf(d[1..])[j - 1];
        } else if j - 1 < |d[1..]| {
          assert t[j - 1] == d[j];
        }
      }
    }
  }

  /** The dict built by assigning the pairs in order to an empty one. */
  function FromPairs<K(==), V>(ps: seq<(K, V)>): (d: Dict<K, V>)
    ensures |d| <= |ps|
  {
    if |ps| == 0 then []
    else
      var last := ps[|ps| - 1];
      Put(FromPairs(ps[..|ps| - 1]), last.0, last.1)
  }

  /** Pair `i` is the last one with key `k`. */
  ghost predicate LastWith<K, V>(ps: seq<(K, V)>, i: int, k: K) {
    && 0 <= i < |ps|
    && ps[i].0 == k
    && forall j | i < j < |ps| :: ps[j].0 != k
  }

  /** A key is present exactly when some pair carries it, and then holds the
      value of the last such pair: later assignments overwrite earlier ones. */
  lemma {:induction false} FromPairsGet<K, V>(ps: seq<(K, V)>, k: K)
    ensures Get(FromPairs(ps), k).None? <==> forall i | 0 <= i < |ps| :: ps[i].0 != k
    ensures forall i | LastWith(ps, i, k) :: Get(FromPairs(ps), k) == Some(ps[i].1)
  {
    if |ps| > 0 {
      var n := |ps| - 1;
      var init := ps[..n];
      var d := FromPairs(init);
      assert FromPairs(ps) == Put(d, ps[n].0, ps[n].1);
      FromPairsGet(init, k);
      if ps[n].0 == k {
        PutGet(d, k, ps[n].1);
        forall i | LastWith(ps, i, k) ensures i == n {
        }
      } else {
        PutGetOther(d, ps[n].0, ps[n].1, k);
        assert (forall i | 0 <= i < |ps| :: ps[i].0 != k) <==> (forall i | 0 <= i < n :: init[i].0 != k) by {
          assert forall i | 0 <= i < n :: init[i] == ps[i];
        }
        forall i | LastWith(ps, i, k) ensures Get(FromPairs(ps), k) == Some(ps[i].1) {
          assert i < n && init[i] == ps[i];
          assert LastWith(init, i, k);
        }
      }
    }
  }

  /** A dict built from pairs never holds a key twice. */
  lemma {:induction false} FromPairsDistinct<K, V>(ps: seq<(K, V)>)
    ensures DistinctKeys(FromPairs(ps))
  {
    if |ps| > 0 {
      var n := |ps| - 1;
      FromPairsDistinct(ps[..n]);
      PutDistinct(FromPairs(ps[..n]), ps[n].0, ps[n].1);
    }
  }
}
