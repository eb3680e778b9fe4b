/**
 * Python's `dict`: a map that remembers the order in which its keys were
 * first inserted.  Assigning to an existing key keeps its place, a new key
 * goes last, and `del` removes the key from the order.
 */
module PyDict {
  import opened Wrappers

  datatype Dict<K(==,!new), V> = Dict(keys: seq<K>, m: map<K, V>)

  /** The order lists every key of the map exactly once. */
  ghost predicate Valid<K(!new), V>(d: Dict<K, V>)
  {
    (forall i, j :: 0 <= i < j < |d.keys| ==> d.keys[i] != d.keys[j])
    && (forall k :: k in d.m <==> k in d.keys)
  }

  function Empty<K(==,!new), V>(): (d: Dict<K, V>)
    ensures Valid(d) && d.m == map[]
  {
    Dict([], map[])
  }

  /** `d.get(k)` */
  function Get<K(==,!new), V>(d: Dict<K, V>, k: K): Option<V>
  {
    if k in d.m then Some(d.m[k]) else None
  }

  /** `d[k] = v` */
  function Put<K(==,!new), V>(d: Dict<K, V>, k: K, v: V): Dict<K, V>
  {
    Dict(if k in d.m then d.keys else d.keys + [k], d.m[k := v])
  }

  /** The order without `k`. */
  function Without<K(==,!new)>(keys: seq<K>, k: K): (r: seq<K>)
    ensures forall x :: x in r <==> x in keys && x != k
    ensures |r| <= |keys|
  {
    if keys == [] then []
    else if keys[0] == k then Without(keys[1..], k)
    else [keys[0]] + Without(keys[1..], k)
  }

  /** `del d[k]` (a no-op here when `k` is absent; Python raises, and no caller lets that happen). */
  function Remove<K(==,!new), V>(d: Dict<K, V>, k: K): Dict<K, V>
  {
    Dict(Without(d.keys, k), d.m - {k})
  }

  /** `list(d.values())`, in key order. */
  function Values<K(==,!new), V>(d: Dict<K, V>): (vs: seq<V>)
    requires Valid(d)
    ensures |vs| == |d.keys|
  {
    seq(|d.keys|, i requires 0 <= i < |d.keys| => d.m[d.keys[i]])
  }

  lemma {:induction false} WithoutDistinct<K(!new)>(keys: seq<K>, k: K)
    requires forall i, j :: 0 <= i < j < |keys| ==> keys[i] != keys[j]
    ensures forall i, j :: 0 <= i < j < |Without(keys, k)| ==> Without(keys, k)[i] != Without(keys, k)[j]
  {
    if keys != [] {
      WithoutDistinct(keys[1..], k);
      if keys[0] != k {
        var r := Without(keys[1..], k);
        assert keys[0] !in keys[1..];
        assert keys[0] !in r;
        var r' := Without(keys, k);
        assert r' == [keys[0]] + r;
        forall i, j | 0 <= i < j < |r'| ensures r'[i] != r'[j] {
          if i == 0 {
            assert r'[j] == r[j - 1];
            assert r[j - 1] in r;
          } else {
            assert r'[i] == r[i - 1] && r'[j] == r[j - 1];
          }
        }
      }
    }
  }

  /** Lookups after `d[k] = v`: `k` now gives `v`, every other key what it gave before; the dict stays valid. */
  lemma PutFacts<K(!new), V>(d: Dict<K, V>, k: K, v: V)
    requires Valid(d)
    ensures Valid(Put(d, k, v))
    ensures forall x :: Get(Put(d, k, v), x) == if x == k then Some(v) else Get(d, x)
  {
  }

  /** Lookups after `del d[k]`: `k` is gone, every other key gives what it gave before; the dict stays valid. */
  lemma RemoveFacts<K(!new), V>(d: Dict<K, V>, k: K)
    requires Valid(d)
    ensures Valid(Remove(d, k))
    ensures forall x :: Get(Remove(d, k), x) == if x == k then None else Get(d, x)
  {
    WithoutDistinct(d.keys, k);
    var r := Remove(d, k);
    forall x ensures x in r.m <==> x in r.keys {
      assert x in r.keys <==> x in d.keys && x != k;
    }
  }

  /** A value is listed iff some key maps to it. */
  lemma ValuesMembers<K(!new), V>(d: Dict<K, V>)
    requires Valid(d)
    ensures forall v :: v in Values(d) <==> exists k :: k in d.m && d.m[k] == v
  {
    forall v | (exists k :: k in d.m && d.m[k] == v) ensures v in Values(d) {
      var k :| k in d.m && d.m[k] == v;
      var i :| 0 <= i < |d.keys| && d.keys[i] == k;
      assert Values(d)[i] == v;
    }
  }
}
