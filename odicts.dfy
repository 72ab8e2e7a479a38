/**
 * Python's insertion-ordered `dict`, where the order is observable: `keys` lists
 * the keys in insertion order and `vals` maps them to their values.
 */
module ODicts {
  import opened Wrappers
  import opened Seqs

  datatype ODict<K(==), V> = ODict(keys: seq<K>, vals: map<K, V>)

  /** The keys are distinct and are exactly the keys of the mapping. */
  ghost predicate Valid<K(!new), V>(d: ODict<K, V>)
  {
    && (forall i, j :: 0 <= i < j < |d.keys| ==> d.keys[i] != d.keys[j])
    && (forall k :: k in d.vals <==> k in d.keys)
  }

  function Empty<K(==, !new), V>(): (r: ODict<K, V>)
    ensures Valid(r) && r.vals == map[]
  {
    ODict([], map[])
  }

  /** `d.get(k)`: `None` when the key is absent. */
  function Get<K(==, !new), V>(d: ODict<K, V>, k: K): Option<V>
  {
    if k in d.vals then Some(d.vals[k]) else None
  }

  /** `d[k] = v`: an existing key keeps its position, a new one goes last. */
  function Put<K(==, !new), V>(d: ODict<K, V>, k: K, v: V): (r: ODict<K, V>)
    ensures r.vals == d.vals[k := v]
    ensures Valid(d) ==> Valid(r)
  {
    if k in d.vals then ODict(d.keys, d.vals[k := v])
    else ODict(d.keys + [k], d.vals[k := v])
  }

  /** Putting the keys `ks` with their values from `m`, one after the other. */
  function PutAll<K(==, !new), V>(d: ODict<K, V>, ks: seq<K>, m: map<K, V>): (r: ODict<K, V>)
    requires forall k :: k in ks ==> k in m
    ensures Valid(d) ==> Valid(r)
    decreases |ks|
  {
    if ks == [] then d else PutAll(Put(d, ks[0], m[ks[0]]), ks[1..], m)
  }

  /** `d.update(other)` */
  function Update<K(==, !new), V>(d: ODict<K, V>, other: ODict<K, V>): (r: ODict<K, V>)
    requires Valid(other)
    ensures Valid(d) ==> Valid(r)
  {
    PutAll(d, other.keys, other.vals)
  }

  /** `d.pop(k, None)` without its return value. */
  function Remove<K(==, !new), V>(d: ODict<K, V>, k: K): (r: ODict<K, V>)
    ensures r.vals == d.vals - {k}
  {
    ODict(RemoveAll(d.keys, k), d.vals - {k})
  }

  lemma RemoveValid<K(!new), V>(d: ODict<K, V>, k: K)
    requires Valid(d)
    ensures Valid(Remove(d, k))
  {
    RemoveAllDistinct(d.keys, k);
  }

  function RemoveAll<K(==, !new)>(s: seq<K>, k: K): (r: seq<K>)
    ensures forall x :: x in r <==> x in s && x != k
  {
    if s == [] then []
    else if s[0] == k then RemoveAll(s[1..], k)
    else [s[0]] + RemoveAll(s[1..], k)
  }

  lemma {:induction false} RemoveAllDistinct<K(!new)>(s: seq<K>, k: K)
    requires forall i, j :: 0 <= i < j < |s| ==> s[i] != s[j]
    ensures forall i, j :: 0 <= i < j < |RemoveAll(s, k)| ==> RemoveAll(s, k)[i] != RemoveAll(s, k)[j]
  {
    if s != [] {
      RemoveAllDistinct(s[1..], k);
      assert s[0] !in s[1..] by {
        forall i | 0 <= i < |s[1..]| ensures s[1..][i] != s[0] { assert s[1..][i] == s[i + 1]; }
      }
    }
  }

  /** Putting keys from `m` overlays `m` on the mapping. */
  lemma {:induction false} PutAllVals<K(!new), V>(d: ODict<K, V>, ks: seq<K>, m: map<K, V>)
    requires forall k :: k in ks ==> k in m
    ensures PutAll(d, ks, m).vals == d.vals + (map k | k in ks :: m[k])
    decreases |ks|
  {
    if ks != [] {
      var d' := Put(d, ks[0], m[ks[0]]);
      PutAllVals(d', ks[1..], m);
      OverlayCons(d.vals, ks, m);
    }
  }

  lemma OverlayCons<K(!new), V>(a: map<K, V>, ks: seq<K>, m: map<K, V>)
    requires ks != [] && forall k :: k in ks ==> k in m
    ensures a[ks[0] := m[ks[0]]] + (map k | k in ks[1..] :: m[k]) == a + (map k | k in ks :: m[k])
  {
    assert forall k :: k in ks <==> k == ks[0] || k in ks[1..];
  }

  /** `d[k] = v` keeps the old keys in front and adds `k` if it is new. */
  lemma PutKeys<K(!new), V>(d: ODict<K, V>, k: K, v: V)
    requires Valid(d)
    ensures |d.keys| <= |Put(d, k, v).keys| && Put(d, k, v).keys[..|d.keys|] == d.keys
    ensures forall x :: x in Put(d, k, v).keys <==> x in d.keys || x == k
  {
  }

  /** Putting keys appends the new ones in order and leaves the old ones in front. */
  lemma {:induction false} PutAllKeys<K(!new), V>(d: ODict<K, V>, ks: seq<K>, m: map<K, V>)
    requires Valid(d) && forall k :: k in ks ==> k in m
    ensures forall k :: k in PutAll(d, ks, m).keys <==> k in d.keys || k in ks
    ensures |d.keys| <= |PutAll(d, ks, m).keys| && PutAll(d, ks, m).keys[..|d.keys|] == d.keys
    decreases |ks|
  {
    if ks != [] {
      var d' := Put(d, ks[0], m[ks[0]]);
      PutAllKeys(d', ks[1..], m);
      PutKeys(d, ks[0], m[ks[0]]);
      HeadTail(ks);
      PrefixOfPrefix(d.keys, d'.keys, PutAll(d', ks[1..], m).keys);
    }
  }

  /**
   * `d.update(other)`: the result maps every key of either dict, `other` winning on
   * collisions; the keys of `d` keep their places at the front.
   */
  lemma UpdateVals<K(!new), V>(d: ODict<K, V>, other: ODict<K, V>)
    requires Valid(d) && Valid(other)
    ensures Update(d, other).vals == d.vals + other.vals
    ensures forall k :: k in Update(d, other).keys <==> k in d.keys || k in other.keys
    ensures |d.keys| <= |Update(d, other).keys| && Update(d, other).keys[..|d.keys|] == d.keys
  {
    PutAllVals(d, other.keys, other.vals);
    PutAllKeys(d, other.keys, other.vals);
    KeysCoverVals(other);
  }

  lemma KeysCoverVals<K(!new), V>(d: ODict<K, V>)
    requires Valid(d)
    ensures (map k | k in d.keys :: d.vals[k]) == d.vals
  {
  }
}
