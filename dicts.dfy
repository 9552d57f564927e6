/** Python dictionaries with string keys, as insertion-ordered association lists. */
module Dicts {
  import opened Wrappers

  /** `dict[str, V]`: its items in insertion order. */
  type Dict<V> = seq<(string, V)>

  /** What every Python dict satisfies: no key occurs twice. */
  predicate DistinctKeys<V>(d: Dict<V>)
  {
    forall i, j :: 0 <= i < j < |d| ==> d[i].0 != d[j].0
  }

  /** Position of key `k` in `d`, if present. */
  function FindKey<V>(d: Dict<V>, k: string): (r: Option<nat>)
    ensures r.Some? ==> r.value < |d| && d[r.value].0 == k
    ensures r.Some? ==> forall i :: 0 <= i < r.value ==> d[i].0 != k
    ensures r.None? ==> forall i :: 0 <= i < |d| ==> d[i].0 != k
  {
    if d == [] then None
    else if d[0].0 == k then Some(0)
    else match FindKey(d[1..], k)
      case None => None
      case Some(i) => Some(i + 1)
  }

  /** `k in d`. */
  predicate HasKey<V>(d: Dict<V>, k: string)
  {
    FindKey(d, k).Some?
  }

  /** `d.get(k)`: the value stored under `k`, or None. */
  function Get<V>(d: Dict<V>, k: string): Option<V>
  {
    match FindKey(d, k)
    case None => None
    case Some(i) => Some(d[i].1)
  }

  /** In a dict with distinct keys, each item is what its key looks up. */
  lemma GetItem<V>(d: Dict<V>, i: nat)
    requires DistinctKeys(d) && i < |d|
    ensures Get(d, d[i].0) == Some(d[i].1)
  {
    var r := FindKey(d, d[i].0);
    assert r.Some?;
    assert r.value == i;
  }

  /**
   * `d[k] = v`: afterwards `k` looks up `v` and every other key looks up what
   * it did before; a present key keeps its place, a new key goes at the end.
   */
  function Put<V>(d: Dict<V>, k: string, v: V): (r: Dict<V>)
    ensures Get(r, k) == Some(v)
    ensures forall k' :: k' != k ==> Get(r, k') == Get(d, k')
    ensures HasKey(d, k) ==> |r| == |d| && forall i :: 0 <= i < |d| ==> r[i].0 == d[i].0
    ensures !HasKey(d, k) ==> |r| == |d| + 1 && r[..|d|] == d && r[|d|].0 == k
  {
    match FindKey(d, k)
    case Some(i) => OverwriteLaws(d, i, k, v); d[i := (k, v)]
    case None => AppendLaws(d, k, v); d + [(k, v)]
  }

  /** Lookups after overwriting the item of a present key in place. */
  lemma OverwriteLaws<V>(d: Dict<V>, i: nat, k: string, v: V)
    requires FindKey(d, k) == Some(i)
    ensures Get(d[i := (k, v)], k) == Some(v)
    ensures forall k' :: k' != k ==> Get(d[i := (k, v)], k') == Get(d, k')
  {
    var r := d[i := (k, v)];
    assert forall j :: 0 <= j < |d| ==> r[j].0 == d[j].0;
    SameKeysFind(r, d, k);
    forall k' | k' != k ensures Get(r, k') == Get(d, k') {
      SameKeysFind(r, d, k');
    }
  }

  /** Lookups after appending an item for a new key. */
  lemma AppendLaws<V>(d: Dict<V>, k: string, v: V)
    requires FindKey(d, k).None?
    ensures Get(d + [(k, v)], k) == Some(v)
    ensures forall k' :: k' != k ==> Get(d + [(k, v)], k') == Get(d, k')
  {
    FindAppend(d, (k, v), k);
    forall k' | k' != k ensures Get(d + [(k, v)], k') == Get(d, k') {
      FindAppend(d, (k, v), k');
    }
  }

  /** Appending an item finds an old key where it was, and the new key at the end. */
  lemma {:induction false} FindAppend<V>(d: Dict<V>, x: (string, V), k: string)
    ensures FindKey(d + [x], k)
         == if FindKey(d, k).Some? then FindKey(d, k) else if x.0 == k then Some(|d|) else None
  {
    if d != [] && d[0].0 != k {
      assert (d + [x])[1..] == d[1..] + [x];
      FindAppend(d[1..], x, k);
    }
  }

  /** Where a key is found depends only on the keys, not on the values. */
  lemma SameKeysFind<V>(a: Dict<V>, b: Dict<V>, k: string)
    requires |a| == |b| && forall j :: 0 <= j < |a| ==> a[j].0 == b[j].0
    ensures FindKey(a, k) == FindKey(b, k)
  {
  }

  /** Storing under a key keeps the keys distinct. */
  lemma PutDistinct<V>(d: Dict<V>, k: string, v: V)
    requires DistinctKeys(d)
    ensures DistinctKeys(Put(d, k, v))
  {
  }
}
