/**
 * A JavaScript `Map` as an association list: entries in insertion order, at
 * most one entry per key. `set` on a present key replaces the value where the
 * entry stands; on a new key it appends. `delete` removes the entry.
 */
module OrderedMap {
  import opened Wrappers

  type Entries<K, V> = seq<(K, V)>

  /** The keys in iteration order (`map.keys()`). */
  function Keys<K, V>(m: Entries<K, V>): (ks: seq<K>)
    ensures |ks| == |m|
    ensures forall i | 0 <= i < |m| :: ks[i] == m[i].0
  {
    if |m| == 0 then [] else [m[0].0] + Keys(m[1..])
  }

  /** No key occurs twice. */
  ghost predicate Distinct<K>(ks: seq<K>) {
    forall i, j | 0 <= i < j < |ks| :: ks[i] != ks[j]
  }

  /** The invariant of a `Map`: one entry per key. */
  ghost predicate UniqueKeys<K, V>(m: Entries<K, V>) {
    Distinct(Keys(m))
  }

  /** `map.get(k)`: the value of the entry for `k`, if there is one. */
  function Get<K(==), V>(m: Entries<K, V>, k: K): (r: Option<V>)
    ensures r.Some? <==> k in Keys(m)
  {
    if m == [] then None
    else if m[0].0 == k then Some(m[0].1)
    else Get(m[1..], k)
  }

  /** `map.set(k, v)`: replace the value in place, or append a new entry. */
  function Set<K(==), V>(m: Entries<K, V>, k: K, v: V): (r: Entries<K, V>)
  {
    if m == [] then [(k, v)]
    else if m[0].0 == k then [(k, v)] + m[1..]
    else [m[0]] + Set(m[1..], k, v)
  }

  /** `map.delete(k)`: drop the entry for `k`. */
  function Delete<K(==), V>(m: Entries<K, V>, k: K): (r: Entries<K, V>)
    ensures |r| <= |m|
    ensures Keys(r) == Without(Keys(m), k)
  {
    if m == [] then []
    else if m[0].0 == k then Delete(m[1..], k)
    else [m[0]] + Delete(m[1..], k)
  }

  /** After `set(k, v)`, `get(k)` is `v` and every other key reads as before. */
  lemma {:induction false} GetSet<K, V>(m: Entries<K, V>, k: K, v: V, j: K)
    ensures Get(Set(m, k, v), j) == if j == k then Some(v) else Get(m, j)
  {
    if m != [] && m[0].0 != k {
      GetSet(m[1..], k, v, j);
    }
  }

  /** `set` keeps the order of the keys and appends a new key at the end. */
  lemma {:induction false} KeysSet<K, V>(m: Entries<K, V>, k: K, v: V)
    ensures Keys(Set(m, k, v)) == if k in Keys(m) then Keys(m) else Keys(m) + [k]
  {
    if m != [] && m[0].0 != k {
      KeysSet(m[1..], k, v);
      assert Keys(m) == [m[0].0] + Keys(m[1..]);
    }
  }

  /** `set` on a new key appends the entry. */
  lemma {:induction false} SetAppends<K, V>(m: Entries<K, V>, k: K, v: V)
    requires k !in Keys(m)
    ensures Set(m, k, v) == m + [(k, v)]
  {
    if m != [] {
      assert Keys(m) == [m[0].0] + Keys(m[1..]);
      SetAppends(m[1..], k, v);
    }
  }

  /** `set` keeps one entry per key. */
  lemma SetUnique<K, V>(m: Entries<K, V>, k: K, v: V)
    requires UniqueKeys(m)
    ensures UniqueKeys(Set(m, k, v))
  {
    KeysSet(m, k, v);
    if k !in Keys(m) {
      DistinctSnoc(Keys(m), k);
    }
  }

  /** After `delete(k)`, `get(k)` finds nothing and every other key reads as before. */
  lemma {:induction false} GetDelete<K, V>(m: Entries<K, V>, k: K, j: K)
    ensures Get(Delete(m, k), j) == if j == k then None else Get(m, j)
  {
    if m != [] {
      GetDelete(m[1..], k, j);
    }
  }

  /** The sequence with every occurrence of `k` removed. */
  function Without<K(==)>(ks: seq<K>, k: K): (r: seq<K>)
    ensures |r| <= |ks|
    ensures forall i | 0 <= i < |r| :: r[i] in ks && r[i] != k
    ensures forall i | 0 <= i < |ks| && ks[i] != k :: ks[i] in r
  {
    if ks == [] then []
    else if ks[0] == k then Without(ks[1..], k)
    else [ks[0]] + Without(ks[1..], k)
  }

  /** Removing a key from distinct keys leaves distinct keys. */
  lemma {:induction false} WithoutDistinct<K>(ks: seq<K>, k: K)
    requires Distinct(ks)
    ensures Distinct(Without(ks, k))
  {
    if ks != [] {
      WithoutDistinct(ks[1..], k);
      assert ks[0] !in ks[1..];
    }
  }

  /** Appending a new element keeps a sequence distinct. */
  lemma DistinctSnoc<K>(ks: seq<K>, k: K)
    requires Distinct(ks) && k !in ks
    ensures Distinct(ks + [k])
  {
    var r := ks + [k];
    forall i, j | 0 <= i < j < |r|
      ensures r[i] != r[j]
    {
      if j == |ks| {
        assert r[i] == ks[i];
      }
    }
  }

  /** A prefix of a map with unique keys has unique keys, and its keys are the prefix of the keys. */
  lemma PrefixKeys<K, V>(m: Entries<K, V>, n: nat)
    requires n <= |m|
    ensures Keys(m[..n]) == Keys(m)[..n]
    ensures UniqueKeys(m) ==> UniqueKeys(m[..n])
  {
  }

  /** `delete` keeps one entry per key. */
  lemma DeleteUnique<K, V>(m: Entries<K, V>, k: K)
    requires UniqueKeys(m)
    ensures UniqueKeys(Delete(m, k))
  {
    WithoutDistinct(Keys(m), k);
  }

  /** The entry for a present key of a map with unique keys: its index. */
  lemma {:induction false} GetAt<K, V>(m: Entries<K, V>, i: int)
    requires UniqueKeys(m) && 0 <= i < |m|
    ensures Get(m, m[i].0) == Some(m[i].1)
  {
    if i > 0 {
      assert Keys(m)[0] != Keys(m)[i];
      assert Keys(m[1..]) == Keys(m)[1..];
      GetAt(m[1..], i - 1);
    }
  }
}
