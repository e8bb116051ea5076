/**
 * The bounded store behind the response cache: `cached::SizedCache`, a map
 * with a fixed number of slots that evicts its least recently used entry.
 *
 * The crate's code is not part of this model. Its order of eviction is a
 * model assumption: the entries are kept as a sequence of (key, value) pairs,
 * most recently used first; a read of a key moves it to the front, a write
 * puts the written entry at the front, and when a new key arrives at a full
 * store the last entry is dropped.
 */
module SizedStore {
  import opened Wrappers

  /** The keys of the entries, in order. */
  function Keys<K, V>(s: seq<(K, V)>): (ks: seq<K>)
    ensures |ks| == |s|
    ensures forall i :: 0 <= i < |s| ==> ks[i] == s[i].0
  {
    seq(|s|, i requires 0 <= i < |s| => s[i].0)
  }

  ghost predicate Distinct<K>(ks: seq<K>)
  {
    forall i, j :: 0 <= i < j < |ks| ==> ks[i] != ks[j]
  }

  /** The store's invariant: between 1 and `capacity` slots used at most, no key twice. */
  ghost predicate Invariant<K, V>(capacity: nat, s: seq<(K, V)>)
  {
    0 < capacity && |s| <= capacity && Distinct(Keys(s))
  }

  /** The value stored under `k`, if any. */
  function Lookup<K(==), V>(s: seq<(K, V)>, k: K): (r: Option<V>)
    ensures r.None? <==> k !in Keys(s)
    ensures r.Some? ==> (k, r.value) in s
  {
    if s == [] then None
    else if s[0].0 == k then Some(s[0].1)
    else
      KeysCons(s);
      Lookup(s[1..], k)
  }

  /** The entries without the first one stored under `k`, the others in their order. */
  function Remove<K(==, !new), V>(s: seq<(K, V)>, k: K): (r: seq<(K, V)>)
    ensures |r| == if k in Keys(s) then |s| - 1 else |s|
    ensures k !in Keys(s) ==> r == s
    ensures forall x :: x in r ==> x in s
    ensures forall k' :: k' != k ==> Lookup(r, k') == Lookup(s, k')
  {
    if s == [] then []
    else if s[0].0 == k then s[1..]
    else
      KeysCons(s);
      [s[0]] + Remove(s[1..], k)
  }

  /** The keys of a non-empty store: the first entry's key, then the rest's. */
  lemma KeysCons<K, V>(s: seq<(K, V)>)
    requires s != []
    ensures Keys(s) == [s[0].0] + Keys(s[1..])
  {
  }

  /** The keys of a prefix are the prefix of the keys. */
  lemma KeysPrefix<K, V>(s: seq<(K, V)>, n: nat)
    requires n <= |s|
    ensures Keys(s[..n]) == Keys(s)[..n]
  {
  }

  /** A key list with one key in front is distinct iff that key is new and the rest is distinct. */
  lemma DistinctCons<K>(a: K, ks: seq<K>)
    ensures Distinct([a] + ks) <==> a !in ks && Distinct(ks)
  {
    var l := [a] + ks;
    if a !in ks && Distinct(ks) {
      forall i, j | 0 <= i < j < |l| ensures l[i] != l[j] {
        assert l[j] == ks[j - 1];
        if i > 0 {
          assert l[i] == ks[i - 1];
        }
      }
    }
    if Distinct(l) {
      forall i, j | 0 <= i < j < |ks| ensures ks[i] != ks[j] {
        assert ks[i] == l[i + 1] && ks[j] == l[j + 1];
      }
      forall j | 0 <= j < |ks| ensures ks[j] != a {
        assert l[0] == a && ks[j] == l[j + 1];
      }
    }
  }

  /** A prefix of a distinct key list is distinct. */
  lemma DistinctPrefix<K>(ks: seq<K>, n: nat)
    requires Distinct(ks) && n <= |ks|
    ensures Distinct(ks[..n])
  {
  }

  /** Removing keeps the keys distinct, and the removed key is then absent. */
  lemma {:induction false} RemoveDistinct<K(!new), V>(s: seq<(K, V)>, k: K)
    requires Distinct(Keys(s))
    ensures Distinct(Keys(Remove(s, k)))
    ensures k !in Keys(Remove(s, k))
  {
    if s != [] {
      KeysCons(s);
      DistinctCons(s[0].0, Keys(s[1..]));
      if s[0].0 != k {
        RemoveDistinct(s[1..], k);
        var rest := Remove(s[1..], k);
        assert Lookup(rest, s[0].0) == Lookup(s[1..], s[0].0);
        KeysCons(Remove(s, k));
        assert Remove(s, k)[1..] == rest;
        DistinctCons(s[0].0, Keys(rest));
      }
    }
  }

  /** `cache_get`'s effect on recency: a key found moves to the front. */
  function Touch<K(==, !new), V>(s: seq<(K, V)>, k: K): seq<(K, V)>
  {
    match Lookup(s, k)
    case None => s
    case Some(v) => [(k, v)] + Remove(s, k)
  }

  /** A read changes the order only: same size, same value for every key, the key read first. */
  lemma TouchKeepsContents<K(!new), V>(capacity: nat, s: seq<(K, V)>, k: K)
    requires Invariant(capacity, s)
    ensures Invariant(capacity, Touch(s, k))
    ensures |Touch(s, k)| == |s|
    ensures forall k' :: Lookup(Touch(s, k), k') == Lookup(s, k')
    ensures k in Keys(s) ==> Touch(s, k)[0].0 == k
  {
    if Lookup(s, k).Some? {
      RemoveDistinct(s, k);
      var t := Touch(s, k);
      KeysCons(t);
      assert t[1..] == Remove(s, k);
      DistinctCons(k, Keys(Remove(s, k)));
    }
  }

  /**
   * `cache_set`: the written entry goes to the front; an older entry for the
   * same key is dropped; if the store was full with other keys, its least
   * recently used entry (the last one) is evicted.
   */
  function Put<K(==, !new), V>(capacity: nat, s: seq<(K, V)>, k: K, v: V): (r: seq<(K, V)>)
    requires 0 < capacity
    ensures |r| <= capacity
    ensures Lookup(r, k) == Some(v)
  {
    var rest := Remove(s, k);
    [(k, v)] + if |rest| < capacity then rest else rest[..capacity - 1]
  }

  /** Dropping the last entry loses exactly its key. */
  lemma {:induction false} LookupDropLast<K(!new), V>(s: seq<(K, V)>, k: K)
    requires Distinct(Keys(s)) && s != []
    ensures Lookup(s[..|s| - 1], k) == if k == s[|s| - 1].0 then None else Lookup(s, k)
  {
    if |s| > 1 {
      assert Keys(s[1..]) == Keys(s)[1..];
      assert s[..|s| - 1][1..] == s[1..][..|s[1..]| - 1];
      LookupDropLast(s[1..], k);
    }
  }

  /** Capacity invariant: a write never leaves more than `capacity` entries nor a key twice. */
  lemma {:induction false} PutKeepsInvariant<K(!new), V>(capacity: nat, s: seq<(K, V)>, k: K, v: V)
    requires Invariant(capacity, s)
    ensures Invariant(capacity, Put(capacity, s, k, v))
  {
    RemoveDistinct(s, k);
    var rest := Remove(s, k);
    var kept := if |rest| < capacity then rest else rest[..capacity - 1];
    assert kept == rest[..|kept|];
    KeysPrefix(rest, |kept|);
    DistinctPrefix(Keys(rest), |kept|);
    var r := Put(capacity, s, k, v);
    KeysCons(r);
    assert r[1..] == kept;
    DistinctCons(k, Keys(kept));
  }

  /** Writing a key already present replaces its value; the size and all other keys stay as they were. */
  lemma PutReplaces<K(!new), V>(capacity: nat, s: seq<(K, V)>, k: K, v: V)
    requires Invariant(capacity, s) && k in Keys(s)
    ensures |Put(capacity, s, k, v)| == |s|
    ensures forall k' :: k' != k ==> Lookup(Put(capacity, s, k, v), k') == Lookup(s, k')
  {
  }

  /** Writing a new key into a store with room adds one entry in front of the others. */
  lemma PutAdds<K(!new), V>(capacity: nat, s: seq<(K, V)>, k: K, v: V)
    requires Invariant(capacity, s) && k !in Keys(s) && |s| < capacity
    ensures Put(capacity, s, k, v) == [(k, v)] + s
    ensures |Put(capacity, s, k, v)| == |s| + 1
  {
  }

  /**
   * Writing a new key into a full store evicts exactly one entry, the least
   * recently used one; the size stays at `capacity`.
   */
  lemma PutEvicts<K(!new), V>(capacity: nat, s: seq<(K, V)>, k: K, v: V)
    requires Invariant(capacity, s) && k !in Keys(s) && |s| == capacity
    ensures Put(capacity, s, k, v) == [(k, v)] + s[..capacity - 1]
    ensures |Put(capacity, s, k, v)| == capacity
    ensures Lookup(Put(capacity, s, k, v), s[capacity - 1].0) == None
    ensures forall k' :: k' != k && k' != s[capacity - 1].0 ==> Lookup(Put(capacity, s, k, v), k') == Lookup(s, k')
  {
    var r := Put(capacity, s, k, v);
    forall k' ensures Lookup(r, k') == if k' == k then Some(v) else Lookup(s[..capacity - 1], k') {
      assert r[1..] == s[..capacity - 1];
    }
    forall k' ensures Lookup(s[..capacity - 1], k') == if k' == s[capacity - 1].0 then None else Lookup(s, k') {
      LookupDropLast(s, k');
    }
  }

  /**
   * `SizedCache<K, V>`: a store created with a fixed number of slots, used
   * through `cache_get`, `cache_set` and `cache_size`.
   */
  class SizedCache<K(==, !new), V> {
    const capacity: nat
    /** The entries, most recently used first. */
    var entries: seq<(K, V)>

    ghost predicate Valid()
      reads this
    {
      Invariant(capacity, entries)
    }

    /** `SizedCache::with_size`, which panics on a size of 0. */
    constructor WithSize(size: nat)
      requires size > 0
      ensures Valid() && capacity == size && entries == []
    {
      capacity := size;
      entries := [];
    }

    /** `cache_get`: the value stored under `k`, which becomes the most recently used entry. */
    method CacheGet(k: K) returns (r: Option<V>)
      requires Valid()
      modifies this
      ensures Valid()
      ensures r == Lookup(old(entries), k)
      ensures entries == Touch(old(entries), k)
    {
      TouchKeepsContents(capacity, entries, k);
      r := Lookup(entries, k);
      entries := Touch(entries, k);
    }

    /** `cache_set`: stores `v` under `k` and gives back the value it replaced. */
    method CacheSet(k: K, v: V) returns (previous: Option<V>)
      requires Valid()
      modifies this
      ensures Valid()
      ensures previous == Lookup(old(entries), k)
      ensures entries == Put(capacity, old(entries), k, v)
    {
      PutKeepsInvariant(capacity, entries, k, v);
      previous := Lookup(entries, k);
      entries := Put(capacity, entries, k, v);
    }

    /** `cache_size`: the number of entries, never above the capacity. */
    method CacheSize() returns (n: nat)
      requires Valid()
      ensures n == |entries| && n <= capacity
    {
      n := |entries|;
    }
  }
}
