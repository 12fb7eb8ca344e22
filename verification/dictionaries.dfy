/** Dictionaries seen in one iteration order.

    Swift leaves the iteration order of a `Dictionary` unspecified, so the
    model never relies on one: a dictionary is handed around as the sequence
    of its `(key, value)` pairs in whatever order a loop visits them, and
    every result that depends on the order is stated relative to that
    sequence. */
module Dictionaries {
  import opened Wrappers

  /** The keys of `d`, in iteration order. */
  function Keys<K, V>(d: seq<(K, V)>): (ks: seq<K>)
    ensures |ks| == |d|
    ensures forall i :: 0 <= i < |d| ==> ks[i] == d[i].0
  {
    seq(|d|, i requires 0 <= i < |d| => d[i].0)
  }

  /** No key occurs twice: the shape of every real dictionary. */
  predicate DistinctKeys<K(==), V>(d: seq<(K, V)>) {
    forall i, j :: 0 <= i < j < |d| ==> d[i].0 != d[j].0
  }

  /** The value stored under `key`, the first one if `d` repeats the key. */
  function Lookup<K(==), V>(d: seq<(K, V)>, key: K): Option<V> {
    if |d| == 0 then None
    else if d[0].0 == key then Some(d[0].1)
    else Lookup(d[1..], key)
  }

  /** A key is found exactly when it is one of the keys. */
  lemma {:induction false} LookupFindsKeys<K, V>(d: seq<(K, V)>, key: K)
    ensures Lookup(d, key).None? <==> key !in Keys(d)
    ensures Lookup(d, key).Some? ==> (key, Lookup(d, key).value) in d
  {
    if |d| > 0 {
      assert Keys(d) == [d[0].0] + Keys(d[1..]);
      LookupFindsKeys(d[1..], key);
    }
  }

  /** A pair appended under another key does not change what `key` finds. */
  lemma {:induction false} LookupAppendOther<K, V>(d: seq<(K, V)>, extra: (K, V), key: K)
    requires extra.0 != key
    ensures Lookup(d + [extra], key) == Lookup(d, key)
  {
    if |d| > 0 {
      assert (d + [extra])[1..] == d[1..] + [extra];
      LookupAppendOther(d[1..], extra, key);
    }
  }

  /** The value found for the key at position `i` is the one stored there
      when no earlier pair has that key. */
  lemma {:induction false} LookupFirst<K, V>(d: seq<(K, V)>, i: int)
    requires 0 <= i < |d|
    requires forall j :: 0 <= j < i ==> d[j].0 != d[i].0
    ensures Lookup(d, d[i].0) == Some(d[i].1)
  {
    if i > 0 {
      assert d[1..][i - 1] == d[i];
      LookupFirst(d[1..], i - 1);
    }
  }
}
