/**
 The counting records of the summaries (`byModel`, `byType` of the agent
 statistics): `record[key] = (record[key] || 0) + 1` in a loop. A record is
 an association list in key-insertion order, which is the order JavaScript
 gives to non-numeric string keys.
 */
module Tally {

  type Counts<K> = seq<(K, nat)>

  /** No key appears twice. */
  predicate DistinctKeys<K(==)>(t: Counts<K>) {
    forall i, j :: 0 <= i < j < |t| ==> t[i].0 != t[j].0
  }

  /** `record[k] || 0`. */
  function Lookup<K(==)>(t: Counts<K>, k: K): nat {
    if t == [] then 0
    else if t[0].0 == k then t[0].1
    else Lookup(t[1..], k)
  }

  /** The sum of all counts. */
  function Total<K>(t: Counts<K>): nat {
    if t == [] then 0 else t[0].1 + Total(t[1..])
  }

  /** `record[k] = (record[k] || 0) + 1`: an existing key is incremented in
      place, a new key is appended with count 1. */
  function Bump<K(==)>(t: Counts<K>, k: K): (r: Counts<K>)
    ensures |r| == if exists i :: 0 <= i < |t| && t[i].0 == k then |t| else |t| + 1
    ensures forall i :: 0 <= i < |t| ==> r[i].0 == t[i].0
    ensures |r| == |t| + 1 ==> r[|t|] == (k, 1)
  {
    if t == [] then [(k, 1)]
    else if t[0].0 == k then [(k, t[0].1 + 1)] + t[1..]
    else [t[0]] + Bump(t[1..], k)
  }

  /** Bumping `k` adds one to `k`'s count and leaves every other key's count
      alone. */
  lemma {:induction false} LookupBump<K>(t: Counts<K>, k: K, j: K)
    ensures Lookup(Bump(t, k), j) == Lookup(t, j) + (if j == k then 1 else 0)
  {
    if t != [] && t[0].0 != k {
      LookupBump(t[1..], k, j);
      assert Bump(t, k)[1..] == Bump(t[1..], k);
    } else if t != [] {
      assert Bump(t, k)[1..] == t[1..];
    }
  }

  /** Bumping adds one to the total. */
  lemma {:induction false} TotalBump<K>(t: Counts<K>, k: K)
    ensures Total(Bump(t, k)) == Total(t) + 1
  {
    if t != [] && t[0].0 != k {
      TotalBump(t[1..], k);
      assert Bump(t, k)[1..] == Bump(t[1..], k);
    } else if t != [] {
      assert Bump(t, k)[1..] == t[1..];
    }
  }

  /** Bumping keeps keys distinct. */
  lemma BumpDistinct<K>(t: Counts<K>, k: K)
    requires DistinctKeys(t)
    ensures DistinctKeys(Bump(t, k))
  {
    var r := Bump(t, k);
    forall i, j | 0 <= i < j < |r|
      ensures r[i].0 != r[j].0
    {
      if j == |t| {
        assert r[j].0 == k;
        assert !(exists m :: 0 <= m < |t| && t[m].0 == k);
        assert r[i].0 == t[i].0;
      }
    }
  }

  /** The loop `for (const k of ks) record[k] = (record[k] || 0) + 1` from an
      empty record. */
  function Tally<K(==)>(ks: seq<K>): (r: Counts<K>)
    ensures |r| <= |ks|
  {
    if ks == [] then [] else Bump(Tally(ks[..|ks| - 1]), ks[|ks| - 1])
  }

  /** The tally counts each key as often as it occurs, has distinct keys, and
      its counts add up to the number of keys counted. */
  lemma {:induction false} TallyCounts<K>(ks: seq<K>)
    ensures forall k :: Lookup(Tally(ks), k) == multiset(ks)[k]
    ensures DistinctKeys(Tally(ks))
    ensures Total(Tally(ks)) == |ks|
  {
    if ks != [] {
      var init := ks[..|ks| - 1];
      var last := ks[|ks| - 1];
      TallyCounts(init);
      assert ks == init + [last];
      forall k ensures Lookup(Tally(ks), k) == multiset(ks)[k] {
        LookupBump(Tally(init), last, k);
      }
      BumpDistinct(Tally(init), last);
      TotalBump(Tally(init), last);
    }
  }
}
