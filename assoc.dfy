/**
 * Ruby hashes as ordered association lists: a sequence of key/value pairs
 * whose keys are pairwise distinct, in insertion order.
 */
module Assoc {
  import opened Wrappers

  ghost predicate DistinctKeys<K, V>(s: seq<(K, V)>)
  {
    forall i, j :: 0 <= i < j < |s| ==> s[i].0 != s[j].0
  }

  /** A Ruby `Hash`: keys are unique, and insertion order is remembered. */
  type Hash<K, V> = s: seq<(K, V)> | DistinctKeys(s)

  function Keys<K, V>(s: seq<(K, V)>): set<K>
  {
    if s == [] then {} else {s[0].0} + Keys(s[1..])
  }

  lemma {:induction false} InKeys<K, V>(s: seq<(K, V)>, k: K)
    ensures k in Keys(s) <==> exists i :: 0 <= i < |s| && s[i].0 == k
  {
    if s != [] {
      InKeys(s[1..], k);
      if k in Keys(s[1..]) {
        var i :| 0 <= i < |s| - 1 && s[1..][i].0 == k;
        assert s[i + 1].0 == k;
      }
      if exists i :: 0 <= i < |s| && s[i].0 == k {
        var i :| 0 <= i < |s| && s[i].0 == k;
        if i > 0 { assert s[1..][i - 1].0 == k; }
      }
    }
  }

  /** `h[k]`, with `None` for a missing key (`h.key?(k)` is `Lookup(h, k).Some?`). */
  function Lookup<K(==), V>(s: seq<(K, V)>, k: K): (r: Option<V>)
    ensures r.Some? <==> k in Keys(s)
  {
    if s == [] then None
    else if s[0].0 == k then Some(s[0].1)
    else Lookup(s[1..], k)
  }

  /** A lookup that finds a value finds it in some pair of the list. */
  lemma {:induction false} LookupFound<K, V>(s: seq<(K, V)>, k: K)
    requires Lookup(s, k).Some?
    ensures exists i :: 0 <= i < |s| && s[i] == (k, Lookup(s, k).value)
  {
    if s[0].0 != k {
      LookupFound(s[1..], k);
      var i :| 0 <= i < |s| - 1 && s[1..][i] == (k, Lookup(s, k).value);
      assert s[i + 1] == s[1..][i];
    }
  }

  /** In a hash, the pair at position `i` is what a lookup of its key finds. */
  lemma {:induction false} LookupAt<K, V>(s: Hash<K, V>, i: nat)
    requires i < |s|
    ensures Lookup(s, s[i].0) == Some(s[i].1)
  {
    if i > 0 {
      assert s[0].0 != s[i].0;
      assert s[1..][i - 1] == s[i];
      LookupAt(s[1..], i - 1);
    }
  }

  /**
   * `h[k] = v`: an existing key keeps its position and takes the new value,
   * a new key is appended at the end.
   */
  function Put<K(==), V>(s: seq<(K, V)>, k: K, v: V): (r: seq<(K, V)>)
    ensures Keys(r) == Keys(s) + {k}
  {
    if s == [] then [(k, v)]
    else if s[0].0 == k then
      assert s == [s[0]] + s[1..];
      [(k, v)] + s[1..]
    else [s[0]] + Put(s[1..], k, v)
  }

  lemma {:induction false} PutDistinct<K, V>(s: Hash<K, V>, k: K, v: V)
    ensures DistinctKeys(Put(s, k, v))
  {
    if s != [] && s[0].0 != k {
      PutDistinct(s[1..], k, v);
      InKeys(s[1..], s[0].0);
      InKeys(Put(s[1..], k, v), s[0].0);
    }
  }

  lemma {:induction false} LookupPut<K, V>(s: seq<(K, V)>, k: K, v: V, j: K)
    ensures Lookup(Put(s, k, v), j) == if j == k then Some(v) else Lookup(s, j)
  {
    if s != [] && s[0].0 != k {
      LookupPut(s[1..], k, v, j);
    }
  }

  /** `Hash[pairs]` / `pairs.to_h`: the pairs are inserted left to right. */
  function FromPairs<K(==), V>(ps: seq<(K, V)>): (h: Hash<K, V>)
    ensures Keys(h) == Keys(ps)
  {
    if ps == [] then []
    else
      var n := |ps| - 1;
      var prefix := FromPairs(ps[..n]);
      PutDistinct(prefix, ps[n].0, ps[n].1);
      KeysSplitLast(ps);
      Put(prefix, ps[n].0, ps[n].1)
  }

  lemma {:induction false} KeysSplitLast<K, V>(ps: seq<(K, V)>)
    requires ps != []
    ensures Keys(ps) == Keys(ps[..|ps| - 1]) + {ps[|ps| - 1].0}
  {
    if |ps| > 1 {
      KeysSplitLast(ps[1..]);
      assert ps[1..][..|ps| - 2] == ps[..|ps| - 1][1..];
    }
  }

  /** Whether `ps[i]` is the last pair in `ps` whose key is `k`. */
  ghost predicate LastWith<K, V>(ps: seq<(K, V)>, k: K, i: int)
  {
    0 <= i < |ps| && ps[i].0 == k && forall j :: i < j < |ps| ==> ps[j].0 != k
  }

  /** After `Hash[ps]`, a key holds the value of the LAST pair that carries it. */
  lemma {:induction false} LookupFromPairs<K, V>(ps: seq<(K, V)>, k: K, i: int)
    requires LastWith(ps, k, i)
    ensures Lookup(FromPairs(ps), k) == Some(ps[i].1)
  {
    var n := |ps| - 1;
    LookupPut(FromPairs(ps[..n]), ps[n].0, ps[n].1, k);
    if i < n {
      assert LastWith(ps[..n], k, i);
      LookupFromPairs(ps[..n], k, i);
    }
  }

  /** Swaps every pair: `to_a.map(&:rotate)`. */
  function Swap<K, V>(s: seq<(K, V)>): (r: seq<(V, K)>)
    ensures |r| == |s| && forall i :: 0 <= i < |s| ==> r[i] == (s[i].1, s[i].0)
  {
    seq(|s|, i requires 0 <= i < |s| => (s[i].1, s[i].0))
  }

  /** `h.to_a.map(&:rotate).to_h`: every pair swapped, then rebuilt as a hash. */
  function Invert<K, V(==)>(s: seq<(K, V)>): Hash<V, K>
  {
    FromPairs(Swap(s))
  }

  /** The values of an injective table are pairwise distinct. */
  ghost predicate Injective<K, V>(s: seq<(K, V)>)
  {
    forall i, j :: 0 <= i < j < |s| ==> s[i].1 != s[j].1
  }

  /** A value no pair of the table holds is absent from the inverted table. */
  lemma InvertMissing<K, V>(s: seq<(K, V)>, v: V)
    ensures Lookup(Invert(s), v).None? <==> forall i :: 0 <= i < |s| ==> s[i].1 != v
  {
    var sw := Swap(s);
    InKeys(sw, v);
    if !forall i :: 0 <= i < |s| ==> s[i].1 != v {
      var i :| 0 <= i < |s| && s[i].1 == v;
      assert sw[i].0 == v;
    }
  }

  /**
   * Looking a value up in the inverted table gives the key of the last pair
   * holding that value (Ruby's `to_h` keeps the later of two equal keys).
   */
  lemma InvertLast<K, V>(s: seq<(K, V)>, v: V, i: int)
    requires 0 <= i < |s| && s[i].1 == v
    requires forall j :: i < j < |s| ==> s[j].1 != v
    ensures Lookup(Invert(s), v) == Some(s[i].0)
  {
    LookupFromPairs(Swap(s), v, i);
  }

  /** For an injective table, inversion undoes the forward lookup. */
  lemma InvertInjective<K, V>(s: Hash<K, V>, i: nat)
    requires Injective(s) && i < |s|
    ensures Lookup(Invert(s), s[i].1) == Some(s[i].0)
  {
    InvertLast(s, s[i].1, i);
  }
}
