/**
 A map that iterates in the order its keys first came in: an update leaves a key where it is.

 It is a sequence of pairs.

 - `Get` finds the first pair of a key.
 - `Set` replaces the value of a key that is there and puts a new key behind the others.
 - `Distinct` says that every key is there once; `Set` keeps that.

 The `best` map and the buckets of a usage breakdown are such maps: which line stands for a message does
 not depend on the order, but the order is the one in which they are summed.
 */
module OrderedMap {
  import opened Basics

  type OMap<K, V> = seq<(K, V)>

  function Get<K(==), V>(m: OMap<K, V>, k: K): Option<V>
  {
    if m == [] then None else if m[0].0 == k then Some(m[0].1) else Get(m[1..], k)
  }

  function Set<K(==), V>(m: OMap<K, V>, k: K, v: V): (r: OMap<K, V>)
    ensures r != []
  {
    if m == [] then [(k, v)]
    else if m[0].0 == k then [(k, v)] + m[1..]
    else [m[0]] + Set(m[1..], k, v)
  }

  /** Every key once. */
  ghost predicate Distinct<K, V>(m: OMap<K, V>)
  {
    forall i, j | 0 <= i < j < |m| :: m[i].0 != m[j].0
  }

  lemma {:induction false} GetAfterSet<K, V>(m: OMap<K, V>, k: K, v: V, q: K)
    ensures Get(Set(m, k, v), q) == if q == k then Some(v) else Get(m, q)
    decreases |m|
  {
    if m == [] {
      assert Get<K, V>([(k, v)][1..], q) == None;
    } else if m[0].0 == k {
      assert ([(k, v)] + m[1..])[1..] == m[1..];
    } else {
      GetAfterSet(m[1..], k, v, q);
      assert ([m[0]] + Set(m[1..], k, v))[1..] == Set(m[1..], k, v);
    }
  }

  lemma {:induction false} GetFinds<K, V>(m: OMap<K, V>, k: K)
    ensures Get(m, k).Some? ==> exists i | 0 <= i < |m| :: m[i] == (k, Get(m, k).value)
    ensures Get(m, k).None? ==> forall i | 0 <= i < |m| :: m[i].0 != k
    decreases |m|
  {
    if m != [] && m[0].0 != k {
      GetFinds(m[1..], k);
      if Get(m, k).Some? {
        var i :| 0 <= i < |m[1..]| && m[1..][i] == (k, Get(m, k).value);
        assert m[i + 1] == (k, Get(m, k).value);
      }
      assert forall i | 1 <= i < |m| :: m[i] == m[1..][i - 1];
    } else if m != [] {
      assert m[0] == (k, Get(m, k).value);
    }
  }

  lemma {:induction false} GetAt<K, V>(m: OMap<K, V>, i: nat)
    requires Distinct(m) && i < |m|
    ensures Get(m, m[i].0) == Some(m[i].1)
    decreases |m|
  {
    if i > 0 {
      assert m[0].0 != m[i].0;
      GetAt(m[1..], i - 1);
    }
  }

  /** The keys of an updated map: those it had, and the new one behind them. */
  lemma {:induction false} KeysAfterSet<K, V>(m: OMap<K, V>, k: K, v: V)
    ensures Get(m, k).Some? ==> |Set(m, k, v)| == |m| && forall i | 0 <= i < |m| :: Set(m, k, v)[i].0 == m[i].0
    ensures Get(m, k).None? ==> Set(m, k, v) == m + [(k, v)]
    decreases |m|
  {
    if m != [] && m[0].0 != k {
      KeysAfterSet(m[1..], k, v);
      if Get(m, k).Some? {
        forall i | 0 <= i < |m| ensures Set(m, k, v)[i].0 == m[i].0 {
          assert i > 0 ==> Set(m, k, v)[i] == Set(m[1..], k, v)[i - 1] && m[i] == m[1..][i - 1];
        }
      } else {
        assert m == [m[0]] + m[1..];
      }
    }
  }

  lemma DistinctAfterSet<K, V>(m: OMap<K, V>, k: K, v: V)
    requires Distinct(m)
    ensures Distinct(Set(m, k, v))
  {
    KeysAfterSet(m, k, v);
    GetFinds(m, k);
  }
}
