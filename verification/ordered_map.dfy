/**
 * Insertion-ordered dictionaries as association lists, the way Python's
 * `dict` behaves: a lookup finds the binding of a key, an assignment to a
 * present key overwrites it in place, and an assignment to a new key appends.
 */
module OrderedMap {
  import opened Wrappers

  /** The keys of `m`, in insertion order. */
  function Keys<K, V>(m: seq<(K, V)>): (ks: seq<K>)
    ensures |ks| == |m|
    ensures forall i :: 0 <= i < |m| ==> ks[i] == m[i].0
  {
    if |m| == 0 then [] else [m[0].0] + Keys(m[1..])
  }

  /** The values of `m`, in insertion order. */
  function Values<K, V>(m: seq<(K, V)>): (vs: seq<V>)
    ensures |vs| == |m|
    ensures forall i :: 0 <= i < |m| ==> vs[i] == m[i].1
  {
    if |m| == 0 then [] else [m[0].1] + Values(m[1..])
  }

  /** No key is bound twice: the shape every Python dict has. */
  predicate UniqueKeys<K(==), V>(m: seq<(K, V)>) {
    forall i, j :: 0 <= i < j < |m| ==> m[i].0 != m[j].0
  }

  /** `d.get(k)`: the first binding of `k`, or `None` when `k` is absent. */
  function Lookup<K(==), V>(m: seq<(K, V)>, k: K): (r: Option<V>)
    ensures r.None? <==> k !in Keys(m)
    ensures r.Some? ==> exists i :: 0 <= i < |m| && m[i] == (k, r.value)
  {
    if |m| == 0 then None
    else if m[0].0 == k then Some(m[0].1)
    else
      var r := Lookup(m[1..], k);
      assert r.Some? ==> exists i :: 0 <= i < |m| - 1 && m[1..][i] == (k, r.value);
      r
  }

  /** `d[k] = v`: overwrite the binding of `k` in place, or append a new one. */
  function Put<K(==,!new), V>(m: seq<(K, V)>, k: K, v: V): (r: seq<(K, V)>)
    ensures Keys(r) == if k in Keys(m) then Keys(m) else Keys(m) + [k]
    ensures Lookup(r, k) == Some(v)
    ensures forall k' :: k' != k ==> Lookup(r, k') == Lookup(m, k')
  {
    if |m| == 0 then [(k, v)]
    else if m[0].0 == k then
      var r := [(k, v)] + m[1..];
      assert r[1..] == m[1..];
      assert Keys(r) == Keys(m);
      r
    else
      var rest := Put(m[1..], k, v);
      var r := [m[0]] + rest;
      KeysCons(m[0], rest);
      KeysCons(m[0], m[1..]);
      assert r[1..] == rest;
      r
  }

  lemma KeysCons<K, V>(e: (K, V), m: seq<(K, V)>)
    ensures Keys([e] + m) == [e.0] + Keys(m)
  {
    assert ([e] + m)[1..] == m;
  }

  /** Every binding after an assignment is an old one or the new one. */
  lemma {:induction false} PutEntries<K(!new), V>(m: seq<(K, V)>, k: K, v: V)
    ensures forall e :: e in Put(m, k, v) ==> e in m || e == (k, v)
    decreases |m|
  {
    if |m| > 0 && m[0].0 != k {
      PutEntries(m[1..], k, v);
      assert forall e :: e in m[1..] ==> e in m;
    }
  }

  /** Assignment keeps keys unique. */
  lemma {:induction false} PutKeepsUniqueKeys<K(!new), V>(m: seq<(K, V)>, k: K, v: V)
    requires UniqueKeys(m)
    ensures UniqueKeys(Put(m, k, v))
  {
    var r := Put(m, k, v);
    var ks := Keys(r);
    forall i, j | 0 <= i < j < |r|
      ensures r[i].0 != r[j].0
    {
      if k in Keys(m) {
        assert ks[i] == Keys(m)[i] && ks[j] == Keys(m)[j];
      } else {
        assert ks == Keys(m) + [k];
        if j == |m| {
          assert ks[i] == Keys(m)[i];
          assert Keys(m)[i] == m[i].0;
        } else {
          assert ks[i] == Keys(m)[i] && ks[j] == Keys(m)[j];
        }
      }
    }
  }

  /** In a dict with unique keys, the binding at position `i` is the one a lookup finds. */
  lemma {:induction false} LookupAtIndex<K, V>(m: seq<(K, V)>, i: nat)
    requires UniqueKeys(m) && i < |m|
    ensures Lookup(m, m[i].0) == Some(m[i].1)
  {
    if i > 0 {
      assert m[0].0 != m[i].0;
      assert m[1..][i - 1] == m[i];
      LookupAtIndex(m[1..], i - 1);
    }
  }

  /** None of the first `i` bindings has key `k`, checked one position at a time. */
  predicate FreeBefore<K(==), V>(m: seq<(K, V)>, k: K, i: nat)
    requires i <= |m|
  {
    i == 0 || (m[i - 1].0 != k && FreeBefore(m, k, i - 1))
  }

  lemma {:induction false} FreeBeforeAll<K, V>(m: seq<(K, V)>, k: K, i: nat)
    requires i <= |m| && FreeBefore(m, k, i)
    ensures forall j :: 0 <= j < i ==> m[j].0 != k
  {
    if i > 0 {
      FreeBeforeAll(m, k, i - 1);
    }
  }

  /** The binding at position `i` is the one a lookup finds when no earlier binding has its key. */
  lemma {:induction false} LookupFirst<K, V>(m: seq<(K, V)>, i: nat)
    requires i < |m| && forall j :: 0 <= j < i ==> m[j].0 != m[i].0
    ensures Lookup(m, m[i].0) == Some(m[i].1)
  {
    if i > 0 {
      assert m[0].0 != m[i].0;
      assert m[1..][i - 1] == m[i];
      LookupFirst(m[1..], i - 1);
    }
  }

  /** `LookupFirst` with the side condition checked position by position. */
  lemma LookupFree<K, V>(m: seq<(K, V)>, i: nat)
    requires i < |m| && FreeBefore(m, m[i].0, i)
    ensures Lookup(m, m[i].0) == Some(m[i].1)
  {
    FreeBeforeAll(m, m[i].0, i);
    LookupFirst(m, i);
  }

  /** No value is bound twice. */
  predicate UniqueValues<K, V(==)>(m: seq<(K, V)>) {
    forall i, j :: 0 <= i < j < |m| ==> m[i].1 != m[j].1
  }

  /** `{v: k for k, v in m.items()}`: walked in order, so a later pair overwrites an earlier one. */
  function Invert<K, V(==,!new)>(m: seq<(K, V)>): seq<(V, K)>
  {
    if |m| == 0 then [] else Put(Invert(m[..|m| - 1]), m[|m| - 1].1, m[|m| - 1].0)
  }

  /** When no value repeats, the inverted dict has the values of `m` as its keys, in order. */
  lemma {:induction false} InvertKeys<K, V(!new)>(m: seq<(K, V)>)
    requires UniqueValues(m)
    ensures Keys(Invert(m)) == Values(m)
  {
    if |m| > 0 {
      var p := m[..|m| - 1];
      PrefixUniqueValues(m);
      InvertKeys(p);
      PutNewKey(Invert(p), m[|m| - 1].1, m[|m| - 1].0);
      ValuesSnoc(m);
    }
  }

  lemma PutNewKey<K(!new), V>(m: seq<(K, V)>, k: K, v: V)
    requires k !in Keys(m)
    ensures Keys(Put(m, k, v)) == Keys(m) + [k]
  {
  }

  lemma KeysSnoc<K, V>(m: seq<(K, V)>)
    requires |m| > 0
    ensures Keys(m) == Keys(m[..|m| - 1]) + [m[|m| - 1].0]
  {
    var p := m[..|m| - 1];
    var ks, js := Keys(m), Keys(p) + [m[|m| - 1].0];
    forall i | 0 <= i < |ks| ensures ks[i] == js[i] {
      if i < |p| {
        assert js[i] == Keys(p)[i] == p[i].0;
      }
    }
    assert ks == js;
  }

  lemma ValuesSnoc<K, V>(m: seq<(K, V)>)
    requires |m| > 0
    ensures Values(m) == Values(m[..|m| - 1]) + [m[|m| - 1].1]
  {
    var p := m[..|m| - 1];
    var vs, ws := Values(m), Values(p) + [m[|m| - 1].1];
    forall i | 0 <= i < |vs| ensures vs[i] == ws[i] {
      if i < |p| {
        assert ws[i] == Values(p)[i] == p[i].1;
      }
    }
    assert vs == ws;
  }

  /** Dropping the last pair keeps the values unique, and the dropped value is not among the rest. */
  lemma PrefixUniqueValues<K, V>(m: seq<(K, V)>)
    requires UniqueValues(m) && |m| > 0
    ensures UniqueValues(m[..|m| - 1]) && m[|m| - 1].1 !in Values(m[..|m| - 1])
  {
    var p := m[..|m| - 1];
    forall i, j | 0 <= i < j < |p| ensures p[i].1 != p[j].1 {
      assert p[i] == m[i] && p[j] == m[j];
    }
    forall i | 0 <= i < |p| ensures Values(p)[i] != m[|m| - 1].1 {
      assert p[i] == m[i];
    }
  }

  /** When no value repeats, the inverted dict maps each value back to its key. */
  lemma {:induction false} InvertLookup<K, V(!new)>(m: seq<(K, V)>, i: nat)
    requires UniqueValues(m) && i < |m|
    ensures Lookup(Invert(m), m[i].1) == Some(m[i].0)
  {
    var p := m[..|m| - 1];
    if i < |m| - 1 {
      PrefixUniqueValues(m);
      assert p[i] == m[i];
      assert m[i].1 != m[|m| - 1].1;
      InvertLookup(p, i);
    }
  }

  /** Looking a key up, then its value up in the inverted dict, gives the key back. */
  lemma InvertRoundTrip<K(!new), V(!new)>(m: seq<(K, V)>, k: K)
    requires UniqueKeys(m) && UniqueValues(m) && k in Keys(m)
    ensures Lookup(m, k).Some?
    ensures Lookup(Invert(m), Lookup(m, k).value) == Some(k)
  {
    var i :| 0 <= i < |m| && Keys(m)[i] == k;
    LookupAtIndex(m, i);
    InvertLookup(m, i);
  }

  /** Looking a value up in the inverted dict, then its key up in `m`, gives the value back. */
  lemma InvertRoundTripBack<K(!new), V(!new)>(m: seq<(K, V)>, v: V)
    requires UniqueKeys(m) && UniqueValues(m) && v in Keys(Invert(m))
    ensures Lookup(Invert(m), v).Some?
    ensures Lookup(m, Lookup(Invert(m), v).value) == Some(v)
  {
    InvertKeys(m);
    var i :| 0 <= i < |m| && Values(m)[i] == v;
    InvertLookup(m, i);
    LookupAtIndex(m, i);
  }
}
