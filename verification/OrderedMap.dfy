/** A map that remembers the order in which its keys were first put, as the client's language
    provides: updating a key keeps its place, deleting and putting it again moves it to the end. */
module OrderedMap {
  import opened Common

  function Keys<K, V>(m: seq<(K, V)>): (ks: seq<K>)
    ensures |ks| == |m|
    ensures forall i :: 0 <= i < |m| ==> ks[i] == m[i].0
  {
    seq(|m|, i requires 0 <= i < |m| => m[i].0)
  }

  ghost predicate Distinct<K>(ks: seq<K>) {
    forall i, j :: 0 <= i < j < |ks| ==> ks[i] != ks[j]
  }

  function Get<K(==), V>(m: seq<(K, V)>, k: K): (r: Option<V>)
    ensures r.None? <==> forall i :: 0 <= i < |m| ==> m[i].0 != k
    ensures r.Some? ==> (k, r.value) in m
  {
    if m == [] then None
    else if m[0].0 == k then Some(m[0].1)
    else Get(m[1..], k)
  }

  function Put<K(==), V>(m: seq<(K, V)>, k: K, v: V): seq<(K, V)> {
    if m == [] then [(k, v)]
    else if m[0].0 == k then [(k, v)] + m[1..]
    else [m[0]] + Put(m[1..], k, v)
  }

  function Delete<K(==), V>(m: seq<(K, V)>, k: K): seq<(K, V)> {
    if m == [] then []
    else if m[0].0 == k then m[1..]
    else [m[0]] + Delete(m[1..], k)
  }

  /** A new key goes to the end. */
  lemma {:induction false} PutNew<K, V>(m: seq<(K, V)>, k: K, v: V)
    requires Get(m, k).None?
    ensures Put(m, k, v) == m + [(k, v)]
  {
    if m != [] {
      assert Get(m[1..], k).None?;
      PutNew(m[1..], k, v);
      assert m == [m[0]] + m[1..];
    }
  }

  /** A known key keeps its place. */
  lemma {:induction false} PutOld<K, V>(m: seq<(K, V)>, k: K, v: V)
    requires Get(m, k).Some?
    ensures Keys(Put(m, k, v)) == Keys(m)
  {
    if m[0].0 != k {
      PutOld(m[1..], k, v);
      var r := Put(m, k, v);
      assert r[1..] == Put(m[1..], k, v);
      forall i | 0 <= i < |m|
        ensures Keys(r)[i] == Keys(m)[i]
      {
        if i > 0 {
          assert r[i] == r[1..][i - 1] && m[i] == m[1..][i - 1];
          assert Keys(Put(m[1..], k, v))[i - 1] == Keys(m[1..])[i - 1];
        }
      }
    }
  }

  lemma {:induction false} GetPut<K, V>(m: seq<(K, V)>, k: K, v: V, other: K)
    ensures Get(Put(m, k, v), other) == if other == k then Some(v) else Get(m, other)
  {
    if m != [] && m[0].0 != k {
      GetPut(m[1..], k, v, other);
      assert Put(m, k, v)[1..] == Put(m[1..], k, v);
    } else if m != [] {
      assert Put(m, k, v)[1..] == m[1..];
    }
  }

  /** Deleting the oldest key drops the first pair. */
  lemma DeleteFirst<K, V>(m: seq<(K, V)>)
    requires m != []
    ensures Delete(m, m[0].0) == m[1..]
  {
  }

  lemma GetRest<K, V>(m: seq<(K, V)>, k: K)
    requires m != [] && Distinct(Keys(m))
    ensures Get(m[1..], k) == if k == m[0].0 then None else Get(m, k)
  {
    assert forall i :: 0 <= i < |m[1..]| ==> m[1..][i].0 == Keys(m)[i + 1];
  }

  lemma {:induction false} GetDropped<K, V>(m: seq<(K, V)>, drop: nat, k: K)
    requires Distinct(Keys(m)) && drop <= |m|
    ensures Get(m[drop..], k).None? || Get(m[drop..], k) == Get(m, k)
    decreases drop
  {
    if drop > 0 {
      GetRest(m, k);
      assert forall i :: 0 <= i < |m[1..]| ==> Keys(m[1..])[i] == Keys(m)[i + 1];
      GetDropped(m[1..], drop - 1, k);
      assert m[1..][drop - 1..] == m[drop..];
    } else {
      assert m[drop..] == m;
    }
  }

  /** Putting replaces what the key had and touches nothing else. */
  lemma {:induction false} PutMembers<K, V>(m: seq<(K, V)>, k: K, v: V)
    requires Distinct(Keys(m))
    ensures Distinct(Keys(Put(m, k, v)))
    ensures forall p :: p in Put(m, k, v) <==> p == (k, v) || (p in m && p.0 != k)
    ensures |Put(m, k, v)| == |m| + if Get(m, k).None? then 1 else 0
  {
    var r := Put(m, k, v);
    if Get(m, k).None? {
      PutNew(m, k, v);
    } else {
      PutOld(m, k, v);
      assert |Keys(r)| == |Keys(m)|;
      var i := PlaceOf(m, k);
      PutAtPlace(m, k, v, i);
      assert r[i] == (k, v);
      forall j | 0 <= j < |m| && j != i
        ensures r[j] == m[j] && m[j].0 != k
      {
        assert Keys(m)[j] != Keys(m)[i];
      }
    }
  }

  lemma {:induction false} PlaceOf<K, V>(m: seq<(K, V)>, k: K) returns (i: nat)
    requires Get(m, k).Some?
    ensures i < |m| && m[i].0 == k && forall j :: 0 <= j < i ==> m[j].0 != k
  {
    i := 0;
    while m[i].0 != k
      invariant i < |m| && forall j :: 0 <= j < i ==> m[j].0 != k
      decreases |m| - i
    {
      if i + 1 == |m| {
        assert false;
      }
      i := i + 1;
    }
  }

  lemma {:induction false} PutAtPlace<K, V>(m: seq<(K, V)>, k: K, v: V, i: nat)
    requires i < |m| && m[i].0 == k && forall j :: 0 <= j < i ==> m[j].0 != k
    ensures Put(m, k, v) == m[i := (k, v)]
  {
    if i > 0 {
      PutAtPlace(m[1..], k, v, i - 1);
    }
  }

  /** Deleting removes the key and keeps the order of the rest. */
  lemma {:induction false} DeleteMembers<K, V>(m: seq<(K, V)>, k: K)
    requires Distinct(Keys(m))
    ensures Distinct(Keys(Delete(m, k)))
    ensures forall p :: p in Delete(m, k) <==> p in m && p.0 != k
    ensures |Delete(m, k)| == |m| - if Get(m, k).None? then 0 else 1
  {
    if Get(m, k).None? {
      DeleteAbsent(m, k);
    } else {
      var i := PlaceOf(m, k);
      DeleteAtPlace(m, k, i);
      hide Delete, Get;
      WithoutPlace(m, i);
    }
  }

  lemma WithoutPlace<K, V>(m: seq<(K, V)>, i: nat)
    requires i < |m| && Distinct(Keys(m))
    ensures Distinct(Keys(m[..i] + m[i + 1..]))
    ensures forall p :: p in m[..i] + m[i + 1..] <==> p in m && p.0 != m[i].0
  {
    var r := m[..i] + m[i + 1..];
    assert Keys(r) == Keys(m)[..i] + Keys(m)[i + 1..];
    forall p
      ensures p in r <==> p in m && p.0 != m[i].0
    {
      if p in m && p.0 != m[i].0 {
        assert m == m[..i] + [m[i]] + m[i + 1..];
      }
      if p in m[..i] {
        var j :| 0 <= j < i && m[..i][j] == p;
        assert Keys(m)[j] != Keys(m)[i];
      }
      if p in m[i + 1..] {
        var j :| 0 <= j < |m| - i - 1 && m[i + 1..][j] == p;
        assert Keys(m)[i + 1 + j] != Keys(m)[i];
      }
    }
  }

  lemma {:induction false} DeleteAtPlace<K, V>(m: seq<(K, V)>, k: K, i: nat)
    requires i < |m| && m[i].0 == k && forall j :: 0 <= j < i ==> m[j].0 != k
    ensures Delete(m, k) == m[..i] + m[i + 1..]
  {
    if i > 0 {
      DeleteAtPlace(m[1..], k, i - 1);
      assert m[..i] == [m[0]] + m[1..][..i - 1] && m[i + 1..] == m[1..][i..];
    }
  }

  lemma {:induction false} DeleteConcat<K, V>(a: seq<(K, V)>, b: seq<(K, V)>, k: K)
    requires Get(b, k).None?
    ensures Delete(a + b, k) == Delete(a, k) + b
  {
    if a == [] {
      assert a + b == b;
      DeleteAbsent(b, k);
    } else {
      assert (a + b)[1..] == a[1..] + b;
      if a[0].0 != k {
        DeleteConcat(a[1..], b, k);
      }
    }
  }

  lemma {:induction false} DeleteAbsent<K, V>(m: seq<(K, V)>, k: K)
    requires Get(m, k).None?
    ensures Delete(m, k) == m
  {
    if m != [] {
      assert Get(m[1..], k).None?;
      DeleteAbsent(m[1..], k);
    }
  }
}
