/** What the lookup-table cache's eviction, called LRU, really keeps: exactly when it is the entries
    put most recently. */
module Recency {
  import opened Common
  import opened OrderedMap
  import opened AltCaching

  type Fetched = seq<(Key, Table)>

  /** The cache in order of last put: a refreshed key is deleted first, so it moves to the end. */
  function Moved(cache: Cache, fetched: Fetched, expiresAt: int): Cache {
    if fetched == [] then cache
    else
      var (addr, table) := fetched[|fetched| - 1];
      Delete(Moved(cache, fetched[..|fetched| - 1], expiresAt), addr) + [(addr, Entry(map[addr := table], expiresAt))]
  }

  /** Addresses are keys of a map, in the cache and in what a fetch brings. */
  ghost predicate Keyed(cache: Cache, fetched: Fetched) {
    Distinct(Keys(cache)) && Distinct(Keys(fetched))
  }

  lemma KeyedPrefix(cache: Cache, fetched: Fetched)
    requires Keyed(cache, fetched) && fetched != []
    ensures Keyed(cache, fetched[..|fetched| - 1])
    ensures Get(fetched[..|fetched| - 1], fetched[|fetched| - 1].0).None?
  {
    var k := |fetched| - 1;
    assert Keys(fetched[..k]) == Keys(fetched)[..k];
    forall i | 0 <= i < k
      ensures fetched[..k][i].0 != fetched[k].0
    {
      assert Keys(fetched)[i] != Keys(fetched)[k];
    }
  }

  // ---- The order after a fill ----

  /** The fetched addresses that were not cached, in fetch order. */
  function NewKeys(cache: Cache, fetched: Fetched): seq<Key> {
    if fetched == [] then []
    else
      var addr := fetched[|fetched| - 1].0;
      NewKeys(cache, fetched[..|fetched| - 1]) + if Get(cache, addr).None? then [addr] else []
  }

  /** The addresses cached before the call, then the new ones: known before anything is put. */
  function Order(cache: Cache, fetched: Fetched): seq<Key> {
    Keys(cache) + NewKeys(cache, fetched)
  }

  lemma {:induction false} NewKeysAreFetched(cache: Cache, fetched: Fetched, k: Key)
    requires k in NewKeys(cache, fetched)
    ensures Get(fetched, k).Some?
  {
    var n := |fetched| - 1;
    if k != fetched[n].0 {
      NewKeysAreFetched(cache, fetched[..n], k);
      var i := PlaceOf(fetched[..n], k);
      assert fetched[i].0 == k;
    }
  }

  /** Filling keeps every cached address in its place, refreshed or not, and appends the rest:
      the order is that of first puts. */
  lemma {:induction false} FilledOrder(cache: Cache, fetched: Fetched, expiresAt: int)
    requires Keyed(cache, fetched)
    ensures Keys(Filled(cache, fetched, expiresAt)) == Order(cache, fetched)
  {
    if fetched != [] {
      var k := |fetched| - 1;
      var addr, before := fetched[k].0, Filled(cache, fetched[..k], expiresAt);
      var e := Entry(map[addr := fetched[k].1], expiresAt);
      KeyedPrefix(cache, fetched);
      FilledOrder(cache, fetched[..k], expiresAt);
      if addr in NewKeys(cache, fetched[..k]) {
        NewKeysAreFetched(cache, fetched[..k], addr);
      }
      KnownByOrder(before, Order(cache, fetched[..k]), addr);
      KnownByOrder(cache, Keys(cache), addr);
      hide Get;
      if Get(before, addr).None? {
        PutNew(before, addr, e);
        assert Keys(before + [(addr, e)]) == Keys(before) + [addr];
      } else {
        PutOld(before, addr, e);
      }
    }
  }

  lemma KnownByOrder(cache: Cache, keys: seq<Key>, k: Key)
    requires Keys(cache) == keys
    ensures Get(cache, k).Some? <==> k in keys
  {
    if k in keys {
      var i :| 0 <= i < |keys| && keys[i] == k;
      assert cache[i].0 == k;
    }
  }

  // ---- The same entries, in two orders ----

  ghost predicate SameEntries(a: Cache, b: Cache) {
    |a| == |b| && Distinct(Keys(a)) && Distinct(Keys(b)) && forall p :: p in a <==> p in b
  }

  lemma {:induction false} FilledAndMoved(cache: Cache, fetched: Fetched, expiresAt: int)
    requires Distinct(Keys(cache))
    ensures SameEntries(Filled(cache, fetched, expiresAt), Moved(cache, fetched, expiresAt))
  {
    if fetched != [] {
      var k := |fetched| - 1;
      FilledAndMoved(cache, fetched[..k], expiresAt);
      PutAndMove(Filled(cache, fetched[..k], expiresAt), Moved(cache, fetched[..k], expiresAt), fetched[k].0,
        Entry(map[fetched[k].0 := fetched[k].1], expiresAt));
    }
  }

  lemma PutAndMove(a: Cache, b: Cache, addr: Key, e: Entry)
    requires SameEntries(a, b)
    ensures SameEntries(Put(a, addr, e), Delete(b, addr) + [(addr, e)])
  {
    hide Get, Put, Delete;
    PutMembers(a, addr, e);
    DeleteMembers(b, addr);
    if Get(a, addr).Some? {
      assert (addr, Get(a, addr).value) in b;
    }
    if Get(b, addr).Some? {
      assert (addr, Get(b, addr).value) in a;
    }
    var rest := Delete(b, addr);
    forall i | 0 <= i < |rest|
      ensures rest[i].0 != addr
    {
      assert rest[i] in rest;
    }
    assert Keys(rest + [(addr, e)]) == Keys(rest) + [addr];
  }

  // ---- The order of last puts: what was not fetched, then what was ----

  function Untouched(cache: Cache, fetched: Fetched): Cache {
    if cache == [] then []
    else (if Get(fetched, cache[0].0).None? then [cache[0]] else []) + Untouched(cache[1..], fetched)
  }

  function Entries(fetched: Fetched, expiresAt: int): Cache {
    seq(|fetched|, i requires 0 <= i < |fetched| => (fetched[i].0, Entry(map[fetched[i].0 := fetched[i].1], expiresAt)))
  }

  lemma UntouchedStep(cache: Cache, fetched: Fetched)
    requires cache != []
    ensures var rest := Untouched(cache[1..], fetched);
            Untouched(cache, fetched) == if Get(fetched, cache[0].0).None? then [cache[0]] + rest else rest
  {
    hide Get;
    var rest := Untouched(cache[1..], fetched);
    assert [] + rest == rest;
  }

  lemma DeleteHead(p: (Key, Entry), rest: Cache, k: Key)
    ensures Delete([p] + rest, k) == if p.0 == k then rest else [p] + Delete(rest, k)
  {
    assert ([p] + rest)[1..] == rest;
  }

  lemma {:induction false} DeleteUntouched(cache: Cache, fetched: Fetched)
    requires Distinct(Keys(cache)) && fetched != []
    ensures Delete(Untouched(cache, fetched[..|fetched| - 1]), fetched[|fetched| - 1].0) == Untouched(cache, fetched)
  {
    if cache != [] {
      hide Untouched, Delete, Get;
      var k := |fetched| - 1;
      var addr, rest := fetched[k].0, Untouched(cache[1..], fetched[..k]);
      assert Keys(cache[1..]) == Keys(cache)[1..];
      DeleteUntouched(cache[1..], fetched);
      FetchedPrefix(fetched, cache[0].0);
      UntouchedStep(cache, fetched[..k]);
      UntouchedStep(cache, fetched);
      DeleteHead(cache[0], rest, addr);
      if cache[0].0 == addr {
        forall i | 0 <= i < |cache[1..]|
          ensures cache[1..][i].0 != addr
        {
          assert Keys(cache)[i + 1] != Keys(cache)[0];
        }
        UntouchedHasNot(cache[1..], fetched[..k], addr);
        DeleteAbsent(rest, addr);
      }
    }
  }

  lemma FetchedPrefix(fetched: Fetched, k: Key)
    requires fetched != []
    ensures Get(fetched, k).None? <==> Get(fetched[..|fetched| - 1], k).None? && fetched[|fetched| - 1].0 != k
  {
    var n := |fetched| - 1;
    hide Get;
    if Get(fetched[..n], k).Some? {
      var i := PlaceOf(fetched[..n], k);
      assert fetched[i].0 == k;
    } else {
      assert forall i :: 0 <= i < n ==> fetched[..n][i].0 == fetched[i].0;
    }
  }

  lemma {:induction false} UntouchedHasNot(cache: Cache, fetched: Fetched, k: Key)
    requires forall i :: 0 <= i < |cache| ==> cache[i].0 != k
    ensures Get(Untouched(cache, fetched), k).None?
  {
    if cache != [] {
      UntouchedHasNot(cache[1..], fetched, k);
    }
  }

  lemma {:induction false} MovedShape(cache: Cache, fetched: Fetched, expiresAt: int)
    requires Keyed(cache, fetched)
    ensures Moved(cache, fetched, expiresAt) == Untouched(cache, fetched) + Entries(fetched, expiresAt)
  {
    hide Get, Delete, Untouched, Entries;
    if fetched == [] {
      UntouchedByNothing(cache);
      NoEntries(expiresAt);
    } else {
      var k := |fetched| - 1;
      var addr := fetched[k].0;
      KeyedPrefix(cache, fetched);
      MovedShape(cache, fetched[..k], expiresAt);
      LastEntry(fetched, expiresAt);
      DeleteUntouched(cache, fetched);
      var put := Entries(fetched[..k], expiresAt);
      DeleteConcat(Untouched(cache, fetched[..k]), put, addr);
      assert Moved(cache, fetched, expiresAt) == Untouched(cache, fetched) + put + [(addr, Entry(map[addr := fetched[k].1], expiresAt))];
    }
  }

  lemma NoEntries(expiresAt: int)
    ensures Entries([], expiresAt) == []
  {
  }

  lemma LastEntry(fetched: Fetched, expiresAt: int)
    requires fetched != []
    ensures var (addr, table) := fetched[|fetched| - 1];
            && Entries(fetched, expiresAt) == Entries(fetched[..|fetched| - 1], expiresAt) + [(addr, Entry(map[addr := table], expiresAt))]
            && (Get(fetched[..|fetched| - 1], addr).None? ==> Get(Entries(fetched[..|fetched| - 1], expiresAt), addr).None?)
  {
    var k := |fetched| - 1;
    hide Get;
    assert forall i :: 0 <= i < k ==> Entries(fetched[..k], expiresAt)[i].0 == fetched[..k][i].0;
  }

  lemma {:induction false} UntouchedByNothing(cache: Cache)
    ensures Untouched(cache, []) == cache
  {
    if cache != [] {
      UntouchedByNothing(cache[1..]);
    }
  }

  /** As long as nothing at the front was fetched, nothing there is missing. */
  lemma {:induction false} UntouchedPrefix(cache: Cache, fetched: Fetched, n: nat)
    requires n <= |cache| && forall i :: 0 <= i < n ==> Get(fetched, cache[i].0).None?
    ensures n <= |Untouched(cache, fetched)| <= |cache| && Untouched(cache, fetched)[..n] == cache[..n]
  {
    if n > 0 {
      UntouchedPrefix(cache[1..], fetched, n - 1);
      assert cache[..n] == [cache[0]] + cache[1..][..n - 1];
    } else if cache != [] {
      UntouchedPrefix(cache[1..], fetched, 0);
    }
  }

  // ---- When the entries kept are the ones put last ----

  function Excess(size: nat, maxSize: nat): nat {
    if size <= maxSize then 0 else size - maxSize
  }

  /** After the call the cache holds exactly the maxSize entries put last, if its order before the
      call is taken to be that of last puts. */
  ghost predicate KeepsLatest(cache: Cache, fetched: Fetched, expiresAt: int, maxSize: nat) {
    forall p :: p in Evicted(Filled(cache, fetched, expiresAt), maxSize) <==> p in Evicted(Moved(cache, fetched, expiresAt), maxSize)
  }

  /** None of the addresses at the front, as many as must go, is among the last maxSize fetched. */
  predicate FrontIsStale(cache: Cache, fetched: Fetched, maxSize: nat) {
    var order, late := Order(cache, fetched), Keys(fetched)[Excess(|fetched|, maxSize)..];
    forall i :: 0 <= i < Excess(|order|, maxSize) ==> order[i] !in late
  }

  lemma {:induction false} DistinctCount(a: Cache) returns (members: set<(Key, Entry)>)
    requires Distinct(Keys(a))
    ensures members == (set p | p in a) && |members| == |a|
  {
    if a == [] {
      members := {};
    } else {
      var k := |a| - 1;
      assert Keys(a[..k]) == Keys(a)[..k];
      members := DistinctCount(a[..k]);
      assert a[k] !in a[..k] by {
        assert forall i :: 0 <= i < k ==> Keys(a)[i] != Keys(a)[k];
      }
      members := members + {a[k]};
      assert a == a[..k] + [a[k]];
    }
  }

  lemma SameSize(a: Cache, b: Cache)
    requires |a| == |b| && Distinct(Keys(a)) && Distinct(Keys(b)) && forall p :: p in a ==> p in b
    ensures forall p :: p in b ==> p in a
  {
    var x := DistinctCount(a);
    var y := DistinctCount(b);
    assert x <= y;
    assert y == x + (y - x) && |y - x| == 0;
    forall p | p in b
      ensures p in a
    {
      assert p in y && p in x;
    }
  }

  lemma Suffix(a: Cache, n: nat)
    requires n <= |a| && Distinct(Keys(a))
    ensures Distinct(Keys(a[n..]))
  {
    assert Keys(a[n..]) == Keys(a)[n..];
  }

  /** No key dropped in the one order is kept in the other. */
  ghost predicate Apart(f: Cache, r: Cache, drop: nat) {
    forall i, x :: 0 <= i < |f| && 0 <= x < |r| && i < drop <= x ==> f[i].0 != r[x].0
  }

  lemma KeptAreApart(f: Cache, r: Cache, drop: nat)
    requires SameEntries(f, r) && drop <= |f| && forall p :: p in r[drop..] ==> p in f[drop..]
    ensures Apart(f, r, drop)
  {
    forall i, x | 0 <= i < |f| && 0 <= x < |r| && i < drop <= x
      ensures f[i].0 != r[x].0
    {
      assert r[x] == r[drop..][x - drop];
      assert r[x] in f[drop..];
      var l :| 0 <= l < |f| - drop && f[drop..][l] == r[x];
      assert Keys(f)[i] != Keys(f)[drop + l];
    }
  }

  lemma ApartAreKept(f: Cache, r: Cache, drop: nat)
    requires SameEntries(f, r) && drop <= |f| && Apart(f, r, drop)
    ensures forall p :: p in f[drop..] <==> p in r[drop..]
  {
    forall p | p in r[drop..]
      ensures p in f[drop..]
    {
      var l :| 0 <= l < |r| - drop && r[drop..][l] == p;
      assert r[drop + l] == p && p in f;
      var i :| 0 <= i < |f| && f[i] == p;
      assert f[drop..][i - drop] == p;
    }
    Suffix(f, drop);
    Suffix(r, drop);
    SameSize(r[drop..], f[drop..]);
  }

  lemma KeepsLatestIfApart(cache: Cache, fetched: Fetched, expiresAt: int, maxSize: nat)
    requires Keyed(cache, fetched)
    ensures var f, r := Filled(cache, fetched, expiresAt), Moved(cache, fetched, expiresAt);
            KeepsLatest(cache, fetched, expiresAt, maxSize) <==> Apart(f, r, Excess(|f|, maxSize))
  {
    hide Evicted, Filled, Moved, Apart;
    var f, r := Filled(cache, fetched, expiresAt), Moved(cache, fetched, expiresAt);
    FilledAndMoved(cache, fetched, expiresAt);
    EvictionDropsOldest(f, maxSize);
    EvictionDropsOldest(r, maxSize);
    var drop := Excess(|f|, maxSize);
    assert Evicted(f, maxSize) == f[drop..] && Evicted(r, maxSize) == r[drop..];
    if Apart(f, r, drop) {
      ApartAreKept(f, r, drop);
    }
    if KeepsLatest(cache, fetched, expiresAt, maxSize) {
      KeptAreApart(f, r, drop);
    }
  }

  /** Where the keys are, in the order of first puts and in that of last puts. */
  lemma Places(cache: Cache, fetched: Fetched, expiresAt: int)
    requires Keyed(cache, fetched)
    ensures var f, r, kept := Filled(cache, fetched, expiresAt), Moved(cache, fetched, expiresAt), |Untouched(cache, fetched)|;
            && |f| == |r| == |Order(cache, fetched)| == kept + |fetched| && kept <= |cache| <= |f| && Distinct(Keys(r))
            && (forall i :: 0 <= i < |f| ==> f[i].0 == Order(cache, fetched)[i])
            && (forall i :: 0 <= i < kept ==> r[i] == Untouched(cache, fetched)[i])
            && (forall j :: 0 <= j < |fetched| ==> r[kept + j].0 == Keys(fetched)[j])
  {
    hide Filled, Moved, Untouched, Get;
    FilledAndMoved(cache, fetched, expiresAt);
    FilledOrder(cache, fetched, expiresAt);
    MovedShape(cache, fetched, expiresAt);
    UntouchedPrefix(cache, fetched, 0);
    var f := Filled(cache, fetched, expiresAt);
    assert |Keys(f)| == |f|;
  }

  lemma ApartImpliesStale(cache: Cache, fetched: Fetched, expiresAt: int, maxSize: nat)
    requires Keyed(cache, fetched)
    requires var f := Filled(cache, fetched, expiresAt);
             Apart(f, Moved(cache, fetched, expiresAt), Excess(|f|, maxSize))
    ensures FrontIsStale(cache, fetched, maxSize)
  {
    hide Filled, Moved, Order, Untouched;
    var f, r := Filled(cache, fetched, expiresAt), Moved(cache, fetched, expiresAt);
    Places(cache, fetched, expiresAt);
    var order, early, kept := Order(cache, fetched), Excess(|fetched|, maxSize), |Untouched(cache, fetched)|;
    forall i | 0 <= i < Excess(|order|, maxSize)
      ensures order[i] !in Keys(fetched)[early..]
    {
      forall j | 0 <= j < |fetched| - early
        ensures Keys(fetched)[early..][j] != order[i]
      {
        assert f[i].0 != r[kept + (early + j)].0;
      }
    }
  }

  /** What was put last is not at the front of the cache, if nothing fetched late is. */
  lemma StaleImpliesApart(cache: Cache, fetched: Fetched, expiresAt: int, maxSize: nat)
    requires Keyed(cache, fetched) && FrontIsStale(cache, fetched, maxSize)
    ensures var f := Filled(cache, fetched, expiresAt);
            Apart(f, Moved(cache, fetched, expiresAt), Excess(|f|, maxSize))
  {
    hide Filled, Moved, Order, Untouched;
    var f, r := Filled(cache, fetched, expiresAt), Moved(cache, fetched, expiresAt);
    Places(cache, fetched, expiresAt);
    var order, early, kept := Order(cache, fetched), Excess(|fetched|, maxSize), |Untouched(cache, fetched)|;
    var drop, late := Excess(|f|, maxSize), Keys(fetched)[early..];
    forall i, x | 0 <= i < |f| && 0 <= x < |r| && i < drop <= x
      ensures f[i].0 != r[x].0
    {
      if x >= kept {
        assert r[kept + (x - kept)].0 == Keys(fetched)[x - kept] == late[x - kept - early];
        assert order[i] !in late;
      } else {
        assert late == Keys(fetched);
        FrontIsUntouched(cache, fetched, drop);
        assert Untouched(cache, fetched)[..drop][i] == cache[i];
        assert Keys(r)[i] != Keys(r)[x];
      }
    }
  }

  lemma FrontIsUntouched(cache: Cache, fetched: Fetched, n: nat)
    requires n <= |cache| && forall i :: 0 <= i < n ==> Order(cache, fetched)[i] !in Keys(fetched)
    ensures n <= |Untouched(cache, fetched)| && Untouched(cache, fetched)[..n] == cache[..n]
    ensures forall i :: 0 <= i < n ==> Order(cache, fetched)[i] == cache[i].0
  {
    hide Untouched, NewKeys;
    forall i | 0 <= i < n
      ensures Get(fetched, cache[i].0).None? && Order(cache, fetched)[i] == cache[i].0
    {
      assert Order(cache, fetched)[i] == cache[i].0;
      forall j | 0 <= j < |fetched|
        ensures fetched[j].0 != cache[i].0
      {
        assert Keys(fetched)[j] in Keys(fetched);
      }
    }
    UntouchedPrefix(cache, fetched, n);
  }

  /** Eviction keeps the entries put last exactly when none of the addresses that must go, counted
      from the oldest cached one, is among the last maxSize that this call fetched. A call that
      refreshes an old address while it overfills the cache loses what it just fetched. */
  lemma EvictionIsLatestExactly(cache: Cache, fetched: Fetched, expiresAt: int, maxSize: nat)
    requires Keyed(cache, fetched)
    ensures KeepsLatest(cache, fetched, expiresAt, maxSize) <==> FrontIsStale(cache, fetched, maxSize)
  {
    hide KeepsLatest, FrontIsStale, Apart, Filled, Moved;
    KeepsLatestIfApart(cache, fetched, expiresAt, maxSize);
    if FrontIsStale(cache, fetched, maxSize) {
      StaleImpliesApart(cache, fetched, expiresAt, maxSize);
    } else if KeepsLatest(cache, fetched, expiresAt, maxSize) {
      ApartImpliesStale(cache, fetched, expiresAt, maxSize);
    }
  }

  /** Addresses 1 and 2 cached, room for two: a call that refreshes 1 and brings 3 drops the 1 it
      has just refreshed and keeps the untouched 2. */
  lemma RefreshedIsEvicted(ttlMs: int, w: World, id: nat, one: Table, three: Table)
    requires Keys(w.cache) == [1, 2] && id in w.flights
    ensures var after := Step(Settings(ttlMs, 2), w, Finish(id, Some([(1, one), (3, three)]))).cache;
            Keys(after) == [2, 3] && !KeepsLatest(w.cache, [(1, one), (3, three)], w.flights[id].started + ttlMs, 2)
  {
    hide Filled, Evicted, KeepsLatest;
    var fetched: Fetched, expiresAt := [(1, one), (3, three)], w.flights[id].started + ttlMs;
    assert Keys(fetched) == [1, 3];
    FilledOrder(w.cache, fetched, expiresAt);
    OneIsRefreshed(w.cache, one, three);
    var filled := Filled(w.cache, fetched, expiresAt);
    EvictionDropsOldest(filled, 2);
    assert |Keys(filled)| == 3;
    assert Keys(filled[1..]) == Keys(filled)[1..];
    EvictionIsLatestExactly(w.cache, fetched, expiresAt, 2);
  }

  lemma OneIsRefreshed(cache: Cache, one: Table, three: Table)
    requires Keys(cache) == [1, 2]
    ensures Order(cache, [(1, one), (3, three)]) == [1, 2, 3] && !FrontIsStale(cache, [(1, one), (3, three)], 2)
  {
    hide Get;
    var fetched: Fetched := [(1, one), (3, three)];
    assert fetched[..1] == [(1, one)] && fetched[..1][..0] == [];
    KnownByOrder(cache, [1, 2], 1);
    KnownByOrder(cache, [1, 2], 3);
    assert NewKeys(cache, fetched[..1]) == NewKeys(cache, fetched[..1][..0]) == [];
    assert fetched[|fetched| - 1] == (3, three);
    assert NewKeys(cache, fetched) == NewKeys(cache, fetched[..1]) + [3];
    assert Order(cache, fetched) == [1, 2, 3];
    assert Keys(fetched) == [1, 3] && Keys(fetched)[0..] == Keys(fetched);
    assert Order(cache, fetched)[0] in Keys(fetched);
  }

  lemma {:induction false} NewFill(cache: Cache, fetched: Fetched, expiresAt: int)
    requires Distinct(Keys(fetched)) && forall j :: 0 <= j < |fetched| ==> Get(cache, fetched[j].0).None?
    ensures Filled(cache, fetched, expiresAt) == Moved(cache, fetched, expiresAt) == cache + Entries(fetched, expiresAt)
  {
    hide Get, Put, Delete, Entries;
    if fetched == [] {
      NoEntries(expiresAt);
    } else {
      var k := |fetched| - 1;
      var addr, before := fetched[k].0, cache + Entries(fetched[..k], expiresAt);
      assert Keyed([], fetched);
      KeyedPrefix([], fetched);
      NewFill(cache, fetched[..k], expiresAt);
      LastEntry(fetched, expiresAt);
      assert Get(before, addr).None?;
      PutNew(before, addr, Entry(map[addr := fetched[k].1], expiresAt));
      DeleteAbsent(before, addr);
    }
  }

  /** From an empty cache with room for two: 1 and 2 are fetched and expire, then 1 and 3 are asked
      for and fetched. */
  function RefreshRun(ttlMs: int, a: Table, b: Table, one: Table, three: Table): seq<Event> {
    [Begin(0, [1, 2], 0), Finish(0, Some([(1, a), (2, b)])), Begin(1, [1, 3], ttlMs), Finish(1, Some([(1, one), (3, three)]))]
  }

  lemma RefreshStarts(ttlMs: int, a: Table, b: Table)
    ensures var w := Step(Settings(ttlMs, 2), START, Begin(0, [1, 2], 0));
            && 0 in w.flights && w.flights[0].started == 0 && w.cache == []
  {
    assert [1, 2][..1] == [1];
    assert Uncached([], [1, 2], 0) == Uncached([], [1, 2][..1], 0) + [2];
  }

  lemma RefreshFills(ttlMs: int, w: World, a: Table, b: Table)
    requires w.cache == [] && 0 in w.flights && w.flights[0].started == 0
    ensures Step(Settings(ttlMs, 2), w, Finish(0, Some([(1, a), (2, b)]))).cache == Entries([(1, a), (2, b)], ttlMs)
  {
    hide Filled, Moved, Evicted;
    var fetched: Fetched := [(1, a), (2, b)];
    assert Keys(fetched) == [1, 2];
    NewFill([], fetched, ttlMs);
    EvictionDropsOldest(Entries(fetched, ttlMs), 2);
    assert [] + Entries(fetched, ttlMs) == Entries(fetched, ttlMs);
  }

  lemma RefreshAsks(cache: Cache, ttlMs: int, a: Table, b: Table)
    requires cache == Entries([(1, a), (2, b)], ttlMs)
    ensures Keys(cache) == [1, 2] && Uncached(cache, [1, 3], ttlMs) == [1, 3]
  {
    assert |cache| == 2 && cache[0] == (1, Entry(map[1 := a], ttlMs)) && cache[1].0 == 2;
    assert Keys(cache) == [1, 2];
    KnownByOrder(cache, [1, 2], 3);
    assert Get(cache, 1) == Some(cache[0].1);
    hide Get;
    assert [1, 3][..1] == [1] && [1][..0] == [];
    assert Uncached(cache, [1], ttlMs) == Uncached(cache, [], ttlMs) + [1];
    assert Uncached(cache, [1, 3], ttlMs) == Uncached(cache, [1], ttlMs) + [3];
  }

  /** In that run the last call asks for both because 1 has expired and 3 is new, and evicts the 1
      it has just fetched again. */
  lemma RefreshedIsEvictedInARun(ttlMs: int, a: Table, b: Table, one: Table, three: Table)
    ensures var cfg, events := Settings(ttlMs, 2), RefreshRun(ttlMs, a, b, one, three);
            && Uncached(Run(cfg, events[..2]).cache, [1, 3], ttlMs) == [1, 3]
            && Keys(Run(cfg, events[..2]).cache) == [1, 2]
            && Keys(Run(cfg, events).cache) == [2, 3]
  {
    hide Run, Uncached, Cached, Filled, Evicted, Keys;
    var cfg, events := Settings(ttlMs, 2), RefreshRun(ttlMs, a, b, one, three);
    RunNext(cfg, events, 0);
    RunNext(cfg, events, 1);
    RunNext(cfg, events, 2);
    RunNext(cfg, events, 3);
    assert events[..4] == events;
    RefreshStarts(ttlMs, a, b);
    RefreshFills(ttlMs, Run(cfg, events[..1]), a, b);
    RefreshAsks(Run(cfg, events[..2]).cache, ttlMs, a, b);
    RefreshedIsEvicted(ttlMs, Run(cfg, events[..3]), 1, one, three);
  }

  lemma RunNext(cfg: Settings, events: seq<Event>, i: nat)
    requires i < |events|
    ensures Run(cfg, events[..i + 1]) == Step(cfg, Run(cfg, events[..i]), events[i]) && Run(cfg, events[..0]) == START
  {
    hide Step;
    assert events[..i + 1][..i] == events[..i];
  }
}
