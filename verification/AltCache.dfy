/** The lookup-table cache: resolve() suspends at its fetch, so calls interleave; entries expire,
    and the cache is bounded by dropping the keys put first. */
module AltCaching {
  import opened Common
  import opened OrderedMap

  type Table = seq<Key>
  type Tables = map<Key, Table>

  datatype Entry = Entry(data: Tables, expiresAt: int)
  type Cache = seq<(Key, Entry)>

  datatype Settings = Settings(ttlMs: int, maxSize: nat)

  // ---- One call ----

  /** The tables found unexpired, and the addresses left to fetch, in order. */
  function Cached(cache: Cache, addrs: seq<Key>, now: int): Tables {
    if addrs == [] then map[]
    else
      var k := |addrs| - 1;
      var entry := Get(cache, addrs[k]);
      if entry.Some? && entry.value.expiresAt > now then Cached(cache, addrs[..k], now) + entry.value.data
      else Cached(cache, addrs[..k], now)
  }

  function Uncached(cache: Cache, addrs: seq<Key>, now: int): seq<Key> {
    if addrs == [] then []
    else
      var k := |addrs| - 1;
      var entry := Get(cache, addrs[k]);
      Uncached(cache, addrs[..k], now) + if entry.Some? && entry.value.expiresAt > now then [] else [addrs[k]]
  }

  function Filled(cache: Cache, fetched: seq<(Key, Table)>, expiresAt: int): Cache {
    if fetched == [] then cache
    else
      var (addr, table) := fetched[|fetched| - 1];
      Put(Filled(cache, fetched[..|fetched| - 1], expiresAt), addr, Entry(map[addr := table], expiresAt))
  }

  function Evicted(cache: Cache, maxSize: nat): Cache {
    if |cache| <= maxSize then cache else Evicted(Delete(cache, cache[0].0), maxSize)
  }

  function AsTables(fetched: seq<(Key, Table)>): Tables {
    if fetched == [] then map[]
    else
      var (addr, table) := fetched[|fetched| - 1];
      AsTables(fetched[..|fetched| - 1])[addr := table]
  }

  // ---- Interleavings ----

  /** A call between its start and the end of its fetch. */
  datatype Flight = Flight(started: int, found: Tables)

  /** A table a fetch brought back, for which address, and when the call that made it started. */
  datatype Fetch = Fetch(addr: Key, started: int, table: Table)

  datatype World = World(cache: Cache, flights: map<nat, Flight>, fetches: set<Fetch>)

  datatype Event =
    | Begin(id: nat, addrs: seq<Key>, now: int)
    | Finish(id: nat, fetched: Option<seq<(Key, Table)>>)
    | Invalidate

  const START := World([], map[], {})

  function Step(cfg: Settings, w: World, ev: Event): World {
    match ev
    case Begin(id, addrs, now) =>
      if Uncached(w.cache, addrs, now) == [] then w
      else w.(flights := w.flights[id := Flight(now, Cached(w.cache, addrs, now))])
    case Finish(id, fetched) =>
      if id !in w.flights then w
      else
        var flight, landed := w.flights[id], w.(flights := w.flights - {id});
        if fetched.None? then landed
        else landed.(
          cache := Evicted(Filled(w.cache, fetched.value, flight.started + cfg.ttlMs), cfg.maxSize),
          fetches := w.fetches + (set p | p in fetched.value :: Fetch(p.0, flight.started, p.1)))
    case Invalidate => w.(cache := [])
  }

  /** What the call that ends with this event returns, if one does. */
  function Returned(w: World, ev: Event): Option<Tables> {
    match ev
    case Begin(_, addrs, now) => if Uncached(w.cache, addrs, now) == [] then Some(Cached(w.cache, addrs, now)) else None
    case Finish(id, fetched) =>
      if id !in w.flights then None
      else Some(w.flights[id].found + if fetched.None? then map[] else AsTables(fetched.value))
    case Invalidate => None
  }

  /** getCachedAddresses. */
  function Read(w: World, addr: Key, now: int): Option<Table> {
    var entry := Get(w.cache, addr);
    if entry.None? || entry.value.expiresAt <= now || addr !in entry.value.data then None
    else Some(entry.value.data[addr])
  }

  function Run(cfg: Settings, events: seq<Event>): World {
    if events == [] then START else Step(cfg, Run(cfg, events[..|events| - 1]), events[|events| - 1])
  }

  // ---- What every interleaving keeps ----

  /** Fetched for this address, by a call that started less than a TTL before `now`. */
  ghost predicate Genuine(cfg: Settings, fetches: set<Fetch>, addr: Key, table: Table, now: int) {
    exists f :: f in fetches && f.addr == addr && f.table == table && now < f.started + cfg.ttlMs
  }

  ghost predicate EntryGenuine(cfg: Settings, fetches: set<Fetch>, addr: Key, e: Entry) {
    exists f :: f in fetches && f.addr == addr && e == Entry(map[addr := f.table], f.started + cfg.ttlMs)
  }

  ghost predicate CacheGenuine(cfg: Settings, cache: Cache, fetches: set<Fetch>) {
    && Distinct(Keys(cache))
    && forall i :: 0 <= i < |cache| ==> EntryGenuine(cfg, fetches, cache[i].0, cache[i].1)
  }

  ghost predicate TablesGenuine(cfg: Settings, tables: Tables, fetches: set<Fetch>, now: int) {
    forall addr :: addr in tables ==> Genuine(cfg, fetches, addr, tables[addr], now)
  }

  ghost predicate Sound(cfg: Settings, w: World) {
    && CacheGenuine(cfg, w.cache, w.fetches)
    && |w.cache| <= cfg.maxSize
    && forall id :: id in w.flights ==> TablesGenuine(cfg, w.flights[id].found, w.fetches, w.flights[id].started)
  }

  lemma {:induction false} CachedIsGenuine(cfg: Settings, cache: Cache, fetches: set<Fetch>, addrs: seq<Key>, now: int)
    requires CacheGenuine(cfg, cache, fetches)
    ensures TablesGenuine(cfg, Cached(cache, addrs, now), fetches, now)
  {
    if addrs != [] {
      var k := |addrs| - 1;
      CachedIsGenuine(cfg, cache, fetches, addrs[..k], now);
      var entry := Get(cache, addrs[k]);
      if entry.Some? && entry.value.expiresAt > now {
        HitIsGenuine(cfg, cache, fetches, addrs[k], now);
      }
    }
  }

  lemma HitIsGenuine(cfg: Settings, cache: Cache, fetches: set<Fetch>, addr: Key, now: int)
    requires CacheGenuine(cfg, cache, fetches) && Get(cache, addr).Some? && Get(cache, addr).value.expiresAt > now
    ensures Get(cache, addr).value.data.Keys == {addr}
    ensures Genuine(cfg, fetches, addr, Get(cache, addr).value.data[addr], now)
  {
    var e := Get(cache, addr).value;
    var i :| 0 <= i < |cache| && cache[i] == (addr, e);
    assert EntryGenuine(cfg, fetches, cache[i].0, cache[i].1);
  }

  lemma {:induction false} EvictionDropsOldest(cache: Cache, maxSize: nat)
    ensures Evicted(cache, maxSize) == if |cache| <= maxSize then cache else cache[|cache| - maxSize..]
  {
    if |cache| > maxSize {
      DeleteFirst(cache);
      EvictionDropsOldest(cache[1..], maxSize);
    }
  }

  lemma MoreFetches(cfg: Settings, w: World, fetches: set<Fetch>)
    requires Sound(cfg, w) && w.fetches <= fetches
    ensures CacheGenuine(cfg, w.cache, fetches)
    ensures forall id :: id in w.flights ==> TablesGenuine(cfg, w.flights[id].found, fetches, w.flights[id].started)
  {
    forall i | 0 <= i < |w.cache|
      ensures EntryGenuine(cfg, fetches, w.cache[i].0, w.cache[i].1)
    {
      assert EntryGenuine(cfg, w.fetches, w.cache[i].0, w.cache[i].1);
    }
    forall id | id in w.flights
      ensures TablesGenuine(cfg, w.flights[id].found, fetches, w.flights[id].started)
    {
      var found, now := w.flights[id].found, w.flights[id].started;
      forall addr | addr in found
        ensures Genuine(cfg, fetches, addr, found[addr], now)
      {
        assert Genuine(cfg, w.fetches, addr, found[addr], now);
      }
    }
  }

  lemma PutKeepsGenuine(cfg: Settings, cache: Cache, fetches: set<Fetch>, f: Fetch)
    requires CacheGenuine(cfg, cache, fetches) && f in fetches
    ensures CacheGenuine(cfg, Put(cache, f.addr, Entry(map[f.addr := f.table], f.started + cfg.ttlMs)), fetches)
  {
    var e := Entry(map[f.addr := f.table], f.started + cfg.ttlMs);
    assert EntryGenuine(cfg, fetches, f.addr, e);
    hide EntryGenuine;
    PutAt(cache, f.addr, e);
    if Get(cache, f.addr).Some? {
      PutOld(cache, f.addr, e);
    } else {
      PutNew(cache, f.addr, e);
    }
  }

  lemma {:induction false} PutAt(cache: Cache, addr: Key, e: Entry)
    ensures var r := Put(cache, addr, e);
            forall i :: 0 <= i < |r| ==> r[i] == (addr, e) || (i < |cache| && r[i] == cache[i])
  {
    if cache != [] && cache[0].0 != addr {
      PutAt(cache[1..], addr, e);
      var r := Put(cache, addr, e);
      assert r[1..] == Put(cache[1..], addr, e);
      forall i | 0 <= i < |r|
        ensures r[i] == (addr, e) || (i < |cache| && r[i] == cache[i])
      {
        assert i > 0 ==> r[i] == r[1..][i - 1];
      }
    }
  }

  lemma {:induction false} FilledIsGenuine(cfg: Settings, cache: Cache, fetches: set<Fetch>, fetched: seq<(Key, Table)>, started: int)
    requires CacheGenuine(cfg, cache, fetches)
    requires forall p :: p in fetched ==> Fetch(p.0, started, p.1) in fetches
    ensures CacheGenuine(cfg, Filled(cache, fetched, started + cfg.ttlMs), fetches)
  {
    hide CacheGenuine;
    if fetched != [] {
      var k := |fetched| - 1;
      assert forall p :: p in fetched[..k] ==> p in fetched;
      FilledIsGenuine(cfg, cache, fetches, fetched[..k], started);
      PutKeepsGenuine(cfg, Filled(cache, fetched[..k], started + cfg.ttlMs), fetches,
        Fetch(fetched[k].0, started, fetched[k].1));
    }
  }

  lemma SuffixIsGenuine(cfg: Settings, cache: Cache, drop: nat, fetches: set<Fetch>)
    requires drop <= |cache| && CacheGenuine(cfg, cache, fetches)
    ensures CacheGenuine(cfg, cache[drop..], fetches)
  {
    hide EntryGenuine;
    var rest := cache[drop..];
    forall i | 0 <= i < |rest|
      ensures EntryGenuine(cfg, fetches, rest[i].0, rest[i].1)
    {
      assert rest[i] == cache[i + drop];
    }
    assert Keys(rest) == Keys(cache)[drop..];
  }

  lemma EvictedIsGenuine(cfg: Settings, cache: Cache, fetches: set<Fetch>)
    requires CacheGenuine(cfg, cache, fetches)
    ensures CacheGenuine(cfg, Evicted(cache, cfg.maxSize), fetches) && |Evicted(cache, cfg.maxSize)| <= cfg.maxSize
  {
    hide CacheGenuine, Evicted;
    EvictionDropsOldest(cache, cfg.maxSize);
    if |cache| > cfg.maxSize {
      SuffixIsGenuine(cfg, cache, |cache| - cfg.maxSize, fetches);
    }
  }

  lemma FinishIsSound(cfg: Settings, w: World, id: nat, fetched: seq<(Key, Table)>)
    requires Sound(cfg, w) && id in w.flights
    ensures Sound(cfg, Step(cfg, w, Finish(id, Some(fetched))))
  {
    var started := w.flights[id].started;
    var fetches := w.fetches + set p | p in fetched :: Fetch(p.0, started, p.1);
    MoreFetches(cfg, w, fetches);
    hide TablesGenuine, CacheGenuine;
    FilledIsGenuine(cfg, w.cache, fetches, fetched, started);
    EvictedIsGenuine(cfg, Filled(w.cache, fetched, started + cfg.ttlMs), fetches);
    hide Filled, Evicted;
  }

  lemma {:induction false} EveryRunIsSound(cfg: Settings, events: seq<Event>)
    ensures Sound(cfg, Run(cfg, events))
  {
    if events != [] {
      var w, ev := Run(cfg, events[..|events| - 1]), events[|events| - 1];
      EveryRunIsSound(cfg, events[..|events| - 1]);
      hide CacheGenuine, TablesGenuine, Cached, Uncached, Filled, Evicted, Run;
      match ev
      case Begin(id, addrs, now) => CachedIsGenuine(cfg, w.cache, w.fetches, addrs, now);
      case Finish(id, fetched) =>
        if id in w.flights && fetched.Some? {
          FinishIsSound(cfg, w, id, fetched.value);
        }
      case Invalidate => EmptyIsGenuine(cfg, w.fetches);
    }
  }

  lemma EmptyIsGenuine(cfg: Settings, fetches: set<Fetch>)
    ensures CacheGenuine(cfg, [], fetches)
  {
  }

  /** After any interleaving: the cache is within its bound, and whatever a synchronous read
      returns was fetched for that very address by a call that started less than a TTL ago. */
  lemma ReadsAreGenuine(cfg: Settings, events: seq<Event>, addr: Key, now: int)
    ensures |Run(cfg, events).cache| <= cfg.maxSize
    ensures var r := Read(Run(cfg, events), addr, now);
            r.Some? ==> Genuine(cfg, Run(cfg, events).fetches, addr, r.value, now)
  {
    EveryRunIsSound(cfg, events);
    var w := Run(cfg, events);
    if Get(w.cache, addr).Some? && Get(w.cache, addr).value.expiresAt > now {
      HitIsGenuine(cfg, w.cache, w.fetches, addr, now);
    }
  }

  lemma {:induction false} FetchedTable(fetched: seq<(Key, Table)>, addr: Key)
    requires addr in AsTables(fetched)
    ensures (addr, AsTables(fetched)[addr]) in fetched
  {
    var k := |fetched| - 1;
    if fetched[k].0 != addr {
      FetchedTable(fetched[..k], addr);
    } else {
      assert AsTables(fetched)[addr] == fetched[k].1;
      assert fetched[k] == (fetched[k].0, fetched[k].1);
    }
  }

  /** After any interleaving, a call returns for each address a table fetched for that address:
      by its own fetch, or from the cache within a TTL, at the time the call started, of the
      start of the fetch that brought it. */
  lemma ReturnsAreGenuine(cfg: Settings, events: seq<Event>, ev: Event, addr: Key)
    requires var r := Returned(Run(cfg, events), ev); r.Some? && addr in r.value
    ensures var w := Run(cfg, events);
            var table := Returned(w, ev).value[addr];
            match ev
            case Begin(_, _, now) => Genuine(cfg, w.fetches, addr, table, now)
            case Finish(id, fetched) =>
              (fetched.Some? && (addr, table) in fetched.value) || Genuine(cfg, w.fetches, addr, table, w.flights[id].started)
            case Invalidate => false
  {
    var w := Run(cfg, events);
    EveryRunIsSound(cfg, events);
    hide Run;
    match ev
    case Begin(_, addrs, now) =>
      CachedIsGenuine(cfg, w.cache, w.fetches, addrs, now);
    case Finish(id, fetched) =>
      assert TablesGenuine(cfg, w.flights[id].found, w.fetches, w.flights[id].started);
      if fetched.Some? && addr in AsTables(fetched.value) {
        FetchedTable(fetched.value, addr);
      }
    case Invalidate =>
  }

  // ---- The object ----

  class AltCache {
    const ttlMs: int
    const maxSize: nat
    var cache: Cache

    constructor (ttlMs: int, maxSize: nat)
      ensures this.ttlMs == ttlMs && this.maxSize == maxSize && cache == []
    {
      this.ttlMs, this.maxSize := ttlMs, maxSize;
      cache := [];
    }

    /** resolve() up to its fetch. */
    method BeginResolve(addrs: seq<Key>, now: int) returns (found: Tables, uncached: seq<Key>)
      ensures found == Cached(cache, addrs, now) && uncached == Uncached(cache, addrs, now)
    {
      found, uncached := map[], [];
      for i := 0 to |addrs|
        invariant found == Cached(cache, addrs[..i], now) && uncached == Uncached(cache, addrs[..i], now)
      {
        assert addrs[..i + 1][..i] == addrs[..i];
        var entry := Get(cache, addrs[i]);
        if entry.Some? && entry.value.expiresAt > now {
          found := found + entry.value.data;
        } else {
          uncached := uncached + [addrs[i]];
        }
      }
      assert addrs[..|addrs|] == addrs;
    }

    /** resolve() from a successful fetch on: fill, evict, and merge into the result. */
    method FinishResolve(started: int, found: Tables, fetched: seq<(Key, Table)>) returns (result: Tables)
      modifies this
      ensures cache == Evicted(Filled(old(cache), fetched, started + ttlMs), maxSize)
      ensures result == found + AsTables(fetched)
    {
      var brought: Tables := map[];
      for i := 0 to |fetched|
        invariant cache == Filled(old(cache), fetched[..i], started + ttlMs) && brought == AsTables(fetched[..i])
      {
        assert fetched[..i + 1][..i] == fetched[..i];
        var (addr, table) := fetched[i];
        cache := Put(cache, addr, Entry(map[addr := table], started + ttlMs));
        brought := brought[addr := table];
      }
      assert fetched[..|fetched|] == fetched;
      ghost var filled := cache;
      while |cache| > maxSize
        invariant Evicted(cache, maxSize) == Evicted(filled, maxSize)
        decreases |cache|
      {
        DeleteFirst(cache);
        cache := Delete(cache, cache[0].0);
      }
      result := found + brought;
    }

    method Invalidate()
      modifies this
      ensures cache == []
    {
      cache := [];
    }

    method GetCachedAddresses(addr: Key, now: int) returns (r: Option<Table>)
      ensures r == Read(World(cache, map[], {}), addr, now)
    {
      var entry := Get(cache, addr);
      if entry.None? || entry.value.expiresAt <= now {
        return None;
      }
      return if addr in entry.value.data then Some(entry.value.data[addr]) else None;
    }
  }

  /** mergeAltAddresses: the program's own table first, then each new one, in order. */
  method MergeAltAddresses(sigilAlt: Key, protocolAlts: seq<Key>) returns (merged: seq<Key>)
    ensures Distinct(merged) && |merged| > 0 && merged[0] == sigilAlt
    ensures forall k :: k in merged <==> k == sigilAlt || k in protocolAlts
    ensures forall i, j :: 0 <= i < j < |merged| ==> Precedes([sigilAlt] + protocolAlts, merged[i], merged[j])
  {
    merged := [sigilAlt];
    var seen := {sigilAlt};
    ghost var all := [sigilAlt] + protocolAlts;
    for n := 0 to |protocolAlts|
      invariant |merged| > 0 && merged[0] == sigilAlt && Distinct(merged)
      invariant forall k :: k in seen <==> k in merged
      invariant forall k :: k in merged <==> k in all[..n + 1]
      invariant forall i, j :: 0 <= i < j < |merged| ==> Precedes(all, merged[i], merged[j])
    {
      var alt := protocolAlts[n];
      assert all[n + 1] == alt && all[..n + 2] == all[..n + 1] + [alt];
      if alt !in seen {
        forall i | 0 <= i < |merged|
          ensures Precedes(all, merged[i], alt)
        {
          assert merged[i] in merged;
          var p :| 0 <= p < n + 1 && all[..n + 1][p] == merged[i];
          assert p < n + 1 && all[p] == merged[i] && all[n + 1] == alt && alt !in all[..n + 1];
        }
        seen := seen + {alt};
        merged := merged + [alt];
      }
    }
    assert all[..|protocolAlts| + 1] == all;
  }

  /** a occurs in s before the first b. */
  ghost predicate Precedes(s: seq<Key>, a: Key, b: Key) {
    exists p, q :: 0 <= p < q < |s| && s[p] == a && s[q] == b && b !in s[..q]
  }
}
