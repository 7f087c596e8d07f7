/** What a caller of the lookup-table cache gets back: everything it asked for that was there or was
    fetched, and nothing else. */
module AltAnswers {
  import opened Common
  import opened OrderedMap
  import opened AltCaching
  import opened Recency

  predicate Fresh(cache: Cache, addr: Key, now: int) {
    Get(cache, addr).Some? && Get(cache, addr).value.expiresAt > now
  }

  /** What is left to fetch: exactly the addresses asked for that are not cached or have expired. */
  lemma {:induction false} MissesExactly(cache: Cache, addrs: seq<Key>, now: int, addr: Key)
    ensures addr in Uncached(cache, addrs, now) <==> addr in addrs && !Fresh(cache, addr, now)
  {
    if addrs != [] {
      var k := |addrs| - 1;
      MissesExactly(cache, addrs[..k], now, addr);
      hide Get;
      assert addrs == addrs[..k] + [addrs[k]];
    }
  }

  /** And in the order they were asked for: the same as asking in two parts. */
  lemma {:induction false} MissesInOrder(cache: Cache, a: seq<Key>, b: seq<Key>, now: int)
    ensures Uncached(cache, a + b, now) == Uncached(cache, a, now) + Uncached(cache, b, now)
  {
    hide Get;
    if b == [] {
      assert a + b == a;
    } else {
      var k := |b| - 1;
      MissesInOrder(cache, a, b[..k], now);
      assert (a + b)[..|a + b| - 1] == a + b[..k];
    }
  }

  /** What is found: exactly the fresh ones among those asked for, each with its own table. */
  lemma {:induction false} FoundExactly(cfg: Settings, cache: Cache, fetches: set<Fetch>, addrs: seq<Key>, now: int, addr: Key)
    requires CacheGenuine(cfg, cache, fetches)
    ensures addr in Cached(cache, addrs, now) <==> addr in addrs && Fresh(cache, addr, now)
    ensures addr in Cached(cache, addrs, now) ==>
              Get(cache, addr).value.data == map[addr := Cached(cache, addrs, now)[addr]]
  {
    hide CacheGenuine, Get;
    if addrs != [] {
      var k := |addrs| - 1;
      FoundExactly(cfg, cache, fetches, addrs[..k], now, addr);
      assert addrs == addrs[..k] + [addrs[k]];
      var entry := Get(cache, addrs[k]);
      if entry.Some? && entry.value.expiresAt > now {
        HitIsGenuine(cfg, cache, fetches, addrs[k], now);
        var data := entry.value.data;
        assert data == map[addrs[k] := data[addrs[k]]];
      }
    }
  }

  ghost predicate Brings(fetched: Fetched, addr: Key, table: Table) {
    exists i :: 0 <= i < |fetched| && fetched[i] == (addr, table)
  }

  /** A fetch as a map: every pair, under its address. */
  lemma {:induction false} TablesExactly(fetched: Fetched, addr: Key, table: Table)
    requires Distinct(Keys(fetched))
    ensures addr in AsTables(fetched) && AsTables(fetched)[addr] == table <==> Brings(fetched, addr, table)
  {
    if fetched != [] {
      var k := |fetched| - 1;
      assert Keyed([], fetched);
      KeyedPrefix([], fetched);
      TablesExactly(fetched[..k], addr, table);
      if Brings(fetched[..k], addr, table) {
        var i :| 0 <= i < k && fetched[..k][i] == (addr, table);
        assert fetched[i] == (addr, table) && Keys(fetched)[i] != Keys(fetched)[k];
      }
      if Brings(fetched, addr, table) {
        var i :| 0 <= i < |fetched| && fetched[i] == (addr, table);
        if i < k {
          assert fetched[..k][i] == (addr, table);
          assert Keys(fetched)[i] != Keys(fetched)[k];
        }
      }
      hide Get;
      assert fetched[k] == (fetched[k].0, fetched[k].1);
    }
  }

  /** A fill gives every fetched address its table and the call's expiry, and leaves the others. */
  lemma {:induction false} FilledExactly(cache: Cache, fetched: Fetched, expiresAt: int, addr: Key)
    requires Distinct(Keys(fetched))
    ensures Get(Filled(cache, fetched, expiresAt), addr) ==
            if addr in AsTables(fetched) then Some(Entry(map[addr := AsTables(fetched)[addr]], expiresAt)) else Get(cache, addr)
  {
    if fetched != [] {
      var k := |fetched| - 1;
      assert Keyed([], fetched);
      KeyedPrefix([], fetched);
      FilledExactly(cache, fetched[..k], expiresAt, addr);
      GetPut(Filled(cache, fetched[..k], expiresAt), fetched[k].0, Entry(map[fetched[k].0 := fetched[k].1], expiresAt), addr);
    }
  }

  /** After any interleaving: a call that begins returns at once exactly when all it asks for is fresh,
      and then answers every address asked for and no other, from the cache; otherwise it is
      suspended holding exactly the fresh ones. */
  lemma BeginExactly(cfg: Settings, events: seq<Event>, id: nat, addrs: seq<Key>, now: int, addr: Key)
    ensures var w := Run(cfg, events);
            var ev := Begin(id, addrs, now);
            var r, w' := Returned(w, ev), Step(cfg, w, ev);
            && w'.cache == w.cache
            && (r.Some? <==> forall a :: a in addrs ==> Fresh(w.cache, a, now))
            && (r.Some? ==> w' == w && (addr in r.value <==> addr in addrs))
            && (r.Some? && addr in addrs ==> Get(w.cache, addr).value.data == map[addr := r.value[addr]])
            && (r.None? ==>
                  && id in w'.flights && w'.flights[id].started == now && w'.flights - {id} == w.flights - {id}
                  && (addr in w'.flights[id].found <==> addr in addrs && Fresh(w.cache, addr, now))
                  && (addr in w'.flights[id].found ==> Get(w.cache, addr).value.data == map[addr := w'.flights[id].found[addr]]))
  {
    hide Run, Cached, Get, Uncached;
    var w := Run(cfg, events);
    EveryRunIsSound(cfg, events);
    FoundExactly(cfg, w.cache, w.fetches, addrs, now, addr);
    var missing := Uncached(w.cache, addrs, now);
    forall a: Key
      ensures a in missing <==> a in addrs && !Fresh(w.cache, a, now)
    {
      MissesExactly(w.cache, addrs, now, a);
    }
    if missing != [] {
      assert missing[0] in missing;
    }
    hide CacheGenuine, TablesGenuine, Fresh;
  }

  /** After any interleaving: a suspended call returns what it held and all that its fetch brought,
      the latter winning; a failed fetch leaves the cache alone. */
  lemma FinishExactly(cfg: Settings, events: seq<Event>, id: nat, fetched: Option<Fetched>, addr: Key, table: Table)
    requires id in Run(cfg, events).flights && (fetched.Some? ==> Distinct(Keys(fetched.value)))
    ensures var w := Run(cfg, events);
            var r, w' := Returned(w, Finish(id, fetched)), Step(cfg, w, Finish(id, fetched));
            && r.Some? && w'.flights == w.flights - {id}
            && (fetched.None? ==> w'.cache == w.cache && r.value == w.flights[id].found)
            && (fetched.Some? && Brings(fetched.value, addr, table) ==> addr in r.value && r.value[addr] == table)
            && (fetched.Some? && addr in r.value && r.value[addr] == table ==>
                  || Brings(fetched.value, addr, table)
                  || (addr in w.flights[id].found && w.flights[id].found[addr] == table))
            && (addr in w.flights[id].found ==> addr in r.value)
  {
    hide Run, Filled, Evicted, AsTables;
    if fetched.Some? {
      TablesExactly(fetched.value, addr, table);
      var w := Run(cfg, events);
      var r := Returned(w, Finish(id, fetched)).value;
      if addr in AsTables(fetched.value) {
        assert r[addr] == AsTables(fetched.value)[addr];
      }
    }
    hide Brings;
  }

  function Newest(keys: seq<Key>, n: nat): seq<Key> {
    if |keys| <= n then keys else keys[|keys| - n..]
  }

  /** After any interleaving, what a fetch leaves cached: of the addresses cached before followed by the
      new ones, the last maxSize; a fetched one with its table until a TTL after the call started, and
      any other as it was. */
  lemma StoredExactly(cfg: Settings, events: seq<Event>, id: nat, fetched: Fetched, addr: Key)
    requires id in Run(cfg, events).flights && Distinct(Keys(fetched))
    ensures var w := Run(cfg, events);
            var w' := Step(cfg, w, Finish(id, Some(fetched)));
            && Keys(w'.cache) == Newest(Order(w.cache, fetched), cfg.maxSize)
            && (addr in Keys(w'.cache) ==>
                  Get(w'.cache, addr) ==
                  if Get(fetched, addr).Some?
                  then Some(Entry(map[addr := Get(fetched, addr).value], w.flights[id].started + cfg.ttlMs))
                  else Get(w.cache, addr))
  {
    hide Run, Evicted, Filled, Order, Newest, Get;
    var w := Run(cfg, events);
    RunIsKeyed(cfg, events);
    hide Distinct;
    StoredInCache(w.cache, fetched, w.flights[id].started + cfg.ttlMs, cfg.maxSize, addr);
  }

  lemma RunIsKeyed(cfg: Settings, events: seq<Event>)
    ensures Distinct(Keys(Run(cfg, events).cache))
  {
    EveryRunIsSound(cfg, events);
  }

  lemma StoredInCache(cache: Cache, fetched: Fetched, expiresAt: int, maxSize: nat, addr: Key)
    requires Keyed(cache, fetched)
    ensures var kept := Evicted(Filled(cache, fetched, expiresAt), maxSize);
            && Keys(kept) == Newest(Order(cache, fetched), maxSize)
            && (addr in Keys(kept) ==>
                  Get(kept, addr) ==
                  if Get(fetched, addr).Some? then Some(Entry(map[addr := Get(fetched, addr).value], expiresAt)) else Get(cache, addr))
  {
    hide Evicted, Filled, Order, Newest, Get;
    FilledOrder(cache, fetched, expiresAt);
    FilledValue(cache, fetched, expiresAt, addr);
    EvictedValue(cache, fetched, expiresAt, maxSize, addr);
    hide Distinct;
  }

  lemma FilledValue(cache: Cache, fetched: Fetched, expiresAt: int, addr: Key)
    requires Distinct(Keys(fetched))
    ensures Get(Filled(cache, fetched, expiresAt), addr) ==
            if Get(fetched, addr).Some? then Some(Entry(map[addr := Get(fetched, addr).value], expiresAt)) else Get(cache, addr)
  {
    hide Filled, AsTables;
    FilledExactly(cache, fetched, expiresAt, addr);
    if Get(fetched, addr).Some? {
      assert Brings(fetched, addr, Get(fetched, addr).value);
      TablesExactly(fetched, addr, Get(fetched, addr).value);
    } else if addr in AsTables(fetched) {
      TablesExactly(fetched, addr, AsTables(fetched)[addr]);
    }
  }

  /** Eviction takes whole entries from the front. */
  lemma EvictedValue(cache: Cache, fetched: Fetched, expiresAt: int, maxSize: nat, addr: Key)
    requires Keyed(cache, fetched)
    ensures var filled := Filled(cache, fetched, expiresAt);
            var kept := Evicted(filled, maxSize);
            && Keys(kept) == Newest(Keys(filled), maxSize)
            && (addr in Keys(kept) ==> Get(kept, addr) == Get(filled, addr))
  {
    hide Filled, Evicted;
    var filled := Filled(cache, fetched, expiresAt);
    EvictionDropsOldest(filled, maxSize);
    FilledIsKeyed(cache, fetched, expiresAt);
    var drop := if |filled| <= maxSize then 0 else |filled| - maxSize;
    assert filled[drop..] == Evicted(filled, maxSize);
    assert Keys(filled[drop..]) == Keys(filled)[drop..];
    GetDropped(filled, drop, addr);
    KnownByOrder(filled[drop..], Keys(filled[drop..]), addr);
    hide Get;
  }

  lemma {:induction false} FilledIsKeyed(cache: Cache, fetched: Fetched, expiresAt: int)
    requires Distinct(Keys(cache))
    ensures Distinct(Keys(Filled(cache, fetched, expiresAt)))
  {
    hide Put, Get, Keys, Distinct;
    if fetched != [] {
      var k := |fetched| - 1;
      FilledIsKeyed(cache, fetched[..k], expiresAt);
      PutMembers(Filled(cache, fetched[..k], expiresAt), fetched[k].0, Entry(map[fetched[k].0 := fetched[k].1], expiresAt));
    }
  }

  /** Event i is a fetch that brought this address. */
  ghost predicate BringsAt(events: seq<Event>, i: int, addr: Key) {
    0 <= i < |events| && events[i].Finish? && events[i].fetched.Some? && Get(events[i].fetched.value, addr).Some?
  }

  lemma {:induction false} FilledHas(cache: Cache, fetched: Fetched, expiresAt: int, addr: Key)
    ensures Get(Filled(cache, fetched, expiresAt), addr).Some? <==> Get(cache, addr).Some? || Get(fetched, addr).Some?
  {
    if fetched != [] {
      var k := |fetched| - 1;
      FilledHas(cache, fetched[..k], expiresAt, addr);
      FetchedPrefix(fetched, addr);
      GetPut(Filled(cache, fetched[..k], expiresAt), fetched[k].0, Entry(map[fetched[k].0 := fetched[k].1], expiresAt), addr);
    }
  }

  lemma HeldBefore(cfg: Settings, w: World, ev: Event, addr: Key)
    requires Get(Step(cfg, w, ev).cache, addr).Some?
    ensures BringsAt([ev], 0, addr) || (Get(w.cache, addr).Some? && !ev.Invalidate?)
  {
    hide Filled, Evicted, Cached, Uncached;
    if ev.Finish? && ev.id in w.flights && ev.fetched.Some? {
      var filled := Filled(w.cache, ev.fetched.value, w.flights[ev.id].started + cfg.ttlMs);
      EvictionDropsOldest(filled, cfg.maxSize);
      FilledHas(w.cache, ev.fetched.value, w.flights[ev.id].started + cfg.ttlMs, addr);
    }
  }

  /** After any interleaving, whatever is cached was fetched since the cache was last invalidated. */
  lemma {:induction false} HeldSinceInvalidation(cfg: Settings, events: seq<Event>, addr: Key) returns (i: nat)
    requires Get(Run(cfg, events).cache, addr).Some?
    ensures BringsAt(events, i, addr) && forall j :: i < j < |events| ==> !events[j].Invalidate?
  {
    hide Step;
    var k := |events| - 1;
    HeldBefore(cfg, Run(cfg, events[..k]), events[k], addr);
    if BringsAt([events[k]], 0, addr) {
      i := k;
    } else {
      i := HeldSinceInvalidation(cfg, events[..k], addr);
      assert events[i] == events[..k][i];
    }
  }

  /** A synchronous read answers exactly the fresh addresses, each with its own table. */
  lemma ReadExactly(cfg: Settings, events: seq<Event>, addr: Key, now: int)
    ensures var w := Run(cfg, events);
            && (Read(w, addr, now).Some? <==> Fresh(w.cache, addr, now))
            && (Read(w, addr, now).Some? ==> Get(w.cache, addr).value.data == map[addr := Read(w, addr, now).value])
  {
    var w := Run(cfg, events);
    EveryRunIsSound(cfg, events);
    hide Run, Get;
    if Fresh(w.cache, addr, now) {
      HitIsGenuine(cfg, w.cache, w.fetches, addr, now);
      var data := Get(w.cache, addr).value.data;
      assert data == map[addr := data[addr]];
    }
  }
}
