/** The cache against one that really evicts what was used least recently, over whole runs: a put
    or a hit moves an entry to the end there, and never does in the code. */
module Lru {
  import opened Common
  import opened OrderedMap
  import opened AltCaching
  import opened Recency

  // ---- Uses ----

  /** An event of the cache, or a synchronous read. */
  datatype Act = Does(ev: Event) | Reads(addr: Key, now: int)

  /** The addresses that are found unexpired, in the order they are asked for. */
  function Hits(cache: Cache, addrs: seq<Key>, now: int): seq<Key> {
    if addrs == [] then []
    else
      var k := |addrs| - 1;
      var entry := Get(cache, addrs[k]);
      Hits(cache, addrs[..k], now) + if entry.Some? && entry.value.expiresAt > now then [addrs[k]] else []
  }

  function ToEnd(cache: Cache, k: Key): Cache {
    var entry := Get(cache, k);
    if entry.None? then cache else Delete(cache, k) + [(k, entry.value)]
  }

  function Used(cache: Cache, hits: seq<Key>): Cache {
    if hits == [] then cache else ToEnd(Used(cache, hits[..|hits| - 1]), hits[|hits| - 1])
  }

  /** Each address once, where it was last asked for. */
  function Lasts(hits: seq<Key>): seq<Key> {
    if hits == [] then [] else Without(Lasts(hits[..|hits| - 1]), hits[|hits| - 1]) + [hits[|hits| - 1]]
  }

  function Without(keys: seq<Key>, k: Key): seq<Key> {
    if keys == [] then [] else (if keys[0] == k then [] else [keys[0]]) + Without(keys[1..], k)
  }

  // ---- The two machines ----

  function ActStep(cfg: Settings, w: World, act: Act): World {
    if act.Does? then Step(cfg, w, act.ev) else w
  }

  function ActRun(cfg: Settings, acts: seq<Act>): World {
    if acts == [] then START else ActStep(cfg, ActRun(cfg, acts[..|acts| - 1]), acts[|acts| - 1])
  }

  predicate Fills(w: World, act: Act) {
    act.Does? && act.ev.Finish? && act.ev.id in w.flights && act.ev.fetched.Some?
  }

  function HitsOf(w: World, act: Act): seq<Key> {
    match act
    case Does(Begin(_, addrs, now)) => Hits(w.cache, addrs, now)
    case Does(_) => []
    case Reads(addr, now) => Hits(w.cache, [addr], now)
  }

  function LruStep(cfg: Settings, w: World, act: Act): World {
    if Fills(w, act) then
      ActStep(cfg, w, act).(cache := Evicted(Moved(w.cache, act.ev.fetched.value, w.flights[act.ev.id].started + cfg.ttlMs), cfg.maxSize))
    else if act.Does? && !act.ev.Begin? then ActStep(cfg, w, act)
    else ActStep(cfg, w, act).(cache := Used(w.cache, HitsOf(w, act)))
  }

  function LruRun(cfg: Settings, acts: seq<Act>): World {
    if acts == [] then START else LruStep(cfg, LruRun(cfg, acts[..|acts| - 1]), acts[|acts| - 1])
  }

  // ---- When a fill leaves the order of an LRU cache ----

  function Smaller(a: nat, b: nat): nat {
    if a <= b then a else b
  }

  /** The addresses fetched last come last, in that order: cached ones among them already did. */
  predicate FillKeepsOrder(cache: Cache, fetched: Fetched, maxSize: nat) {
    var order, m := Order(cache, fetched), Smaller(|fetched|, maxSize);
    |order| >= m && order[|order| - m..] == Keys(fetched)[|fetched| - m..]
  }

  lemma SameKeysSameEntries(f: Cache, r: Cache, n: nat)
    requires SameEntries(f, r) && n <= |f| && Keys(f)[n..] == Keys(r)[n..]
    ensures f[n..] == r[n..]
  {
    forall i | n <= i < |f|
      ensures f[i] == r[i]
    {
      assert Keys(f)[n..][i - n] == Keys(r)[n..][i - n];
      assert f[i] in r;
      var j :| 0 <= j < |r| && r[j] == f[i];
      assert Keys(r)[j] == Keys(r)[i];
    }
  }

  lemma KeysOfMoved(cache: Cache, fetched: Fetched, expiresAt: int)
    requires Keyed(cache, fetched)
    ensures Keys(Moved(cache, fetched, expiresAt)) == Keys(Untouched(cache, fetched)) + Keys(fetched)
  {
    hide Moved, Untouched;
    MovedShape(cache, fetched, expiresAt);
    var u, e := Untouched(cache, fetched), Entries(fetched, expiresAt);
    assert Keys(u + e) == Keys(u) + Keys(e);
    assert Keys(e) == Keys(fetched);
  }

  lemma Sizes(cache: Cache, fetched: Fetched, expiresAt: int)
    requires Keyed(cache, fetched)
    ensures |Filled(cache, fetched, expiresAt)| == |Moved(cache, fetched, expiresAt)| == |Order(cache, fetched)|
    ensures |Order(cache, fetched)| == |Untouched(cache, fetched)| + |fetched|
  {
    hide Filled, Moved, Untouched, Order;
    Places(cache, fetched, expiresAt);
  }

  lemma KeysSuffix(cache: Cache, n: nat)
    requires n <= |cache|
    ensures Keys(cache[n..]) == Keys(cache)[n..]
  {
  }

  /** Two lists with tails of maxSize in common have shorter ones in common. */
  lemma TailsAgree(order: seq<Key>, kept: seq<Key>, late: seq<Key>, maxSize: nat)
    requires |order| == |kept| + |late|
    requires order[Excess(|order|, maxSize)..] == (kept + late)[Excess(|order|, maxSize)..]
    ensures var m := Smaller(|late|, maxSize); order[|order| - m..] == late[|late| - m..]
  {
    var m, drop, all := Smaller(|late|, maxSize), Excess(|order|, maxSize), kept + late;
    ShorterTail(order, all, drop, |order| - m);
    SuffixOfSecond(kept, late, |late| - m);
  }

  lemma ShorterTail(s: seq<Key>, t: seq<Key>, a: nat, b: nat)
    requires |s| == |t| && a <= b <= |s| && s[a..] == t[a..]
    ensures s[b..] == t[b..]
  {
    SuffixOfSuffix(s, a, b);
    SuffixOfSuffix(t, a, b);
  }

  lemma SuffixOfSuffix(s: seq<Key>, a: nat, b: nat)
    requires a <= b <= |s|
    ensures s[a..][b - a..] == s[b..]
  {
  }

  lemma SuffixOfSecond(a: seq<Key>, b: seq<Key>, n: nat)
    requires n <= |b|
    ensures (a + b)[|a| + n..] == b[n..]
  {
  }

  lemma LongTailsAgree(order: seq<Key>, kept: seq<Key>, late: seq<Key>, maxSize: nat)
    requires |order| == |kept| + |late| && |late| >= maxSize && order[|order| - maxSize..] == late[|late| - maxSize..]
    ensures order[Excess(|order|, maxSize)..] == (kept + late)[Excess(|order|, maxSize)..]
  {
    SuffixOfSecond(kept, late, |late| - maxSize);
  }

  lemma FillIsLatest(cache: Cache, fetched: Fetched, expiresAt: int, maxSize: nat)
    requires Keyed(cache, fetched) && FillKeepsOrder(cache, fetched, maxSize)
    ensures Evicted(Filled(cache, fetched, expiresAt), maxSize) == Evicted(Moved(cache, fetched, expiresAt), maxSize)
  {
    hide Filled, Moved, Evicted, Order, Untouched, SameEntries, Keys;
    var f, r := Filled(cache, fetched, expiresAt), Moved(cache, fetched, expiresAt);
    FilledAndMoved(cache, fetched, expiresAt);
    FilledOrder(cache, fetched, expiresAt);
    KeysOfMoved(cache, fetched, expiresAt);
    Sizes(cache, fetched, expiresAt);
    EvictionDropsOldest(f, maxSize);
    EvictionDropsOldest(r, maxSize);
    if |fetched| >= maxSize {
      LongTailsAgree(Order(cache, fetched), Keys(Untouched(cache, fetched)), Keys(fetched), maxSize);
    } else {
      FrontIsKept(cache, fetched);
    }
    SameKeysSameEntries(f, r, Excess(|f|, maxSize));
  }

  /** If the order ends with what was fetched, it begins with what was not. */
  lemma FrontIsKept(cache: Cache, fetched: Fetched)
    requires Keyed(cache, fetched)
    requires var order := Order(cache, fetched); |order| >= |fetched| && order[|order| - |fetched|..] == Keys(fetched)
    ensures Order(cache, fetched) == Keys(Untouched(cache, fetched)) + Keys(fetched)
  {
    hide Order, Untouched, Get;
    var order, kept := Order(cache, fetched), Untouched(cache, fetched);
    Sizes(cache, fetched, 0);
    UntouchedPrefix(cache, fetched, 0);
    OrderIsDistinct(cache, fetched);
    FrontIsApart(order, Keys(fetched), |kept|);
    FrontIsUntouched(cache, fetched, |kept|);
    assert kept[..|kept|] == kept;
    forall i | 0 <= i < |kept|
      ensures order[i] == kept[i].0
    {
      assert kept[i] == cache[..|kept|][i] == cache[i];
    }
    assert Keys(kept) == order[..|kept|];
  }

  lemma OrderIsDistinct(cache: Cache, fetched: Fetched)
    requires Keyed(cache, fetched)
    ensures Distinct(Order(cache, fetched))
  {
    hide Filled, Moved, Order;
    FilledAndMoved(cache, fetched, 0);
    FilledOrder(cache, fetched, 0);
  }

  lemma FrontIsApart(order: seq<Key>, back: seq<Key>, n: nat)
    requires Distinct(order) && n <= |order| && order[n..] == back
    ensures forall i :: 0 <= i < n ==> order[i] !in back
  {
    forall i, j | 0 <= i < n && 0 <= j < |back|
      ensures back[j] != order[i]
    {
      assert order[n..][j] == order[n + j];
    }
  }

  lemma LatestKeepsOrder(cache: Cache, fetched: Fetched, expiresAt: int, maxSize: nat)
    requires Keyed(cache, fetched)
    requires Evicted(Filled(cache, fetched, expiresAt), maxSize) == Evicted(Moved(cache, fetched, expiresAt), maxSize)
    ensures FillKeepsOrder(cache, fetched, maxSize)
  {
    hide Filled, Moved, Evicted, Order, Untouched, Keys;
    var f, r := Filled(cache, fetched, expiresAt), Moved(cache, fetched, expiresAt);
    FilledOrder(cache, fetched, expiresAt);
    KeysOfMoved(cache, fetched, expiresAt);
    Sizes(cache, fetched, expiresAt);
    EvictionDropsOldest(f, maxSize);
    EvictionDropsOldest(r, maxSize);
    KeysSuffix(f, Excess(|f|, maxSize));
    KeysSuffix(r, Excess(|f|, maxSize));
    TailsAgree(Order(cache, fetched), Keys(Untouched(cache, fetched)), Keys(fetched), maxSize);
  }

  /** A fill leaves the very cache that moves what it puts to the end, order included, exactly when
      the addresses fetched last come last in that order anyway. */
  lemma FillIsLatestExactly(cache: Cache, fetched: Fetched, expiresAt: int, maxSize: nat)
    requires Keyed(cache, fetched)
    ensures Evicted(Filled(cache, fetched, expiresAt), maxSize) == Evicted(Moved(cache, fetched, expiresAt), maxSize) <==>
            FillKeepsOrder(cache, fetched, maxSize)
  {
    hide Evicted, Filled, Moved, FillKeepsOrder, Keyed;
    if FillKeepsOrder(cache, fetched, maxSize) {
      FillIsLatest(cache, fetched, expiresAt, maxSize);
    } else if Evicted(Filled(cache, fetched, expiresAt), maxSize) == Evicted(Moved(cache, fetched, expiresAt), maxSize) {
      LatestKeepsOrder(cache, fetched, expiresAt, maxSize);
    }
  }

  // ---- When a hit does ----

  /** The addresses used are the last ones in the cache, in the order in which they were used. */
  predicate UsesAreLast(keys: seq<Key>, hits: seq<Key>) {
    var l := Lasts(hits);
    |l| <= |keys| && keys[|keys| - |l|..] == l
  }

  /** What was not used. */
  function Minus(keys: seq<Key>, hits: seq<Key>): seq<Key> {
    if keys == [] then [] else (if keys[0] in hits then [] else [keys[0]]) + Minus(keys[1..], hits)
  }

  lemma {:induction false} WithoutMember(keys: seq<Key>, k: Key, x: Key)
    ensures x in Without(keys, k) <==> x in keys && x != k
  {
    if keys != [] {
      WithoutMember(keys[1..], k, x);
      assert keys == [keys[0]] + keys[1..];
    }
  }

  lemma {:induction false} WithoutConcat(a: seq<Key>, b: seq<Key>, k: Key)
    ensures Without(a + b, k) == Without(a, k) + Without(b, k)
  {
    if a == [] {
      assert a + b == b;
    } else {
      assert (a + b)[1..] == a[1..] + b;
      WithoutConcat(a[1..], b, k);
    }
  }

  lemma {:induction false} MinusMore(keys: seq<Key>, hits: seq<Key>)
    requires hits != []
    ensures Without(Minus(keys, hits[..|hits| - 1]), hits[|hits| - 1]) == Minus(keys, hits)
  {
    if keys != [] {
      MinusMore(keys[1..], hits);
      var k := |hits| - 1;
      assert hits == hits[..k] + [hits[k]];
      var rest := Minus(keys[1..], hits[..k]);
      assert ([keys[0]] + rest)[1..] == rest;
      assert [] + rest == rest;
    }
  }

  lemma KeysCons(p: (Key, Entry), rest: Cache)
    ensures Keys([p] + rest) == [p.0] + Keys(rest)
  {
  }

  lemma WithoutCons(k: Key, first: Key, rest: seq<Key>)
    ensures Without([first] + rest, k) == if first == k then Without(rest, k) else [first] + Without(rest, k)
  {
    assert ([first] + rest)[1..] == rest;
    assert [] + Without(rest, k) == Without(rest, k);
  }

  lemma FirstIsOnly(first: Key, rest: Cache, all: seq<Key>)
    requires all == [first] + Keys(rest) && Distinct(all)
    ensures Distinct(Keys(rest)) && Get(rest, first).None?
  {
    assert Keys(rest) == all[1..];
    forall i | 0 <= i < |rest|
      ensures rest[i].0 != first
    {
      assert all[0] == first && all[i + 1] == Keys(rest)[i];
      assert all[0] != all[i + 1];
    }
  }

  lemma {:induction false} DeleteKeys(cache: Cache, k: Key)
    requires Distinct(Keys(cache))
    ensures Keys(Delete(cache, k)) == Without(Keys(cache), k)
  {
    if cache != [] {
      hide Keys, Delete, Without, Get, Distinct;
      var p, rest := cache[0], cache[1..];
      assert cache == [p] + rest;
      KeysCons(p, rest);
      FirstIsOnly(p.0, rest, Keys(cache));
      DeleteKeys(rest, k);
      DeleteHead(p, rest, k);
      WithoutCons(k, p.0, Keys(rest));
      KeysCons(p, Delete(rest, k));
      if p.0 == k {
        DeleteAbsent(rest, k);
      }
    }
  }

  /** Using known addresses moves them to the end and loses nothing. */
  lemma {:induction false} UsedShape(cache: Cache, hits: seq<Key>)
    requires Distinct(Keys(cache)) && forall x :: x in hits ==> x in Keys(cache)
    ensures SameEntries(cache, Used(cache, hits))
    ensures Keys(Used(cache, hits)) == Minus(Keys(cache), hits) + Lasts(hits)
  {
    if hits == [] {
      MinusNothing(Keys(cache));
    } else {
      var n := |hits| - 1;
      var k, before := hits[n], Used(cache, hits[..n]);
      assert forall x :: x in hits[..n] ==> x in hits;
      UsedShape(cache, hits[..n]);
      ToEndShape(cache, before, k);
      MinusMore(Keys(cache), hits);
      WithoutConcat(Minus(Keys(cache), hits[..n]), Lasts(hits[..n]), k);
      hide ToEnd, Minus, Without, SameEntries;
      assert Keys(Used(cache, hits)) == Without(Keys(before), k) + [k];
    }
  }

  lemma ToEndShape(cache: Cache, before: Cache, k: Key)
    requires SameEntries(cache, before) && k in Keys(cache)
    ensures SameEntries(cache, ToEnd(before, k)) && Keys(ToEnd(before, k)) == Without(Keys(before), k) + [k]
  {
    hide Delete, Without, Get, Put, SameEntries, Keys;
    Present(cache, before, k);
    var e, rest := Get(before, k).value, Delete(before, k);
    PutSame(cache, before, k);
    PutAndMove(cache, before, k, e);
    BothDistinct(cache, before);
    DeleteKeys(before, k);
    KeysAppend(rest, (k, e));
  }

  lemma BothDistinct(a: Cache, b: Cache)
    requires SameEntries(a, b)
    ensures Distinct(Keys(a)) && Distinct(Keys(b))
  {
  }

  /** Putting what is there already changes nothing. */
  lemma PutSame(cache: Cache, before: Cache, k: Key)
    requires SameEntries(cache, before) && Get(before, k).Some?
    ensures Put(cache, k, Get(before, k).value) == cache
  {
    hide Put;
    var e := Get(before, k).value;
    assert (k, e) in cache;
    var i :| 0 <= i < |cache| && cache[i] == (k, e);
    hide Get;
    forall j | 0 <= j < i
      ensures cache[j].0 != k
    {
      assert Keys(cache)[j] != Keys(cache)[i];
    }
    PutAtPlace(cache, k, e, i);
  }

  lemma KeysAppend(rest: Cache, p: (Key, Entry))
    ensures Keys(rest + [p]) == Keys(rest) + [p.0]
  {
  }

  lemma Present(cache: Cache, before: Cache, k: Key)
    requires SameEntries(cache, before) && k in Keys(cache)
    ensures Get(before, k).Some?
  {
    hide Get;
    var i :| 0 <= i < |cache| && cache[i].0 == k;
    assert cache[i] in before;
    var j :| 0 <= j < |before| && before[j] == cache[i];
  }

  lemma {:induction false} MinusNothing(keys: seq<Key>)
    ensures Minus(keys, []) == keys
  {
    if keys != [] {
      MinusNothing(keys[1..]);
    }
  }

  lemma {:induction false} LastsAreHits(hits: seq<Key>, x: Key)
    ensures x in Lasts(hits) <==> x in hits
  {
    if hits != [] {
      var n := |hits| - 1;
      LastsAreHits(hits[..n], x);
      WithoutMember(Lasts(hits[..n]), hits[n], x);
      assert hits == hits[..n] + [hits[n]];
    }
  }

  /** Without anything used at the front and with nothing else at the back. */
  lemma {:induction false} MinusSuffix(front: seq<Key>, back: seq<Key>, hits: seq<Key>)
    requires forall x :: x in front ==> x !in hits
    requires forall x :: x in back ==> x in hits
    ensures Minus(front + back, hits) == front
  {
    if front != [] {
      assert (front + back)[1..] == front[1..] + back;
      MinusSuffix(front[1..], back, hits);
    } else if back != [] {
      assert front + back == back;
      MinusSuffix([], back[1..], hits);
      assert [] + back[1..] == back[1..];
    }
  }

  /** Moving what was used to the end of a list changes nothing exactly when it is there already. */
  lemma LastUsesExactly(keys: seq<Key>, hits: seq<Key>)
    requires Distinct(keys)
    ensures Minus(keys, hits) + Lasts(hits) == keys <==> UsesAreLast(keys, hits)
  {
    hide Minus, Lasts;
    var l := Lasts(hits);
    if UsesAreLast(keys, hits) {
      var front := keys[..|keys| - |l|];
      assert keys == front + l;
      FrontIsApart(keys, l, |front|);
      forall x
        ensures x in l <==> x in hits
      {
        LastsAreHits(hits, x);
      }
      MinusSuffix(front, l, hits);
    }
    if Minus(keys, hits) + l == keys {
      assert keys[|keys| - |l|..] == l;
    }
  }

  /** Uses leave the cache as it is exactly when they are of the last addresses, in order. */
  lemma UseIsHarmlessExactly(cache: Cache, hits: seq<Key>)
    requires Distinct(Keys(cache)) && forall x :: x in hits ==> x in Keys(cache)
    ensures Used(cache, hits) == cache <==> UsesAreLast(Keys(cache), hits)
  {
    hide Used, Minus, Lasts, UsesAreLast, Keys, SameEntries;
    UsedShape(cache, hits);
    LastUsesExactly(Keys(cache), hits);
    if UsesAreLast(Keys(cache), hits) {
      SameKeysSameEntries(cache, Used(cache, hits), 0);
      assert cache[0..] == cache && Used(cache, hits)[0..] == Used(cache, hits);
    }
  }

  lemma {:induction false} HitsAreCached(cache: Cache, addrs: seq<Key>, now: int, x: Key)
    requires x in Hits(cache, addrs, now)
    ensures x in Keys(cache)
  {
    var k := |addrs| - 1;
    if x == addrs[k] && Get(cache, x).Some? {
      var i := PlaceOf(cache, x);
      assert Keys(cache)[i] == x;
    } else {
      HitsAreCached(cache, addrs[..k], now, x);
    }
  }

  // ---- Whole runs ----

  /** What a caller can see before the act: the order an LRU cache would have is the order there is. */
  predicate Harmless(cfg: Settings, w: World, act: Act) {
    && (Fills(w, act) ==> FillKeepsOrder(w.cache, act.ev.fetched.value, cfg.maxSize))
    && (act.Reads? || act.ev.Begin? ==> UsesAreLast(Keys(w.cache), HitsOf(w, act)))
  }

  /** A fetch brings each address once, being a map. */
  ghost predicate Maps(acts: seq<Act>) {
    forall i :: 0 <= i < |acts| && acts[i].Does? && acts[i].ev.Finish? && acts[i].ev.fetched.Some? ==>
      Distinct(Keys(acts[i].ev.fetched.value))
  }

  lemma LruStepExactly(cfg: Settings, w: World, act: Act)
    requires Distinct(Keys(w.cache))
    requires Fills(w, act) ==> Distinct(Keys(act.ev.fetched.value))
    ensures ActStep(cfg, w, act) == LruStep(cfg, w, act) <==> Harmless(cfg, w, act)
  {
    hide Evicted, Filled, Moved, Used, Hits, FillKeepsOrder, UsesAreLast, Cached, Uncached;
    if Fills(w, act) {
      var fetched, expiresAt := act.ev.fetched.value, w.flights[act.ev.id].started + cfg.ttlMs;
      FillIsLatestExactly(w.cache, fetched, expiresAt, cfg.maxSize);
    } else if act.Reads? || act.ev.Begin? {
      forall x | x in HitsOf(w, act)
        ensures x in Keys(w.cache)
      {
        HitsAreCached(w.cache, if act.Reads? then [act.addr] else act.ev.addrs, if act.Reads? then act.now else act.ev.now, x);
      }
      UseIsHarmlessExactly(w.cache, HitsOf(w, act));
    }
  }

  function EventsOf(acts: seq<Act>): seq<Event> {
    if acts == [] then []
    else EventsOf(acts[..|acts| - 1]) + if acts[|acts| - 1].Does? then [acts[|acts| - 1].ev] else []
  }

  lemma {:induction false} ActRunIsRun(cfg: Settings, acts: seq<Act>)
    ensures ActRun(cfg, acts) == Run(cfg, EventsOf(acts))
  {
    hide Step;
    if acts != [] {
      var k := |acts| - 1;
      ActRunIsRun(cfg, acts[..k]);
      var before := EventsOf(acts[..k]);
      if acts[k].Does? {
        assert (before + [acts[k].ev])[..|before|] == before;
      } else {
        assert before + [] == before;
      }
    }
  }

  lemma KeysStayDistinct(cfg: Settings, acts: seq<Act>)
    ensures Distinct(Keys(ActRun(cfg, acts).cache))
  {
    hide Run, ActRun, EventsOf;
    ActRunIsRun(cfg, acts);
    EveryRunIsSound(cfg, EventsOf(acts));
  }

  /** In a run, at every moment, the cache is the LRU cache. */
  ghost predicate AlwaysLru(cfg: Settings, acts: seq<Act>) {
    forall i :: 0 <= i <= |acts| ==> ActRun(cfg, acts[..i]) == LruRun(cfg, acts[..i])
  }

  ghost predicate AlwaysHarmless(cfg: Settings, acts: seq<Act>) {
    forall i :: 0 <= i < |acts| ==> Harmless(cfg, ActRun(cfg, acts[..i]), acts[i])
  }

  lemma NextAct(cfg: Settings, acts: seq<Act>, i: nat)
    requires i < |acts|
    ensures ActRun(cfg, acts[..i + 1]) == ActStep(cfg, ActRun(cfg, acts[..i]), acts[i])
    ensures LruRun(cfg, acts[..i + 1]) == LruStep(cfg, LruRun(cfg, acts[..i]), acts[i])
  {
    hide ActStep, LruStep;
    assert acts[..i + 1][..i] == acts[..i];
  }

  lemma {:induction false} HarmlessIsLru(cfg: Settings, acts: seq<Act>, i: nat)
    requires i <= |acts| && Maps(acts) && AlwaysHarmless(cfg, acts)
    ensures ActRun(cfg, acts[..i]) == LruRun(cfg, acts[..i])
  {
    hide ActStep, LruStep, Harmless;
    if i > 0 {
      HarmlessIsLru(cfg, acts, i - 1);
      NextAct(cfg, acts, i - 1);
      KeysStayDistinct(cfg, acts[..i - 1]);
      assert Harmless(cfg, ActRun(cfg, acts[..i - 1]), acts[i - 1]);
      LruStepExactly(cfg, ActRun(cfg, acts[..i - 1]), acts[i - 1]);
    }
  }

  /** Over every interleaving of calls and reads, the cache is throughout one that evicts what was
      used least recently exactly when every fill puts its addresses where they would go anyway,
      and every hit is on the addresses that are last already. */
  lemma LruExactly(cfg: Settings, acts: seq<Act>)
    requires Maps(acts)
    ensures AlwaysLru(cfg, acts) <==> AlwaysHarmless(cfg, acts)
  {
    hide ActStep, LruStep, ActRun, LruRun, Harmless;
    if AlwaysHarmless(cfg, acts) {
      forall i | 0 <= i <= |acts|
        ensures ActRun(cfg, acts[..i]) == LruRun(cfg, acts[..i])
      {
        HarmlessIsLru(cfg, acts, i);
      }
    }
    if AlwaysLru(cfg, acts) {
      forall i | 0 <= i < |acts|
        ensures Harmless(cfg, ActRun(cfg, acts[..i]), acts[i])
      {
        assert ActRun(cfg, acts[..i]) == LruRun(cfg, acts[..i]) && ActRun(cfg, acts[..i + 1]) == LruRun(cfg, acts[..i + 1]);
        NextAct(cfg, acts, i);
        KeysStayDistinct(cfg, acts[..i]);
        LruStepExactly(cfg, ActRun(cfg, acts[..i]), acts[i]);
      }
    }
  }
}
