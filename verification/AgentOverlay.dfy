/** The per-agent meter: for each of 10 slots, 24 hourly totals without epoch tags, kept honest
    by zeroing the slots skipped since the last write, and read backwards from it. */
module AgentOverlay {
  import opened Common
  import opened SpendLog
  import opened Metering

  const OVERLAY_EPOCH_DURATION := 3600
  const OVERLAY_NUM_EPOCHS := 24
  const OVERLAY_WINDOW_SECONDS := 86400
  const MAX_OVERLAY_ENTRIES := 10

  type Hours = s: seq<nat> | |s| == OVERLAY_NUM_EPOCHS witness seq(OVERLAY_NUM_EPOCHS, _ => 0)
  /** One slot, with its elements of the two lifetime arrays that run beside the entries. */
  datatype Entry = Entry(agent: Key, lastWriteEpoch: int, contributions: Hours, lifetimeSpend: nat, lifetimeTxCount: nat)
  type Entries = s: seq<Entry> | |s| == MAX_OVERLAY_ENTRIES witness seq(MAX_OVERLAY_ENTRIES, _ => Fresh(DEFAULT_KEY))

  predicate WellFormed(e: Entry) {
    && 0 <= e.lastWriteEpoch <= I64_MAX
    && forall i :: 0 <= i < OVERLAY_NUM_EPOCHS ==> e.contributions[i] <= U64_MAX
  }

  function Fresh(agent: Key): Entry {
    Entry(agent, 0, seq(OVERLAY_NUM_EPOCHS, _ => 0), 0, 0)
  }

  // ---- What the reader and the writer compute ----

  function Counted(usd: nat, epoch: int, t: int): nat {
    var c := EpochAt(t, OVERLAY_EPOCH_DURATION);
    if epoch > c then 0
    else if epoch == c - OVERLAY_NUM_EPOCHS then Share(usd, OVERLAY_EPOCH_DURATION, t)
    else usd
  }

  function Walk(e: Entry, t: int, k: nat): nat
    decreases OVERLAY_NUM_EPOCHS - k
  {
    var c, epoch := EpochAt(t, OVERLAY_EPOCH_DURATION), e.lastWriteEpoch - k;
    if k >= OVERLAY_NUM_EPOCHS || epoch < 0 || epoch < c - OVERLAY_NUM_EPOCHS then 0
    else
      var usd := e.contributions[epoch % OVERLAY_NUM_EPOCHS];
      Counted(usd, epoch, t) + Walk(e, t, k + 1)
  }

  function Reading(e: Entry, t: int): nat {
    if t <= 0 || EpochAt(t, OVERLAY_EPOCH_DURATION) - e.lastWriteEpoch > OVERLAY_NUM_EPOCHS then 0
    else Min(Walk(e, t, 0), U64_MAX)
  }

  /** Slot i belongs to an epoch after `last` and up to `current`. */
  predicate Skipped(last: int, current: int, i: int) {
    (i - last - 1) % OVERLAY_NUM_EPOCHS < current - last
  }

  function Cleared(e: Entry, current: int): Hours {
    seq(OVERLAY_NUM_EPOCHS, i requires 0 <= i < OVERLAY_NUM_EPOCHS =>
      if Skipped(e.lastWriteEpoch, current, i) then 0 else e.contributions[i])
  }

  /** The recorder divides before it looks at the sign, and truncates toward zero. */
  function TruncatedEpoch(t: int): (epoch: int)
    ensures t >= 0 ==> epoch == EpochAt(t, OVERLAY_EPOCH_DURATION)
  {
    if t >= 0 then t / OVERLAY_EPOCH_DURATION else -((-t) / OVERLAY_EPOCH_DURATION)
  }

  /** A negative remainder is no slot index; only negative multiples of 24 have one, which is 0. */
  predicate HasSlot(epoch: int) {
    epoch >= 0 || epoch % OVERLAY_NUM_EPOCHS == 0
  }

  predicate Recordable(e: Entry, t: int, usd: nat) {
    var c := TruncatedEpoch(t);
    HasSlot(c) && Cleared(e, c)[c % OVERLAY_NUM_EPOCHS] + usd <= U64_MAX
  }

  function Recorded(e: Entry, t: int, usd: nat): Entry {
    var c := TruncatedEpoch(t);
    var cleared, i := Cleared(e, c), c % OVERLAY_NUM_EPOCHS;
    e.(lastWriteEpoch := c, contributions := cleared[i := cleared[i] + usd])
  }

  // ---- The slots against the agent's own history ----

  ghost predicate Tracks(e: Entry, log: seq<Spend>) {
    && WellTimed(log)
    && 0 <= e.lastWriteEpoch == LastEpoch(log, OVERLAY_EPOCH_DURATION)
    && forall epoch :: 0 <= epoch && e.lastWriteEpoch - OVERLAY_NUM_EPOCHS < epoch <= e.lastWriteEpoch ==>
         e.contributions[epoch % OVERLAY_NUM_EPOCHS] == EpochSpend(log, OVERLAY_EPOCH_DURATION, epoch)
  }

  lemma FreshTracks(agent: Key)
    ensures Tracks(Fresh(agent), []) && WellFormed(Fresh(agent))
  {
  }

  lemma NothingAfterLastWrite(log: seq<Spend>, epoch: int)
    requires WellTimed(log) && (epoch < 0 || epoch > LastEpoch(log, OVERLAY_EPOCH_DURATION))
    ensures EpochSpend(log, OVERLAY_EPOCH_DURATION, epoch) == 0
  {
    forall i | 0 <= i < |log|
      ensures log[i].time !in Epochs(epoch, epoch, OVERLAY_EPOCH_DURATION)
    {
      EpochMonotone(log[i].time, log[|log| - 1].time, OVERLAY_EPOCH_DURATION);
    }
    NothingSpentIn(log, Epochs(epoch, epoch, OVERLAY_EPOCH_DURATION));
  }

  lemma SkippedSlots(last: int, current: int, epoch: int)
    requires last <= current && current - OVERLAY_NUM_EPOCHS < epoch <= current
    ensures Skipped(last, current, epoch % OVERLAY_NUM_EPOCHS) <==> last < epoch
  {
    var x := epoch - last - 1;
    assert (epoch % OVERLAY_NUM_EPOCHS - last - 1) % OVERLAY_NUM_EPOCHS == x % OVERLAY_NUM_EPOCHS;
  }

  lemma RecordedTracks(e: Entry, log: seq<Spend>, t: int, usd: nat)
    requires Tracks(e, log) && t > 0 && (log == [] || log[|log| - 1].time <= t)
    ensures Tracks(Recorded(e, t, usd), log + [Spend(t, usd)])
  {
    var s, e', c := Spend(t, usd), Recorded(e, t, usd), EpochAt(t, OVERLAY_EPOCH_DURATION);
    var log' := log + [s];
    if log != [] {
      EpochMonotone(log[|log| - 1].time, t, OVERLAY_EPOCH_DURATION);
    }
    forall epoch | 0 <= epoch && c - OVERLAY_NUM_EPOCHS < epoch <= c
      ensures e'.contributions[epoch % OVERLAY_NUM_EPOCHS] == EpochSpend(log', OVERLAY_EPOCH_DURATION, epoch)
    {
      RecordedEpoch(e, log, t, usd, epoch);
    }
    hide EpochSpend, Cleared;
  }

  lemma RecordedEpoch(e: Entry, log: seq<Spend>, t: int, usd: nat, epoch: int)
    requires Tracks(e, log) && t > 0 && e.lastWriteEpoch <= EpochAt(t, OVERLAY_EPOCH_DURATION)
    requires 0 <= epoch && EpochAt(t, OVERLAY_EPOCH_DURATION) - OVERLAY_NUM_EPOCHS < epoch <= EpochAt(t, OVERLAY_EPOCH_DURATION)
    ensures Recorded(e, t, usd).contributions[epoch % OVERLAY_NUM_EPOCHS] ==
            EpochSpend(log + [Spend(t, usd)], OVERLAY_EPOCH_DURATION, epoch)
  {
    var c, slot := EpochAt(t, OVERLAY_EPOCH_DURATION), epoch % OVERLAY_NUM_EPOCHS;
    SpentInAppend(log, Spend(t, usd), Epochs(epoch, epoch, OVERLAY_EPOCH_DURATION));
    SkippedSlots(e.lastWriteEpoch, c, epoch);
    if epoch > e.lastWriteEpoch {
      NothingAfterLastWrite(log, epoch);
    } else {
      assert e.contributions[slot] == EpochSpend(log, OVERLAY_EPOCH_DURATION, epoch);
    }
    assert Cleared(e, c)[slot] == EpochSpend(log, OVERLAY_EPOCH_DURATION, epoch);
    OneEpochPerSlot(epoch, c);
  }

  /** Recording succeeds exactly when the current epoch's whole spend still fits 64 bits. */
  lemma RecordableExactly(e: Entry, log: seq<Spend>, t: int, usd: nat)
    requires Tracks(e, log) && t > 0 && (log == [] || log[|log| - 1].time <= t)
    ensures Recordable(e, t, usd) <==>
            EpochSpend(log, OVERLAY_EPOCH_DURATION, EpochAt(t, OVERLAY_EPOCH_DURATION)) + usd <= U64_MAX
  {
    var c := EpochAt(t, OVERLAY_EPOCH_DURATION);
    if log != [] {
      EpochMonotone(log[|log| - 1].time, t, OVERLAY_EPOCH_DURATION);
    } else {
      EpochMonotone(0, t, OVERLAY_EPOCH_DURATION);
    }
    SkippedSlots(e.lastWriteEpoch, c, c);
    if c > e.lastWriteEpoch {
      NothingAfterLastWrite(log, c);
    } else {
      assert e.contributions[c % OVERLAY_NUM_EPOCHS] == EpochSpend(log, OVERLAY_EPOCH_DURATION, c);
    }
  }

  lemma OneEpochPerSlot(epoch: int, c: int)
    requires c - OVERLAY_NUM_EPOCHS < epoch <= c
    ensures epoch % OVERLAY_NUM_EPOCHS == c % OVERLAY_NUM_EPOCHS <==> epoch == c
  {
  }

  lemma PeelEpoch(log: seq<Spend>, first: int, last: int)
    requires first <= last
    ensures SpentIn(log, Epochs(first, last, OVERLAY_EPOCH_DURATION)) ==
            SpentIn(log, Epochs(first, last - 1, OVERLAY_EPOCH_DURATION)) + EpochSpend(log, OVERLAY_EPOCH_DURATION, last)
  {
    var rest, top := Epochs(first, last - 1, OVERLAY_EPOCH_DURATION), Epochs(last, last, OVERLAY_EPOCH_DURATION);
    assert Epochs(first, last, OVERLAY_EPOCH_DURATION) == rest + top;
    SpentInUnion(log, rest, top);
  }

  lemma {:induction false} WalkIsMetered(e: Entry, log: seq<Spend>, t: int, k: nat)
    requires Tracks(e, log) && t > 0 && k <= OVERLAY_NUM_EPOCHS
    requires e.lastWriteEpoch <= EpochAt(t, OVERLAY_EPOCH_DURATION)
    ensures var c, epoch := EpochAt(t, OVERLAY_EPOCH_DURATION), e.lastWriteEpoch - k;
            Walk(e, t, k) == SpentIn(log, Epochs(c - OVERLAY_NUM_EPOCHS + 1, epoch, OVERLAY_EPOCH_DURATION)) +
              if c - OVERLAY_NUM_EPOCHS <= epoch
              then BoundaryShare(log, OVERLAY_EPOCH_DURATION, OVERLAY_NUM_EPOCHS, t) else 0
    decreases OVERLAY_NUM_EPOCHS - k
  {
    var c, epoch := EpochAt(t, OVERLAY_EPOCH_DURATION), e.lastWriteEpoch - k;
    var first := c - OVERLAY_NUM_EPOCHS + 1;
    if k == OVERLAY_NUM_EPOCHS || epoch < 0 || epoch < first {
      NothingSpentIn(log, Epochs(first, epoch, OVERLAY_EPOCH_DURATION));
      if first - 1 < 0 {
        NothingAfterLastWrite(log, first - 1);
      }
    } else {
      PeelEpoch(log, first, epoch);
    }
    if k < OVERLAY_NUM_EPOCHS {
      WalkIsMetered(e, log, t, k + 1);
    }
  }

  /** Gap zeroing and the backward walk, with its breaks and early exit, read exactly the same
      abstract meter as the vault's tagged buckets: the floor-weighted sum over the window. */
  lemma ReadingIsMetered(e: Entry, log: seq<Spend>, t: int)
    requires Tracks(e, log) && t > 0
    requires log == [] || log[|log| - 1].time <= t
    ensures Reading(e, t) == Min(Metered(log, OVERLAY_EPOCH_DURATION, OVERLAY_NUM_EPOCHS, t), U64_MAX)
  {
    var c := EpochAt(t, OVERLAY_EPOCH_DURATION);
    if log != [] {
      EpochMonotone(log[|log| - 1].time, t, OVERLAY_EPOCH_DURATION);
    }
    WalkIsMetered(e, log, t, 0);
    var window := Epochs(c - OVERLAY_NUM_EPOCHS + 1, c, OVERLAY_EPOCH_DURATION);
    var written := Epochs(c - OVERLAY_NUM_EPOCHS + 1, e.lastWriteEpoch, OVERLAY_EPOCH_DURATION);
    forall i | 0 <= i < |log|
      ensures log[i].time in window <==> log[i].time in written
    {
      EpochMonotone(log[i].time, log[|log| - 1].time, OVERLAY_EPOCH_DURATION);
    }
    SpentInMonotone(log, window, written);
    SpentInMonotone(log, written, window);
    if c - e.lastWriteEpoch > OVERLAY_NUM_EPOCHS {
      NothingSpentIn(log, written);
      NothingAfterLastWrite(log, c - OVERLAY_NUM_EPOCHS);
    }
  }

  /** Before the clamp the reading lies between the totals of the last n and n + 1 epochs. */
  lemma MeteredBetweenTotals(log: seq<Spend>, d: int, n: int, t: int)
    requires d > 0 && n >= 0
    ensures var c := EpochAt(t, d);
            SpentIn(log, Epochs(c - n + 1, c, d)) <= Metered(log, d, n, t) <= SpentIn(log, Epochs(c - n, c, d))
  {
    var c := EpochAt(t, d);
    var last, boundary := Epochs(c - n + 1, c, d), Epochs(c - n, c - n, d);
    assert Epochs(c - n, c, d) == last + boundary;
    SpentInUnion(log, last, boundary);
  }

  // ---- The reader on its own ----

  lemma CountedDecays(usd: nat, epoch: int, t: int, later: int)
    requires 0 < t <= later && epoch <= EpochAt(t, OVERLAY_EPOCH_DURATION)
    requires EpochAt(later, OVERLAY_EPOCH_DURATION) - OVERLAY_NUM_EPOCHS <= epoch
    ensures Counted(usd, epoch, later) <= Counted(usd, epoch, t)
  {
    EpochMonotone(t, later, OVERLAY_EPOCH_DURATION);
    if EpochAt(later, OVERLAY_EPOCH_DURATION) == EpochAt(t, OVERLAY_EPOCH_DURATION) {
      ScaledOrder(usd, OVERLAY_EPOCH_DURATION - later % OVERLAY_EPOCH_DURATION, OVERLAY_EPOCH_DURATION - t % OVERLAY_EPOCH_DURATION);
    }
  }

  lemma ScaledOrder(usd: nat, a: int, b: int)
    requires a <= b
    ensures usd * a / OVERLAY_EPOCH_DURATION <= usd * b / OVERLAY_EPOCH_DURATION
  {
    assert usd * (b - a) >= 0;
    assert usd * b == usd * a + usd * (b - a);
  }

  lemma {:induction false} WalkDecays(e: Entry, t: int, later: int, k: nat)
    requires 0 < t <= later && e.lastWriteEpoch <= EpochAt(t, OVERLAY_EPOCH_DURATION)
    ensures Walk(e, later, k) <= Walk(e, t, k)
    decreases OVERLAY_NUM_EPOCHS - k
  {
    hide Counted, Walk;
    WalkStep(e, t, k);
    WalkStep(e, later, k);
    EpochMonotone(t, later, OVERLAY_EPOCH_DURATION);
    var epoch := e.lastWriteEpoch - k;
    if k < OVERLAY_NUM_EPOCHS && epoch >= 0 && epoch >= EpochAt(later, OVERLAY_EPOCH_DURATION) - OVERLAY_NUM_EPOCHS {
      CountedDecays(e.contributions[epoch % OVERLAY_NUM_EPOCHS], epoch, t, later);
      WalkDecays(e, t, later, k + 1);
    }
  }

  /** Without writes, and with the last one not in the future, an agent's reading never grows. */
  lemma ReadingDecays(e: Entry, t: int, later: int)
    requires 0 < t <= later && e.lastWriteEpoch <= EpochAt(t, OVERLAY_EPOCH_DURATION)
    ensures Reading(e, later) <= Reading(e, t)
  {
    EpochMonotone(t, later, OVERLAY_EPOCH_DURATION);
    WalkDecays(e, t, later, 0);
  }

  // ---- The account ----

  function FindSlot(entries: seq<Entry>, agent: Key): Option<nat> {
    FindSlotFrom(entries, agent, 0)
  }

  function FindSlotFrom(entries: seq<Entry>, agent: Key, i: nat): (r: Option<nat>)
    requires i <= |entries|
    ensures r.Some? ==> i <= r.value < |entries| && entries[r.value].agent == agent
    ensures r.Some? ==> forall j :: i <= j < r.value ==> entries[j].agent != agent
    ensures r.None? ==> forall j :: i <= j < |entries| ==> entries[j].agent != agent
    decreases |entries| - i
  {
    if i == |entries| then None
    else if entries[i].agent == agent then Some(i)
    else FindSlotFrom(entries, agent, i + 1)
  }

  class AgentSpendOverlay {
    const entries: array<Entry>

    ghost predicate Valid()
      reads this, entries
    {
      && entries.Length == MAX_OVERLAY_ENTRIES
      && forall i :: 0 <= i < entries.Length ==> WellFormed(entries[i])
    }

    constructor ()
      ensures Valid() && fresh(entries)
      ensures entries[..] == seq(MAX_OVERLAY_ENTRIES, _ => Fresh(DEFAULT_KEY))
    {
      entries := new Entry[MAX_OVERLAY_ENTRIES](_ => Fresh(DEFAULT_KEY));
    }

    method FindAgentSlot(agent: Key) returns (slot: Option<nat>)
      requires Valid()
      ensures slot == FindSlot(entries[..], agent)
    {
      var i := 0;
      while i < entries.Length
        invariant 0 <= i <= entries.Length
        invariant FindSlot(entries[..], agent) == FindSlotFrom(entries[..], agent, i)
      {
        if entries[i].agent == agent {
          return Some(i);
        }
        i := i + 1;
      }
      return None;
    }

    /** The first empty slot, keyed to the agent; its data is expected to be zero already. */
    method ClaimSlot(agent: Key) returns (slot: Option<nat>)
      requires Valid()
      modifies entries
      ensures Valid()
      ensures slot == FindSlot(old(entries[..]), DEFAULT_KEY)
      ensures slot.None? ==> entries[..] == old(entries[..])
      ensures slot.Some? ==>
                entries[..] == old(entries[..])[slot.value := old(entries[..])[slot.value].(agent := agent)]
    {
      slot := FindAgentSlot(DEFAULT_KEY);
      if slot.Some? {
        entries[slot.value] := entries[slot.value].(agent := agent);
      }
    }

    method ReleaseSlot(slot: nat)
      requires Valid()
      modifies entries
      ensures Valid()
      ensures entries[..] == if slot < MAX_OVERLAY_ENTRIES then old(entries[..])[slot := Fresh(DEFAULT_KEY)] else old(entries[..])
    {
      if slot >= MAX_OVERLAY_ENTRIES {
        return;
      }
      var entry := entries[slot].(agent := DEFAULT_KEY, lastWriteEpoch := 0);
      for i := 0 to OVERLAY_NUM_EPOCHS
        invariant entry == entry.(agent := DEFAULT_KEY, lastWriteEpoch := 0)
        invariant forall j :: 0 <= j < i ==> entry.contributions[j] == 0
      {
        entry := entry.(contributions := entry.contributions[i := 0]);
      }
      entry := entry.(lifetimeSpend := 0, lifetimeTxCount := 0);
      assert entry == Fresh(DEFAULT_KEY);
      entries[slot] := entry;
    }

    method ZeroGapBuckets(slot: nat, currentEpoch: int)
      requires Valid() && slot < MAX_OVERLAY_ENTRIES
      modifies entries
      ensures Valid()
      ensures entries[..] == old(entries[..])[slot := old(entries[slot]).(contributions := Cleared(old(entries[slot]), currentEpoch))]
    {
      var was := entries[slot];
      var entry := was;
      var gap := currentEpoch - entry.lastWriteEpoch;
      if gap <= 0 {
        assert Cleared(was, currentEpoch) == was.contributions;
        return;
      }
      if gap >= OVERLAY_NUM_EPOCHS {
        for i := 0 to OVERLAY_NUM_EPOCHS
          invariant entry == was.(contributions := entry.contributions)
          invariant forall j :: 0 <= j < i ==> entry.contributions[j] == 0
        {
          entry := entry.(contributions := entry.contributions[i := 0]);
        }
      } else {
        for offset := 1 to gap + 1
          invariant entry == was.(contributions := entry.contributions)
          invariant forall j :: 0 <= j < OVERLAY_NUM_EPOCHS ==>
            entry.contributions[j] == if Skipped(was.lastWriteEpoch, was.lastWriteEpoch + offset - 1, j) then 0 else was.contributions[j]
        {
          var epoch := entry.lastWriteEpoch + offset;
          forall j | 0 <= j < OVERLAY_NUM_EPOCHS
            ensures Skipped(was.lastWriteEpoch, epoch, j) <==>
              j == epoch % OVERLAY_NUM_EPOCHS || Skipped(was.lastWriteEpoch, epoch - 1, j)
          {
            NextSkipped(was.lastWriteEpoch, offset, j);
          }
          entry := entry.(contributions := entry.contributions[epoch % OVERLAY_NUM_EPOCHS := 0]);
        }
      }
      assert entry.contributions == Cleared(was, currentEpoch);
      entries[slot] := entry;
    }

    /** AgentSpendOverlay::get_agent_rolling_24h_usd. */
    method GetAgentRolling24hUsd(now: int, slot: nat) returns (usd: nat)
      requires Valid()
      ensures usd == if slot < MAX_OVERLAY_ENTRIES then Reading(entries[slot], now) else 0
    {
      hide Counted, Walk, Share;
      if now <= 0 || slot >= MAX_OVERLAY_ENTRIES {
        return 0;
      }
      var currentEpoch, entry := now / OVERLAY_EPOCH_DURATION, entries[slot];
      if currentEpoch - entry.lastWriteEpoch > OVERLAY_NUM_EPOCHS {
        return 0;
      }
      var windowStart := now - OVERLAY_WINDOW_SECONDS;
      var total, k := 0, 0;
      while k < OVERLAY_NUM_EPOCHS
        invariant 0 <= k <= OVERLAY_NUM_EPOCHS
        invariant total + Walk(entry, now, k) == Walk(entry, now, 0)
      {
        var epoch := entry.lastWriteEpoch - k;
        WalkStep(entry, now, k);
        if epoch < 0 {
          break;
        }
        var bucketStart := epoch * OVERLAY_EPOCH_DURATION;
        var bucketEnd := bucketStart + OVERLAY_EPOCH_DURATION;
        CountedByEdges(entry.contributions[epoch % OVERLAY_NUM_EPOCHS], epoch, now, windowStart);
        if bucketEnd <= windowStart {
          break;
        }
        k := k + 1;
        if epoch > currentEpoch {
          continue;
        }
        var contribution := entry.contributions[epoch % OVERLAY_NUM_EPOCHS];
        if contribution == 0 {
          continue;
        }
        if bucketStart >= windowStart {
          total := total + contribution;
        } else {
          var overlap := bucketEnd - windowStart;
          total := total + contribution * overlap / OVERLAY_EPOCH_DURATION;
        }
      }
      WalkStep(entry, now, k);
      return if total > U64_MAX then U64_MAX else total;
    }

    /** getAgentRolling24hUsd, the client's mirror: its window start stops at 0. */
    static method MirrorAgentRolling24hUsd(entry: Entry, now: int) returns (usd: nat)
      requires WellFormed(entry)
      ensures usd == Reading(entry, now)
    {
      hide Counted, Walk, Share;
      if now <= 0 {
        return 0;
      }
      var currentEpoch := now / OVERLAY_EPOCH_DURATION;
      if currentEpoch - entry.lastWriteEpoch > OVERLAY_NUM_EPOCHS {
        return 0;
      }
      var windowStart := if now > OVERLAY_WINDOW_SECONDS then now - OVERLAY_WINDOW_SECONDS else 0;
      var total, k := 0, 0;
      while k < OVERLAY_NUM_EPOCHS
        invariant 0 <= k <= OVERLAY_NUM_EPOCHS
        invariant total + Walk(entry, now, k) == Walk(entry, now, 0)
      {
        var epoch := entry.lastWriteEpoch - k;
        WalkStep(entry, now, k);
        if epoch < 0 {
          break;
        }
        var bucketStart := epoch * OVERLAY_EPOCH_DURATION;
        var bucketEnd := bucketStart + OVERLAY_EPOCH_DURATION;
        CountedByEdges(entry.contributions[epoch % OVERLAY_NUM_EPOCHS], epoch, now, windowStart);
        if bucketEnd <= windowStart {
          break;
        }
        k := k + 1;
        if epoch > currentEpoch {
          continue;
        }
        var contribution := entry.contributions[epoch % OVERLAY_NUM_EPOCHS];
        if contribution == 0 {
          continue;
        }
        if bucketStart >= windowStart {
          total := total + contribution;
        } else {
          var overlap := bucketEnd - windowStart;
          total := total + contribution * overlap / OVERLAY_EPOCH_DURATION;
        }
      }
      WalkStep(entry, now, k);
      return if total > U64_MAX then U64_MAX else total;
    }

    /** AgentSpendOverlay::record_agent_contribution. It fails on an overflow, and on a clock whose
        remainder would index before the array; far enough below zero it can record, and then
        leaves a last write before epoch 0. */
    method RecordAgentContribution(now: int, slot: nat, usdAmount: nat) returns (ok: bool)
      requires Valid() && now <= I64_MAX
      modifies entries
      ensures now > -OVERLAY_EPOCH_DURATION ==> Valid()
      ensures ok == (slot < MAX_OVERLAY_ENTRIES && old(Recordable(entries[slot], now, usdAmount)))
      ensures ok ==> entries[..] == old(entries[..])[slot := Recorded(old(entries[slot]), now, usdAmount)]
    {
      if slot >= MAX_OVERLAY_ENTRIES {
        return false;
      }
      var currentEpoch := if now >= 0 then now / OVERLAY_EPOCH_DURATION else -((-now) / OVERLAY_EPOCH_DURATION);
      ZeroGapBuckets(slot, currentEpoch);
      if currentEpoch < 0 && currentEpoch % OVERLAY_NUM_EPOCHS != 0 {
        return false;
      }
      var idx, entry := currentEpoch % OVERLAY_NUM_EPOCHS, entries[slot];
      if entry.contributions[idx] + usdAmount > U64_MAX {
        return false;
      }
      entry := entry.(contributions := entry.contributions[idx := entry.contributions[idx] + usdAmount]);
      entries[slot] := entry.(lastWriteEpoch := currentEpoch);
      return true;
    }

    /** Account data as it was before a failed transaction. */
    method Restore(saved: seq<Entry>)
      requires |saved| == entries.Length
      modifies entries
      ensures entries[..] == saved
    {
      forall i | 0 <= i < entries.Length {
        entries[i] := saved[i];
      }
    }
  }

  /** Where an epoch's seconds lie relative to the start of the 24 h window. */
  lemma WindowEdges(epoch: int, now: int)
    ensures var c, start := EpochAt(now, OVERLAY_EPOCH_DURATION), now - OVERLAY_WINDOW_SECONDS;
            var first := epoch * OVERLAY_EPOCH_DURATION;
            && (first + OVERLAY_EPOCH_DURATION <= start <==> epoch < c - OVERLAY_NUM_EPOCHS)
            && (epoch > c - OVERLAY_NUM_EPOCHS ==> first >= start)
            && (epoch == c - OVERLAY_NUM_EPOCHS ==>
                  && first + OVERLAY_EPOCH_DURATION - start == OVERLAY_EPOCH_DURATION - now % OVERLAY_EPOCH_DURATION
                  && (first >= start <==> now % OVERLAY_EPOCH_DURATION == 0))
  {
  }

  lemma OverlapShare(usd: nat, epoch: int, now: int, overlap: int)
    requires epoch == EpochAt(now, OVERLAY_EPOCH_DURATION) - OVERLAY_NUM_EPOCHS
    requires overlap == OVERLAY_EPOCH_DURATION - now % OVERLAY_EPOCH_DURATION
    ensures 0 <= usd * overlap / OVERLAY_EPOCH_DURATION == Counted(usd, epoch, now)
  {
    ShareBounds(usd, overlap, OVERLAY_EPOCH_DURATION);
  }

  /** What the two readers do with an epoch, by where its seconds lie; the client's window start
      stops at 0. */
  lemma CountedByEdges(usd: nat, epoch: int, now: int, windowStart: int)
    requires now > 0 && 0 <= epoch
    requires windowStart == now - OVERLAY_WINDOW_SECONDS || (now <= OVERLAY_WINDOW_SECONDS && windowStart == 0)
    ensures var c, first := EpochAt(now, OVERLAY_EPOCH_DURATION), epoch * OVERLAY_EPOCH_DURATION;
            && (first + OVERLAY_EPOCH_DURATION <= windowStart <==> epoch < c - OVERLAY_NUM_EPOCHS)
            && (epoch > c || usd == 0 ==> Counted(usd, epoch, now) == 0)
            && (epoch <= c && first >= windowStart ==> Counted(usd, epoch, now) == usd)
            && (epoch <= c && first < windowStart < first + OVERLAY_EPOCH_DURATION ==>
                  0 <= usd * (first + OVERLAY_EPOCH_DURATION - windowStart) / OVERLAY_EPOCH_DURATION == Counted(usd, epoch, now))
  {
    WindowEdges(epoch, now);
    if epoch == EpochAt(now, OVERLAY_EPOCH_DURATION) - OVERLAY_NUM_EPOCHS {
      OverlapShare(usd, epoch, now, OVERLAY_EPOCH_DURATION - now % OVERLAY_EPOCH_DURATION);
    }
  }

  /** One step of the walk. */
  lemma WalkStep(e: Entry, t: int, k: nat)
    ensures var c, epoch := EpochAt(t, OVERLAY_EPOCH_DURATION), e.lastWriteEpoch - k;
            if k >= OVERLAY_NUM_EPOCHS || epoch < 0 || epoch < c - OVERLAY_NUM_EPOCHS then Walk(e, t, k) == 0
            else Walk(e, t, k) == Counted(e.contributions[epoch % OVERLAY_NUM_EPOCHS], epoch, t) + Walk(e, t, k + 1)
  {
    hide Counted;
  }

  lemma NextSkipped(last: int, offset: int, j: int)
    requires 1 <= offset < OVERLAY_NUM_EPOCHS && 0 <= j < OVERLAY_NUM_EPOCHS
    ensures Skipped(last, last + offset, j) <==>
            j == (last + offset) % OVERLAY_NUM_EPOCHS || Skipped(last, last + offset - 1, j)
  {
    assert (j - last - 1) % OVERLAY_NUM_EPOCHS == offset - 1 <==> j == (last + offset) % OVERLAY_NUM_EPOCHS;
  }
}
