/** The vault's meter: 144 ten-minute buckets, each tagged with its epoch, in a ring. */
module SpendTracking {
  import opened SpendLog
  import opened Metering

  const EPOCH_DURATION := 600
  const NUM_EPOCHS := 144
  const ROLLING_WINDOW_SECONDS := 86400

  datatype EpochBucket = EpochBucket(epochId: int, usdAmount: nat)
  type Buckets = s: seq<EpochBucket> | |s| == NUM_EPOCHS witness seq(NUM_EPOCHS, _ => EpochBucket(0, 0))
  datatype Tracker = Tracker(buckets: Buckets, lastWriteEpoch: int)

  /** The widths of the account's integer fields, and epochs that are not before 1970. */
  predicate WellFormed(tr: Tracker) {
    && 0 <= tr.lastWriteEpoch <= I64_MAX
    && forall i :: 0 <= i < NUM_EPOCHS ==> 0 <= tr.buckets[i].epochId <= I64_MAX && tr.buckets[i].usdAmount <= U64_MAX
  }

  function Empty(): Tracker {
    Tracker(seq(NUM_EPOCHS, _ => EpochBucket(0, 0)), 0)
  }

  // ---- What the readers compute ----

  function Weigh(b: EpochBucket, t: int): nat {
    var c := EpochAt(t, EPOCH_DURATION);
    if b.epochId == c - NUM_EPOCHS then Share(b.usdAmount, EPOCH_DURATION, t)
    else if c - NUM_EPOCHS < b.epochId <= c then b.usdAmount
    else 0
  }

  function Scan(buckets: seq<EpochBucket>, t: int): nat {
    if buckets == [] then 0
    else Scan(buckets[..|buckets| - 1], t) + Weigh(buckets[|buckets| - 1], t)
  }

  function Reading(tr: Tracker, t: int): nat {
    if t <= 0 || EpochAt(t, EPOCH_DURATION) - tr.lastWriteEpoch > NUM_EPOCHS then 0
    else Min(Scan(tr.buckets, t), U64_MAX)
  }

  function Recorded(tr: Tracker, t: int, usd: nat): Tracker {
    var c := EpochAt(t, EPOCH_DURATION);
    var i := c % NUM_EPOCHS;
    var kept := if tr.buckets[i].epochId == c then tr.buckets[i].usdAmount else 0;
    Tracker(tr.buckets[i := EpochBucket(c, kept + usd)], c)
  }

  /** Recording fails on a clock that is not positive and on a bucket that would outgrow u64. */
  predicate Recordable(tr: Tracker, t: int, usd: nat) {
    t > 0 &&
    var c := EpochAt(t, EPOCH_DURATION);
    var b := tr.buckets[c % NUM_EPOCHS];
    (if b.epochId == c then b.usdAmount else 0) + usd <= U64_MAX
  }

  // ---- The ring against the history ----

  ghost predicate SlotHolds(b: EpochBucket, slot: int, log: seq<Spend>) {
    && 0 <= b.epochId <= LastEpoch(log, EPOCH_DURATION)
    && (b.epochId % NUM_EPOCHS == slot ==> b.usdAmount == EpochSpend(log, EPOCH_DURATION, b.epochId))
    && (b.epochId % NUM_EPOCHS != slot ==> b == EpochBucket(0, 0))
    && forall e :: e > b.epochId && e % NUM_EPOCHS == slot ==> EpochSpend(log, EPOCH_DURATION, e) == 0
  }

  /** Each slot holds the total of the latest epoch spent in among those that share it. */
  ghost predicate Tracks(tr: Tracker, log: seq<Spend>) {
    && WellTimed(log)
    && tr.lastWriteEpoch == LastEpoch(log, EPOCH_DURATION)
    && 0 <= tr.lastWriteEpoch
    && tr.buckets[tr.lastWriteEpoch % NUM_EPOCHS].epochId == tr.lastWriteEpoch
    && forall i :: 0 <= i < NUM_EPOCHS ==> SlotHolds(tr.buckets[i], i, log)
  }

  lemma EmptyTracks()
    ensures Tracks(Empty(), []) && WellFormed(Empty())
  {
  }

  lemma RecordedTracks(tr: Tracker, log: seq<Spend>, t: int, usd: nat)
    requires Tracks(tr, log) && t > 0 && (log == [] || log[|log| - 1].time <= t)
    ensures Tracks(Recorded(tr, t, usd), log + [Spend(t, usd)])
  {
    var s, tr', c := Spend(t, usd), Recorded(tr, t, usd), EpochAt(t, EPOCH_DURATION);
    var log' := log + [s];
    if log != [] {
      EpochMonotone(log[|log| - 1].time, t, EPOCH_DURATION);
    }
    forall i | 0 <= i < NUM_EPOCHS
      ensures SlotHolds(tr'.buckets[i], i, log')
    {
      var b := tr.buckets[i];
      assert SlotHolds(b, i, log);
      forall e | e % NUM_EPOCHS == i
        ensures EpochSpend(log', EPOCH_DURATION, e) == EpochSpend(log, EPOCH_DURATION, e) + if e == c then usd else 0
      {
        SpentInAppend(log, s, Epochs(e, e, EPOCH_DURATION));
      }
    }
  }

  /** An epoch that shares the slot and is not the one it holds is empty, if it is later or
      negative, or if the slot was never written. */
  lemma EmptyEpoch(b: EpochBucket, slot: int, log: seq<Spend>, e: int)
    requires WellTimed(log) && SlotHolds(b, slot, log) && e % NUM_EPOCHS == slot
    requires e > b.epochId || e < 0 || b.epochId % NUM_EPOCHS != slot
    ensures EpochSpend(log, EPOCH_DURATION, e) == 0
  {
    if e < 0 {
      NothingSpentIn(log, Epochs(e, e, EPOCH_DURATION));
    }
  }

  /** A slot other than the current one weighs what was spent in its one epoch of the window. */
  lemma OtherSlotWeight(b: EpochBucket, slot: int, log: seq<Spend>, t: int, e: int)
    requires WellTimed(log) && SlotHolds(b, slot, log) && 0 <= slot < NUM_EPOCHS
    requires LastEpoch(log, EPOCH_DURATION) <= EpochAt(t, EPOCH_DURATION)
    requires EpochAt(t, EPOCH_DURATION) - NUM_EPOCHS < e < EpochAt(t, EPOCH_DURATION) && e % NUM_EPOCHS == slot
    ensures Weigh(b, t) == EpochSpend(log, EPOCH_DURATION, e)
  {
    if b.epochId % NUM_EPOCHS == slot {
      SameSlotFarApart(b.epochId, e);
      SameSlotFarApart(e, b.epochId);
    }
    if b.epochId != e {
      EmptyEpoch(b, slot, log, e);
    }
  }

  /** The current epoch's slot weighs the current epoch, or else the boundary epoch. */
  lemma CurrentSlotWeight(b: EpochBucket, slot: int, log: seq<Spend>, t: int)
    requires WellTimed(log) && SlotHolds(b, slot, log)
    requires LastEpoch(log, EPOCH_DURATION) <= EpochAt(t, EPOCH_DURATION) && t > 0
    requires EpochAt(t, EPOCH_DURATION) % NUM_EPOCHS == slot
    requires LastEpoch(log, EPOCH_DURATION) == EpochAt(t, EPOCH_DURATION) ==> b.epochId == EpochAt(t, EPOCH_DURATION)
    ensures var c := EpochAt(t, EPOCH_DURATION);
            Weigh(b, t) == EpochSpend(log, EPOCH_DURATION, c) + BoundaryShare(log, EPOCH_DURATION, NUM_EPOCHS, t)
  {
    var c := EpochAt(t, EPOCH_DURATION);
    SameSlotFarApart(c - NUM_EPOCHS, c);
    if b.epochId != c {
      EmptyEpoch(b, slot, log, c);
      SameSlotFarApart(b.epochId, c);
      if b.epochId != c - NUM_EPOCHS {
        EmptyEpoch(b, slot, log, c - NUM_EPOCHS);
      }
    }
  }

  lemma SameSlotFarApart(a: int, b: int)
    ensures a % NUM_EPOCHS == b % NUM_EPOCHS && a < b ==> a <= b - NUM_EPOCHS
    ensures a == b - NUM_EPOCHS ==> a % NUM_EPOCHS == b % NUM_EPOCHS
  {
  }

  ghost function SlotsBelow(c: int, k: int): iset<int> {
    iset t: int | c - NUM_EPOCHS < EpochAt(t, EPOCH_DURATION) <= c && EpochAt(t, EPOCH_DURATION) % NUM_EPOCHS < k
  }

  /** The one epoch among the 144 ending at `c` that lives in this slot. */
  function EpochOfSlot(c: int, slot: int): int {
    c - (c - slot) % NUM_EPOCHS
  }

  lemma NextSlot(log: seq<Spend>, c: int, k: int)
    requires 0 < k <= NUM_EPOCHS
    ensures SpentIn(log, SlotsBelow(c, k)) ==
            SpentIn(log, SlotsBelow(c, k - 1)) + EpochSpend(log, EPOCH_DURATION, EpochOfSlot(c, k - 1))
  {
    var e := EpochOfSlot(c, k - 1);
    var epoch := Epochs(e, e, EPOCH_DURATION);
    forall t: int
      ensures t in SlotsBelow(c, k) <==> t in SlotsBelow(c, k - 1) + epoch
      ensures !(t in SlotsBelow(c, k - 1) && t in epoch)
    {
      OnlyEpochOfSlot(c, k - 1, EpochAt(t, EPOCH_DURATION));
    }
    assert SlotsBelow(c, k) == SlotsBelow(c, k - 1) + epoch;
    SpentInUnion(log, SlotsBelow(c, k - 1), epoch);
  }

  lemma OnlyEpochOfSlot(c: int, slot: int, e: int)
    requires 0 <= slot < NUM_EPOCHS
    ensures c - NUM_EPOCHS < e <= c && e % NUM_EPOCHS == slot <==> e == EpochOfSlot(c, slot)
  {
  }

  /** The boundary share, once the scan has passed the slot that would hold it. */
  ghost function BoundaryBelow(log: seq<Spend>, t: int, k: int): nat {
    if EpochAt(t, EPOCH_DURATION) % NUM_EPOCHS < k then BoundaryShare(log, EPOCH_DURATION, NUM_EPOCHS, t) else 0
  }

  /** Slot i adds its epoch of the window, and the boundary share if it would hold that. */
  ghost predicate WeighsRight(b: EpochBucket, i: int, log: seq<Spend>, t: int) {
    Weigh(b, t) + BoundaryBelow(log, t, i) ==
    EpochSpend(log, EPOCH_DURATION, EpochOfSlot(EpochAt(t, EPOCH_DURATION), i)) + BoundaryBelow(log, t, i + 1)
  }

  lemma SlotWeight(b: EpochBucket, i: int, log: seq<Spend>, t: int)
    requires WellTimed(log) && SlotHolds(b, i, log) && t > 0 && 0 <= i < NUM_EPOCHS
    requires LastEpoch(log, EPOCH_DURATION) <= EpochAt(t, EPOCH_DURATION)
    requires LastEpoch(log, EPOCH_DURATION) % NUM_EPOCHS == i ==> b.epochId == LastEpoch(log, EPOCH_DURATION)
    ensures WeighsRight(b, i, log, t)
  {
    var c := EpochAt(t, EPOCH_DURATION);
    var e := EpochOfSlot(c, i);
    OnlyEpochOfSlot(c, i, e);
    OnlyEpochOfSlot(c, i, c);
    if e == c {
      CurrentSlotWeight(b, i, log, t);
    } else {
      OtherSlotWeight(b, i, log, t, e);
    }
  }

  lemma {:induction false} ScanPrefix(buckets: seq<EpochBucket>, log: seq<Spend>, t: int, k: int)
    requires 0 <= k <= |buckets| == NUM_EPOCHS
    requires forall i :: 0 <= i < NUM_EPOCHS ==> WeighsRight(buckets[i], i, log, t)
    ensures Scan(buckets[..k], t) ==
            SpentIn(log, SlotsBelow(EpochAt(t, EPOCH_DURATION), k)) + BoundaryBelow(log, t, k)
  {
    var c := EpochAt(t, EPOCH_DURATION);
    if k == 0 {
      NothingSpentIn(log, SlotsBelow(c, 0));
    } else {
      ScanPrefix(buckets, log, t, k - 1);
      NextSlot(log, c, k);
      ScanStep(buckets, t, k);
      assert WeighsRight(buckets[k - 1], k - 1, log, t);
    }
  }

  lemma ScanStep(buckets: seq<EpochBucket>, t: int, k: int)
    requires 0 < k <= |buckets|
    ensures Scan(buckets[..k], t) == Scan(buckets[..k - 1], t) + Weigh(buckets[k - 1], t)
  {
    assert buckets[..k][..k - 1] == buckets[..k - 1];
  }

  /** The lossy ring reads exactly the abstract meter of the full history. */
  lemma ReadingIsMetered(tr: Tracker, log: seq<Spend>, t: int)
    requires Tracks(tr, log) && t > 0
    requires log == [] || log[|log| - 1].time <= t
    ensures Reading(tr, t) == Min(Metered(log, EPOCH_DURATION, NUM_EPOCHS, t), U64_MAX)
  {
    var c := EpochAt(t, EPOCH_DURATION);
    if log != [] {
      EpochMonotone(log[|log| - 1].time, t, EPOCH_DURATION);
    }
    forall i | 0 <= i < NUM_EPOCHS
      ensures WeighsRight(tr.buckets[i], i, log, t)
    {
      assert SlotHolds(tr.buckets[i], i, log);
      SlotWeight(tr.buckets[i], i, log, t);
    }
    ScanPrefix(tr.buckets, log, t, NUM_EPOCHS);
    assert tr.buckets[..NUM_EPOCHS] == tr.buckets;
    assert SlotsBelow(c, NUM_EPOCHS) == Epochs(c - NUM_EPOCHS + 1, c, EPOCH_DURATION);
    EarlyExitEqualsScan(tr, t);
  }

  /** Recording succeeds exactly at a positive clock, and when the current epoch's whole spend
      still fits 64 bits. */
  lemma RecordableExactly(tr: Tracker, log: seq<Spend>, t: int, usd: nat)
    requires Tracks(tr, log) && (log == [] || log[|log| - 1].time <= t)
    ensures Recordable(tr, t, usd) <==> t > 0 && EpochSpend(log, EPOCH_DURATION, EpochAt(t, EPOCH_DURATION)) + usd <= U64_MAX
  {
    if t > 0 {
      var c := EpochAt(t, EPOCH_DURATION);
      if log != [] {
        EpochMonotone(log[|log| - 1].time, t, EPOCH_DURATION);
      } else {
        EpochMonotone(0, t, EPOCH_DURATION);
      }
      assert SlotHolds(tr.buckets[c % NUM_EPOCHS], c % NUM_EPOCHS, log);
    }
  }

  // ---- The reader on its own ----

  lemma {:induction false} ExpiredScan(buckets: seq<EpochBucket>, t: int)
    requires forall i :: 0 <= i < |buckets| ==> buckets[i].epochId < EpochAt(t, EPOCH_DURATION) - NUM_EPOCHS
    ensures Scan(buckets, t) == 0
  {
    if buckets != [] {
      ExpiredScan(buckets[..|buckets| - 1], t);
    }
  }

  /** The early exit loses nothing when the last write bounds every bucket. */
  lemma EarlyExitEqualsScan(tr: Tracker, t: int)
    requires t > 0
    requires forall i :: 0 <= i < |tr.buckets| ==>
               tr.buckets[i].epochId <= tr.lastWriteEpoch
    ensures Reading(tr, t) == Min(Scan(tr.buckets, t), U64_MAX)
    ensures EpochAt(t, EPOCH_DURATION) - tr.lastWriteEpoch > NUM_EPOCHS ==> Reading(tr, t) == 0
  {
    if EpochAt(t, EPOCH_DURATION) - tr.lastWriteEpoch > NUM_EPOCHS {
      ExpiredScan(tr.buckets, t);
    }
  }

  lemma WeightDecays(b: EpochBucket, t: int, later: int)
    requires 0 < t <= later && b.epochId <= EpochAt(t, EPOCH_DURATION)
    ensures Weigh(b, later) <= Weigh(b, t)
  {
    EpochMonotone(t, later, EPOCH_DURATION);
    if EpochAt(later, EPOCH_DURATION) == EpochAt(t, EPOCH_DURATION) {
      ScaledOrder(b.usdAmount, EPOCH_DURATION - later % EPOCH_DURATION, EPOCH_DURATION - t % EPOCH_DURATION);
    }
  }

  lemma ScaledOrder(usd: nat, a: int, b: int)
    requires a <= b
    ensures usd * a / EPOCH_DURATION <= usd * b / EPOCH_DURATION
  {
    assert usd * (b - a) >= 0;
    assert usd * b == usd * a + usd * (b - a);
  }

  lemma {:induction false} ScanDecays(buckets: seq<EpochBucket>, t: int, later: int)
    requires 0 < t <= later
    requires forall i :: 0 <= i < |buckets| ==> buckets[i].epochId <= EpochAt(t, EPOCH_DURATION)
    ensures Scan(buckets, later) <= Scan(buckets, t)
  {
    if buckets != [] {
      WeightDecays(buckets[|buckets| - 1], t, later);
      ScanDecays(buckets[..|buckets| - 1], t, later);
    }
  }

  /** Without writes and without future-dated buckets the reading never grows. */
  lemma ReadingDecays(tr: Tracker, t: int, later: int)
    requires 0 < t <= later
    requires forall i :: 0 <= i < |tr.buckets| ==> tr.buckets[i].epochId <= EpochAt(t, EPOCH_DURATION)
    ensures Reading(tr, later) <= Reading(tr, t)
  {
    EpochMonotone(t, later, EPOCH_DURATION);
    ScanDecays(tr.buckets, t, later);
  }

  // ---- The account, and the two implementations of its reader ----

  const I64_MIN: int := -0x8000_0000_0000_0000

  function SaturateI64(x: int): int {
    if x > I64_MAX then I64_MAX else if x < I64_MIN then I64_MIN else x
  }

  const U128_MAX: nat := 0xFFFF_FFFF_FFFF_FFFF_FFFF_FFFF_FFFF_FFFF

  function SaturateU128(x: nat): nat {
    if x > U128_MAX then U128_MAX else x
  }

  /** Where an epoch's seconds lie relative to the start of the 24 h window. */
  lemma WindowEdges(epoch: int, now: int)
    ensures var c, start, first := EpochAt(now, EPOCH_DURATION), now - ROLLING_WINDOW_SECONDS, epoch * EPOCH_DURATION;
            && (first + EPOCH_DURATION <= start <==> epoch < c - NUM_EPOCHS)
            && (epoch > c - NUM_EPOCHS ==> first >= start)
            && (epoch == c - NUM_EPOCHS ==>
                  && first + EPOCH_DURATION - start == EPOCH_DURATION - now % EPOCH_DURATION
                  && (first >= start <==> now % EPOCH_DURATION == 0))
  {
  }

  lemma OverlapShare(b: EpochBucket, now: int, overlap: int)
    requires b.epochId == EpochAt(now, EPOCH_DURATION) - NUM_EPOCHS && b.usdAmount <= U64_MAX
    requires overlap == EPOCH_DURATION - now % EPOCH_DURATION
    ensures 0 <= SaturateU128(b.usdAmount * overlap) / EPOCH_DURATION == b.usdAmount * overlap / EPOCH_DURATION == Weigh(b, now)
    ensures Weigh(b, now) <= b.usdAmount
  {
    ShareBounds(b.usdAmount, overlap, EPOCH_DURATION);
    assert b.usdAmount * overlap <= U64_MAX * EPOCH_DURATION;
  }

  /** No epoch up to the current one saturates. */
  lemma EdgesFit(epoch: int, now: int)
    requires 0 <= epoch <= EpochAt(now, EPOCH_DURATION) && 0 < now <= I64_MAX
    ensures SaturateI64(epoch * EPOCH_DURATION) == epoch * EPOCH_DURATION
    ensures epoch * EPOCH_DURATION < now - ROLLING_WINDOW_SECONDS ==>
              SaturateI64(epoch * EPOCH_DURATION + EPOCH_DURATION) == epoch * EPOCH_DURATION + EPOCH_DURATION
    ensures SaturateI64(epoch * EPOCH_DURATION + EPOCH_DURATION) <= now - ROLLING_WINDOW_SECONDS <==>
            epoch * EPOCH_DURATION + EPOCH_DURATION <= now - ROLLING_WINDOW_SECONDS
  {
  }

  lemma {:induction false} ScanBounded(buckets: seq<EpochBucket>, t: int)
    requires forall i :: 0 <= i < |buckets| ==> buckets[i].usdAmount <= U64_MAX
    ensures Scan(buckets, t) <= |buckets| * U64_MAX
  {
    if buckets != [] {
      ScanBounded(buckets[..|buckets| - 1], t);
    }
  }

  class SpendTracker {
    const buckets: array<EpochBucket>
    var lastWriteEpoch: int

    ghost predicate Valid()
      reads this, buckets
    {
      buckets.Length == NUM_EPOCHS && WellFormed(Value())
    }

    ghost function Value(): Tracker
      requires buckets.Length == NUM_EPOCHS
      reads this, buckets
    {
      Tracker(buckets[..], lastWriteEpoch)
    }

    constructor ()
      ensures Valid() && fresh(buckets) && Value() == Empty()
    {
      buckets := new EpochBucket[NUM_EPOCHS](_ => EpochBucket(0, 0));
      lastWriteEpoch := 0;
    }

    /** SpendTracker::record_spend. A failed call leaves the bucket reset but uncounted; the
        runtime then discards the account (see the AgentTransfer transaction). */
    method RecordSpend(now: int, usdAmount: nat) returns (ok: bool)
      requires Valid() && now <= I64_MAX
      modifies this`lastWriteEpoch, buckets
      ensures ok == old(Recordable(Value(), now, usdAmount))
      ensures ok ==> Value() == Recorded(old(Value()), now, usdAmount)
      ensures Valid()
    {
      if now <= 0 {
        return false;
      }
      var currentEpoch := now / EPOCH_DURATION;
      var idx := currentEpoch % NUM_EPOCHS;
      if buckets[idx].epochId != currentEpoch {
        buckets[idx] := EpochBucket(currentEpoch, 0);
      }
      if buckets[idx].usdAmount + usdAmount > U64_MAX {
        return false;
      }
      buckets[idx] := buckets[idx].(usdAmount := buckets[idx].usdAmount + usdAmount);
      lastWriteEpoch := currentEpoch;
      return true;
    }

    /** SpendTracker::get_rolling_24h_usd, with its saturating machine arithmetic. */
    method GetRolling24hUsd(now: int) returns (usd: nat)
      requires Valid() && now <= I64_MAX
      ensures usd == Reading(Value(), now)
    {
      if now <= 0 {
        return 0;
      }
      var currentEpoch := now / EPOCH_DURATION;
      if currentEpoch - lastWriteEpoch > NUM_EPOCHS {
        return 0;
      }
      var windowStart := SaturateI64(now - ROLLING_WINDOW_SECONDS);
      var total := 0;
      for i := 0 to NUM_EPOCHS
        invariant total == Scan(buckets[..i], now)
      {
        var bucket := buckets[i];
        assert buckets[..i + 1][..i] == buckets[..i];
        ScanBounded(buckets[..i], now);
        if bucket.usdAmount == 0 {
          continue;
        }
        var bucketStart := SaturateI64(bucket.epochId * EPOCH_DURATION);
        var bucketEnd := SaturateI64(bucketStart + EPOCH_DURATION);
        WindowEdges(bucket.epochId, now);
        if bucket.epochId <= currentEpoch {
          EdgesFit(bucket.epochId, now);
        }
        if bucketEnd <= windowStart || bucket.epochId > currentEpoch {
          continue;
        }
        if bucketStart >= windowStart {
          total := SaturateU128(total + bucket.usdAmount);
        } else {
          var overlap := bucketEnd - windowStart;
          OverlapShare(bucket, now, overlap);
          total := SaturateU128(total + SaturateU128(bucket.usdAmount * overlap) / EPOCH_DURATION);
        }
      }
      assert buckets[..NUM_EPOCHS] == buckets[..];
      return if total > U64_MAX then U64_MAX else total;
    }

    /** getRolling24hUsd, the client's mirror: unbounded integers and a window start that stops
        at 0. It returns the same value as the program, for every account and every clock. */
    method MirrorRolling24hUsd(now: int) returns (usd: nat)
      requires Valid()
      ensures usd == Reading(Value(), now)
    {
      if now <= 0 {
        return 0;
      }
      var currentEpoch := now / EPOCH_DURATION;
      if currentEpoch - lastWriteEpoch > NUM_EPOCHS {
        return 0;
      }
      var windowStart := if now > ROLLING_WINDOW_SECONDS then now - ROLLING_WINDOW_SECONDS else 0;
      var total := 0;
      for i := 0 to NUM_EPOCHS
        invariant total == Scan(buckets[..i], now)
      {
        var bucket := buckets[i];
        assert buckets[..i + 1][..i] == buckets[..i];
        if bucket.usdAmount == 0 {
          continue;
        }
        var bucketStart := bucket.epochId * EPOCH_DURATION;
        var bucketEnd := bucketStart + EPOCH_DURATION;
        WindowEdges(bucket.epochId, now);
        if bucketEnd <= windowStart || bucket.epochId > currentEpoch {
          continue;
        }
        if bucketStart >= windowStart {
          total := total + bucket.usdAmount;
        } else {
          var overlap := bucketEnd - windowStart;
          OverlapShare(bucket, now, overlap);
          total := total + bucket.usdAmount * overlap / EPOCH_DURATION;
        }
      }
      assert buckets[..NUM_EPOCHS] == buckets[..];
      return if total > U64_MAX then U64_MAX else total;
    }

    /** Account data as it was before a failed transaction. */
    method Restore(saved: Tracker)
      requires buckets.Length == NUM_EPOCHS
      modifies this`lastWriteEpoch, buckets
      ensures Value() == saved
    {
      forall i | 0 <= i < buckets.Length {
        buckets[i] := saved.buckets[i];
      }
      lastWriteEpoch := saved.lastWriteEpoch;
      assert buckets[..] == saved.buckets;
    }
  }
}
