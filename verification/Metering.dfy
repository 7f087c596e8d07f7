/** Rolling-window metering, independent of how a meter stores its data.
    Time is cut into epochs of `d` seconds; a meter remembers `n` of them. `Metered` is what
    both on-chain readers report (see SpendTracker and AgentOverlay), as a function of the full
    history; here is what admitting spends against that reading guarantees. */
module Metering {
  import opened SpendLog

  function EpochAt(t: int, d: int): int
    requires d > 0
  {
    t / d
  }

  /** All instants of the epochs `first` to `last`. */
  ghost function Epochs(first: int, last: int, d: int): iset<int>
    requires d > 0
  {
    iset t: int | first <= EpochAt(t, d) <= last
  }

  lemma EpochBounds(t: int, d: int)
    requires d > 0
    ensures EpochAt(t, d) * d <= t < EpochAt(t, d) * d + d
  {
  }

  lemma EpochMonotone(a: int, b: int, d: int)
    requires d > 0 && a <= b
    ensures EpochAt(a, d) <= EpochAt(b, d)
  {
    EpochBounds(a, d);
    EpochBounds(b, d);
    MultipleOrder(EpochAt(b, d) + 1, EpochAt(a, d), d);
  }

  lemma MultipleOrder(a: int, b: int, d: int)
    requires d > 0
    ensures a <= b <==> a * d <= b * d
  {
    if a <= b {
      assert (b - a) * d >= 0;
    } else {
      assert (a - b) * d > 0;
    }
  }

  /** What an amount counts for when its epoch is partly out of the window: the share of the
      epoch's seconds that are still in it, rounded down. */
  function Share(usd: nat, d: int, t: int): (share: nat)
    requires d > 0
    ensures share <= usd
    ensures t % d == 0 ==> share == usd
  {
    ShareBounds(usd, d - t % d, d);
    usd * (d - t % d) / d
  }

  lemma ShareBounds(usd: nat, overlap: int, d: int)
    requires 0 < overlap <= d
    ensures 0 <= usd * overlap / d <= usd
    ensures overlap == d ==> usd * overlap / d == usd
  {
    assert 0 <= usd * overlap <= usd * d;
    QuotientBounds(usd * overlap, usd, d);
  }

  lemma QuotientBounds(x: int, q: int, d: int)
    requires d > 0 && 0 <= x <= q * d
    ensures 0 <= x / d <= q
    ensures x == q * d ==> x / d == q
  {
    EpochBounds(x, d);
    MultipleOrder(q + 1, x / d, d);
    MultipleOrder(x / d + 1, 0, d);
    MultipleOrder(x / d + 1, q, d);
  }

  ghost function EpochSpend(log: seq<Spend>, d: int, e: int): nat
    requires d > 0
  {
    SpentIn(log, Epochs(e, e, d))
  }

  /** The epoch of the latest spend; a zero-initialised account says 0. */
  ghost function LastEpoch(log: seq<Spend>, d: int): int
    requires d > 0
  {
    if log == [] then 0 else EpochAt(log[|log| - 1].time, d)
  }

  /** The share of the epoch before the last `n` that is still inside the window. It is lost as
      soon as something is recorded in the current epoch, because both use the same slot. */
  ghost function BoundaryShare(log: seq<Spend>, d: int, n: int, t: int): nat
    requires d > 0
  {
    var c := EpochAt(t, d);
    if LastEpoch(log, d) == c then 0 else Share(EpochSpend(log, d, c - n), d, t)
  }

  /** The reading at time `t`: everything spent in the last `n` epochs, plus the boundary share. */
  ghost function Metered(log: seq<Spend>, d: int, n: int, t: int): nat
    requires d > 0
  {
    var c := EpochAt(t, d);
    SpentIn(log, Epochs(c - n + 1, c, d)) + BoundaryShare(log, d, n, t)
  }

  function Min(a: nat, b: nat): nat {
    if a <= b then a else b
  }

  /** Spend i was admitted under cap i: the clamped reading before it, plus itself, fits. */
  ghost predicate Admitted(log: seq<Spend>, caps: seq<nat>, d: int, n: int)
    requires d > 0
  {
    && |caps| == |log|
    && (log == [] ||
        var k := |log| - 1;
        && Admitted(log[..k], caps[..k], d, n)
        && caps[k] <= U64_MAX
        && Min(Metered(log[..k], d, n, log[k].time), U64_MAX) + log[k].usd <= caps[k])
  }

  /** The cap in force at the latest spend made at an instant of `times`; 0 without one. */
  ghost function CapInForce(log: seq<Spend>, caps: seq<nat>, times: iset<int>): nat
    requires |caps| == |log|
  {
    if log == [] then 0
    else if log[|log| - 1].time in times then caps[|caps| - 1]
    else CapInForce(log[..|log| - 1], caps[..|caps| - 1], times)
  }

  lemma {:induction false} CapInForceBounded(log: seq<Spend>, caps: seq<nat>, times: iset<int>, bound: nat)
    requires |caps| == |log|
    requires forall i :: 0 <= i < |caps| ==> caps[i] <= bound
    ensures CapInForce(log, caps, times) <= bound
  {
    if log != [] {
      CapInForceBounded(log[..|log| - 1], caps[..|caps| - 1], times, bound);
    }
  }

  lemma {:induction false} AdmittedCapsAreU64(log: seq<Spend>, caps: seq<nat>, d: int, n: int, times: iset<int>)
    requires d > 0 && Admitted(log, caps, d, n)
    ensures CapInForce(log, caps, times) <= U64_MAX
  {
    if log != [] {
      AdmittedCapsAreU64(log[..|log| - 1], caps[..|log| - 1], d, n, times);
    }
  }

  /** Windows that end after the latest spend hold no more than the window ending with it. */
  lemma LatestWindowIsFullest(log: seq<Spend>, d: int, n: int, w: int, t: int)
    requires d > 0
    requires forall i :: 0 <= i < |log| ==> log[i].time <= t
    requires EpochAt(t, d) <= w
    ensures SpentIn(log, Epochs(w - n + 1, w, d)) <= SpentIn(log, Epochs(EpochAt(t, d) - n + 1, EpochAt(t, d), d))
  {
    var c := EpochAt(t, d);
    forall i | 0 <= i < |log| && log[i].time in Epochs(w - n + 1, w, d)
      ensures log[i].time in Epochs(c - n + 1, c, d)
    {
      EpochMonotone(log[i].time, t, d);
    }
    SpentInMonotone(log, Epochs(w - n + 1, w, d), Epochs(c - n + 1, c, d));
  }

  /** One admitted spend: with it, no window of `n` epochs around it exceeds its cap. */
  lemma AdmittedSpendFits(log: seq<Spend>, s: Spend, cap: nat, d: int, n: int, w: int)
    requires d > 0 && cap <= U64_MAX
    requires forall i :: 0 <= i < |log| ==> log[i].time <= s.time
    requires Min(Metered(log, d, n, s.time), U64_MAX) + s.usd <= cap
    requires SpentIn(log, Epochs(EpochAt(s.time, d) - n + 1, EpochAt(s.time, d), d)) <= U64_MAX
    requires s.time in Epochs(w - n + 1, w, d)
    ensures SpentIn(log, Epochs(w - n + 1, w, d)) + s.usd <= cap
  {
    LatestWindowIsFullest(log, d, n, w, s.time);
  }

  /** The sliding bound, across cap changes: what any `n` consecutive epochs hold never exceeds
      the cap that was in force at the latest spend among them. */
  lemma {:induction false} WindowWithinCap(log: seq<Spend>, caps: seq<nat>, d: int, n: int, w: int)
    requires d > 0 && WellTimed(log) && Admitted(log, caps, d, n)
    ensures SpentIn(log, Epochs(w - n + 1, w, d)) <= CapInForce(log, caps, Epochs(w - n + 1, w, d))
    decreases |log|
  {
    if log != [] {
      var k := |log| - 1;
      var prefix, s, window := log[..k], log[k], Epochs(w - n + 1, w, d);
      WellTimedPrefix(log);
      if s.time !in window {
        WindowWithinCap(prefix, caps[..k], d, n, w);
      } else {
        var c := EpochAt(s.time, d);
        WindowWithinCap(prefix, caps[..k], d, n, c);
        AdmittedCapsAreU64(prefix, caps[..k], d, n, Epochs(c - n + 1, c, d));
        AdmittedSpendFits(prefix, s, caps[k], d, n, w);
      }
    }
  }

  /** As Admitted, where a limit of 0 means that the spend was not checked. */
  ghost predicate AdmittedIfLimited(log: seq<Spend>, limits: seq<nat>, d: int, n: int)
    requires d > 0
  {
    && |limits| == |log|
    && (log == [] ||
        var k := |log| - 1;
        && AdmittedIfLimited(log[..k], limits[..k], d, n)
        && limits[k] <= U64_MAX
        && (limits[k] > 0 ==> Min(Metered(log[..k], d, n, log[k].time), U64_MAX) + log[k].usd <= limits[k]))
  }

  ghost function SpentUpTo(log: seq<Spend>, d: int, n: int, w: int): nat
    requires d > 0
  {
    SpentIn(log, Epochs(w - n + 1, w, d))
  }

  /** No window of `n` epochs holds more than the clamp lets a reading show. */
  ghost predicate WindowsFit64(log: seq<Spend>, d: int, n: int)
    requires d > 0
  {
    forall w: int :: SpentUpTo(log, d, n, w) <= U64_MAX
  }

  /** The sliding bound where only some spends were checked: a window whose latest spend was
      checked is within the limit of that spend, unchecked spends included. */
  lemma {:induction false} LimitedWindow(log: seq<Spend>, limits: seq<nat>, d: int, n: int, w: int)
    requires d > 0 && WellTimed(log) && AdmittedIfLimited(log, limits, d, n) && WindowsFit64(log, d, n)
    ensures var window := Epochs(w - n + 1, w, d);
            CapInForce(log, limits, window) > 0 ==> SpentIn(log, window) <= CapInForce(log, limits, window)
    decreases |log|
  {
    if log != [] {
      var k := |log| - 1;
      var prefix, s, window := log[..k], log[k], Epochs(w - n + 1, w, d);
      WellTimedPrefix(log);
      forall v: int
        ensures SpentUpTo(prefix, d, n, v) <= U64_MAX
      {
        assert SpentUpTo(log, d, n, v) <= U64_MAX;
      }
      if s.time !in window {
        LimitedWindow(prefix, limits[..k], d, n, w);
      } else if limits[k] > 0 {
        assert SpentUpTo(prefix, d, n, EpochAt(s.time, d)) <= U64_MAX;
        AdmittedSpendFits(prefix, s, limits[k], d, n, w);
      }
    }
  }

  /** Same cap throughout. */
  ghost predicate AdmittedUnder(log: seq<Spend>, cap: nat, d: int, n: int)
    requires d > 0
  {
    Admitted(log, seq(|log|, _ => cap), d, n)
  }

  ghost function SpentWithin(log: seq<Spend>, first: int, span: int): nat {
    SpentIn(log, Interval(first, first + span))
  }

  /** Every run of the meter keeps what any `span` seconds hold within the cap. */
  ghost predicate SpanIsCapped(d: int, n: int, span: int)
    requires d > 0
  {
    forall log: seq<Spend>, cap: nat, first: int ::
      WellTimed(log) && AdmittedUnder(log, cap, d, n) ==> SpentWithin(log, first, span) <= cap
  }

  /** How long a window the meter really caps, in seconds: exactly the spans up to
      (n - 1) * d. The 144 ten-minute buckets cap every 85800 s, not every 86400 s; the 24
      hourly ones every 82800 s. */
  lemma CappedSpans(d: int, n: int, span: int)
    requires d > 0 && n > 0
    ensures SpanIsCapped(d, n, span) <==> span <= (n - 1) * d
  {
    if span <= (n - 1) * d {
      forall log: seq<Spend>, cap: nat, first: int | WellTimed(log) && AdmittedUnder(log, cap, d, n)
        ensures SpentWithin(log, first, span) <= cap
      {
        ShortSpanWithinCap(log, seq(|log|, _ => cap), cap, d, n, first, span);
      }
    } else {
      OverrunIsAdmitted(d, n, 0);
      OverrunTotal(d, n, 0, span);
    }
  }

  /** Spans up to (n - 1) * d seconds, when no cap was above `cap`. */
  lemma ShortSpanWithinCap(log: seq<Spend>, caps: seq<nat>, cap: nat, d: int, n: int, first: int, span: int)
    requires d > 0 && WellTimed(log) && Admitted(log, caps, d, n)
    requires forall i :: 0 <= i < |caps| ==> caps[i] <= cap
    requires span <= (n - 1) * d
    ensures SpentWithin(log, first, span) <= cap
  {
    var w := EpochAt(first + span, d);
    WindowWithinCap(log, caps, d, n, w);
    CapInForceBounded(log, caps, Epochs(w - n + 1, w, d), cap);
    forall i | 0 <= i < |log| && log[i].time in Interval(first, first + span)
      ensures log[i].time in Epochs(w - n + 1, w, d)
    {
      NearbyEpochs(log[i].time, first + span, d, n);
    }
    SpentInMonotone(log, Interval(first, first + span), Epochs(w - n + 1, w, d));
  }

  lemma NearbyEpochs(a: int, b: int, d: int, n: int)
    requires d > 0 && a <= b <= a + (n - 1) * d
    ensures EpochAt(b, d) - n + 1 <= EpochAt(a, d) <= EpochAt(b, d)
  {
    EpochMonotone(a, b, d);
    EpochMonotone(b, a + (n - 1) * d, d);
    WholeEpochsLater(a, n - 1, d);
  }

  lemma WholeEpochsLater(a: int, k: int, d: int)
    requires d > 0
    ensures EpochAt(a + k * d, d) == EpochAt(a, d) + k
  {
    var x, q := a + k * d, EpochAt(a, d) + k;
    EpochBounds(a, d);
    EpochBounds(x, d);
    assert q * d == EpochAt(a, d) * d + k * d;
    assert (q + 1) * d == q * d + d && (EpochAt(x, d) + 1) * d == EpochAt(x, d) * d + d;
    MultipleOrder(q + 1, EpochAt(x, d), d);
    MultipleOrder(EpochAt(x, d) + 1, q, d);
  }

  lemma DistributeLeft(a: int, b: int, d: int)
    ensures (a - b) * d == a * d - b * d
  {
  }

  /** Spends under a cap of 10 that pack 19 into (n - 1) * d + 1 seconds, `start` epochs on: 9 in
      the last second of epoch start + 1, then 1 and 9 in the first second of epoch
      start + n + 1. The second spend takes over the slot that held the first. */
  ghost function Overrun(d: int, n: int, start: nat): seq<Spend> {
    [Spend(OverrunStart(d, start), 9), Spend(OverrunEnd(d, n, start), 1), Spend(OverrunEnd(d, n, start), 9)]
  }

  function OverrunStart(d: int, start: nat): int {
    (start + 2) * d - 1
  }

  function OverrunEnd(d: int, n: int, start: nat): int {
    (start + n + 1) * d
  }

  lemma OverrunTimes(d: int, n: int, start: nat)
    requires d > 0 && n > 0
    ensures EpochAt(OverrunStart(d, start), d) == start + 1
    ensures EpochAt(OverrunEnd(d, n, start), d) == start + n + 1 && OverrunEnd(d, n, start) % d == 0
    ensures 0 < OverrunStart(d, start) < OverrunEnd(d, n, start)
    ensures OverrunEnd(d, n, start) - OverrunStart(d, start) == (n - 1) * d + 1
  {
    WholeEpochsLater(0, start + n + 1, d);
    WholeEpochsLater(d - 1, start + 1, d);
    FirstEpoch(d);
    hide EpochAt;
    EpochBounds(OverrunEnd(d, n, start), d);
    DistributeLeft(start + 2, 1, d);
    DistributeLeft(start + n + 1, start + 2, d);
    MultipleOrder(start + 2, start + n + 1, d);
    MultipleOrder(1, start + 2, d);
  }

  lemma FirstEpoch(d: int)
    requires d > 0
    ensures EpochAt(0, d) == 0 && EpochAt(d - 1, d) == 0
  {
  }

  lemma OverrunReadings(d: int, n: int, start: nat)
    requires d > 0 && n > 0
    ensures var log, t, u := Overrun(d, n, start), OverrunStart(d, start), OverrunEnd(d, n, start);
            && Metered([], d, n, t) == 0
            && Metered([log[0]], d, n, u) == 9
            && Metered([log[0]] + [log[1]], d, n, u) == 1
  {
    OverrunTimes(d, n, start);
    hide OverrunStart, OverrunEnd;
    var log, c := Overrun(d, n, start), start + n + 1;
    var last, boundary := Epochs(c - n + 1, c, d), Epochs(c - n, c - n, d);
    NothingSpentIn([], Epochs(start + 1 - n + 1, start + 1, d));
    NothingSpentIn([], Epochs(start + 1 - n, start + 1 - n, d));
    assert [] + [log[0]] == [log[0]];
    SpentInAppend([], log[0], last);
    SpentInAppend([], log[0], boundary);
    SpentInAppend([log[0]], log[1], last);
  }

  lemma OverrunIsAdmitted(d: int, n: int, start: nat)
    requires d > 0 && n > 0
    ensures WellTimed(Overrun(d, n, start)) && AdmittedUnder(Overrun(d, n, start), 10, d, n)
  {
    OverrunTimes(d, n, start);
    OverrunReadings(d, n, start);
    hide Metered, OverrunStart, OverrunEnd;
    var log := Overrun(d, n, start);
    var one, two, caps := [log[0]], [log[0]] + [log[1]], seq(3, _ => 10 as nat);
    assert log[..2] == two && two[..1] == one && one[..0] == [];
    assert caps[..2][..1][..0] == [];
    assert Admitted(one, caps[..2][..1], d, n);
    assert Admitted(two, caps[..2], d, n);
    assert caps == seq(|log|, _ => 10 as nat);
  }

  lemma OverrunTotal(d: int, n: int, start: nat, span: int)
    requires d > 0 && n > 0 && span > (n - 1) * d
    ensures SpentWithin(Overrun(d, n, start), OverrunStart(d, start), span) == 19
  {
    OverrunTimes(d, n, start);
    hide OverrunStart, OverrunEnd;
    var log, t := Overrun(d, n, start), OverrunStart(d, start);
    var window := Interval(t, t + span);
    assert log[..2] == [log[0], log[1]] && log[..2][..1] == [log[0]] && log[..1] == [log[0]];
    assert SpentIn(log[..2][..1], window) == 9;
    assert SpentIn(log[..2], window) == 10;
  }
}
