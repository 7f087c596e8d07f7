/** VelocityTracker: rapid-fire detection and cooldown on top of the shield's state. */
module Velocity {
  import opened SpendLog
  import opened ShieldLog
  import S = Shield
  import R = ShieldRules

  datatype Config = Config(
    maxTxPerMinute: nat,
    maxTxPerHour: nat,
    maxUsdPerHour: nat,
    rapidFireCount: nat,
    rapidFireWindowMs: nat,
    cooldownMs: nat)

  datatype Tracker = Tracker(cooldownUntil: int, txTimestamps: seq<int>)

  const FRESH := Tracker(0, [])

  /** The clock as each of the three window queries reads it. */
  datatype Readings = Readings(minute: int, hour: int, usd: int)

  /** One call: the clock as the cooldown test reads it, as the window queries do, as the
      rapid-fire rule does, the shared shield state, and whether it is a dry run. */
  datatype Call = Query(entered: int, readings: Readings, now: int, shield: State, dryRun: bool)

  datatype Outcome = Accepted | InCooldown | Breach

  /** Rules 1 to 3b: rates, hourly spend and the synced daily cap. */
  predicate RateBreach(cfg: Config, s: State, at: Readings) {
    || TransactionCountInWindow(s, 60_000, at.minute) >= cfg.maxTxPerMinute
    || TransactionCountInWindow(s, 3_600_000, at.hour) >= cfg.maxTxPerHour
    || TotalSpendInWindow(s, 3_600_000, at.usd) >= cfg.maxUsdPerHour
    || (s.resolved.Some? && s.resolved.value.globalBudget.spent24h + s.localUsdAdditions >= s.resolved.value.globalBudget.cap)
  }

  function Recent(cfg: Config, tr: Tracker, now: int): seq<int> {
    TimesSince(tr.txTimestamps, now - cfg.rapidFireWindowMs)
  }

  function Verdict(cfg: Config, tr: Tracker, c: Call): Outcome {
    if c.entered < tr.cooldownUntil then InCooldown
    else if RateBreach(cfg, c.shield, c.readings) || |Recent(cfg, tr, c.now)| + 1 >= cfg.rapidFireCount then Breach
    else Accepted
  }

  function Checked(cfg: Config, tr: Tracker, c: Call): Tracker {
    match Verdict(cfg, tr, c)
    case InCooldown => tr
    case Breach => Tracker(c.now + cfg.cooldownMs, Recent(cfg, tr, c.now))
    case Accepted => Tracker(tr.cooldownUntil, Recent(cfg, tr, c.now) + if c.dryRun then [] else [c.now])
  }

  // ---- The rules, one by one ----

  /** Every rule that is not about the cooldown: rates over a minute and an hour, the hour's spend of
      all mints, the synced daily cap, and one more call in the rapid-fire window. */
  ghost predicate AllRulesPass(cfg: Config, tr: Tracker, c: Call) {
    && R.Sum(c.shield.txEntries, R.Once(c.readings.minute - 60_000)) < cfg.maxTxPerMinute
    && R.Sum(c.shield.txEntries, R.Once(c.readings.hour - 3_600_000)) < cfg.maxTxPerHour
    && R.Sum(c.shield.spendEntries, R.OfAny(c.readings.usd - 3_600_000)) < cfg.maxUsdPerHour
    && (c.shield.resolved.Some? ==>
          c.shield.resolved.value.globalBudget.spent24h + c.shield.localUsdAdditions < c.shield.resolved.value.globalBudget.cap)
    && R.Sum(tr.txTimestamps, R.Once(c.now - cfg.rapidFireWindowMs)) + 1 < cfg.rapidFireCount
  }

  /** A call is turned away during a cooldown, and otherwise accepted exactly when every rule passes. */
  lemma VerdictExactly(cfg: Config, tr: Tracker, c: Call)
    ensures Verdict(cfg, tr, c) == InCooldown <==> c.entered < tr.cooldownUntil
    ensures Verdict(cfg, tr, c) == Accepted <==> c.entered >= tr.cooldownUntil && AllRulesPass(cfg, tr, c)
  {
    hide TimesSince, SpendsSince, TotalOf, R.Sum;
    R.WindowCount(c.shield.txEntries, c.readings.minute - 60_000);
    R.WindowCount(c.shield.txEntries, c.readings.hour - 3_600_000);
    R.WindowSums(c.shield.spendEntries, 0, c.readings.usd - 3_600_000);
    R.WindowCount(tr.txTimestamps, c.now - cfg.rapidFireWindowMs);
  }

  // ---- Runs ----

  function After(cfg: Config, tr: Tracker, calls: seq<Call>): Tracker {
    if calls == [] then tr else Checked(cfg, After(cfg, tr, calls[..|calls| - 1]), calls[|calls| - 1])
  }

  function Outcomes(cfg: Config, tr: Tracker, calls: seq<Call>): seq<Outcome> {
    if calls == [] then []
    else
      var k := |calls| - 1;
      Outcomes(cfg, tr, calls[..k]) + [Verdict(cfg, After(cfg, tr, calls[..k]), calls[k])]
  }

  /** When the accepted calls that were not dry runs took place. */
  function AcceptedAt(cfg: Config, tr: Tracker, calls: seq<Call>): seq<int> {
    if calls == [] then []
    else
      var k := |calls| - 1;
      AcceptedAt(cfg, tr, calls[..k]) +
      if Verdict(cfg, After(cfg, tr, calls[..k]), calls[k]) == Accepted && !calls[k].dryRun then [calls[k].now] else []
  }

  /** The clock never goes back, from `start` on. */
  ghost predicate Clocked(calls: seq<Call>, start: int) {
    && (forall i :: 0 <= i < |calls| ==> start <= calls[i].entered <= calls[i].now)
    && (forall i, j :: 0 <= i < j < |calls| ==> calls[i].now <= calls[j].entered)
  }

  lemma ClockedPrefix(calls: seq<Call>, start: int)
    requires Clocked(calls, start) && calls != []
    ensures Clocked(calls[..|calls| - 1], start)
    ensures |calls| > 1 ==> calls[|calls| - 2].now <= calls[|calls| - 1].entered
    ensures start <= calls[|calls| - 1].entered <= calls[|calls| - 1].now
  {
  }

  function Most(cfg: Config): nat {
    if cfg.rapidFireCount == 0 then 0 else cfg.rapidFireCount - 1
  }

  /** The tracker remembers every acceptance that can still matter. */
  ghost predicate Remembers(cfg: Config, tr: Tracker, accepted: seq<int>, now: int) {
    && TimesSince(tr.txTimestamps, now - cfg.rapidFireWindowMs) == TimesSince(accepted, now - cfg.rapidFireWindowMs)
    && S.EveryWindowHolds(S.CountLog(accepted), cfg.rapidFireWindowMs, Most(cfg))
  }

  lemma RememberLater(cfg: Config, tr: Tracker, accepted: seq<int>, now: int, later: int)
    requires Remembers(cfg, tr, accepted, now) && now <= later
    ensures Remembers(cfg, tr, accepted, later)
  {
    SinceTwice([], tr.txTimestamps, now - cfg.rapidFireWindowMs, later - cfg.rapidFireWindowMs);
    SinceTwice([], accepted, now - cfg.rapidFireWindowMs, later - cfg.rapidFireWindowMs);
  }

  lemma AcceptanceFits(cfg: Config, accepted: seq<int>, now: int)
    requires S.EveryWindowHolds(S.CountLog(accepted), cfg.rapidFireWindowMs, Most(cfg))
    requires |TimesSince(accepted, now - cfg.rapidFireWindowMs)| + 1 < cfg.rapidFireCount
    ensures S.EveryWindowHolds(S.CountLog(accepted + [now]), cfg.rapidFireWindowMs, Most(cfg))
  {
    hide S.EveryWindowHolds;
    S.CountQuery(accepted, now - cfg.rapidFireWindowMs);
    var one := S.CountLog([now]);
    forall times: iset<int>
      ensures SpentIn(one, times) <= 1
    {
      SpentInAppend([], one[0], times);
      assert [] + [one[0]] == one;
    }
    assert S.CountLog(accepted + [now]) == S.CountLog(accepted) + one;
    S.CheckedWindow(S.CountLog(accepted), one, now, cfg.rapidFireWindowMs, Most(cfg), 1);
  }

  lemma CheckRemembers(cfg: Config, tr: Tracker, accepted: seq<int>, c: Call)
    requires Remembers(cfg, tr, accepted, c.now)
    ensures var accepted' := accepted + if Verdict(cfg, tr, c) == Accepted && !c.dryRun then [c.now] else [];
            Remembers(cfg, Checked(cfg, tr, c), accepted', c.now)
  {
    hide S.EveryWindowHolds, RateBreach, TimesSince;
    var cutoff := c.now - cfg.rapidFireWindowMs;
    var recent := TimesSince(tr.txTimestamps, cutoff);
    SinceTwice([], tr.txTimestamps, cutoff, cutoff);
    SinceAppend([], SpendEntry(0, 0, 0), recent, c.now, cutoff);
    SinceAppend([], SpendEntry(0, 0, 0), accepted, c.now, cutoff);
    assert accepted + [] == accepted && recent + [] == recent;
    if Verdict(cfg, tr, c) == Accepted && !c.dryRun {
      AcceptanceFits(cfg, accepted, c.now);
    }
  }

  lemma {:induction false} RunRemembers(cfg: Config, calls: seq<Call>, start: int, now: int)
    requires calls != [] && Clocked(calls, start) && calls[|calls| - 1].now <= now
    ensures Remembers(cfg, After(cfg, FRESH, calls), AcceptedAt(cfg, FRESH, calls), now)
  {
    hide Checked, Verdict, Remembers;
    var k := |calls| - 1;
    ClockedPrefix(calls, start);
    hide Clocked;
    var tr, accepted := After(cfg, FRESH, calls[..k]), AcceptedAt(cfg, FRESH, calls[..k]);
    if k == 0 {
      FreshRemembers(cfg, calls[k].now);
      assert calls[..0] == [];
    } else {
      RunRemembers(cfg, calls[..k], start, calls[k].now);
    }
    CheckRemembers(cfg, tr, accepted, calls[k]);
    RememberLater(cfg, After(cfg, FRESH, calls), AcceptedAt(cfg, FRESH, calls), calls[k].now, now);
  }

  lemma FreshRemembers(cfg: Config, now: int)
    ensures Remembers(cfg, FRESH, [], now)
  {
    assert S.CountLog([]) == [];
  }

  /** Any window of the rapid-fire length holds fewer than `count` accepted calls. */
  lemma RapidFireIsBounded(cfg: Config, calls: seq<Call>, start: int)
    requires Clocked(calls, start)
    ensures S.EveryWindowHolds(S.CountLog(AcceptedAt(cfg, FRESH, calls)), cfg.rapidFireWindowMs, Most(cfg))
  {
    if calls == [] {
      FreshRemembers(cfg, 0);
    } else {
      RunRemembers(cfg, calls, start, calls[|calls| - 1].now);
    }
  }

  // ---- Cooldown ----

  /** Until the cooldown ends every call is denied, and denied calls change nothing, so retries
      do not prolong it. */
  lemma {:induction false} CooldownDenies(cfg: Config, tr: Tracker, calls: seq<Call>)
    requires forall i :: 0 <= i < |calls| ==> calls[i].entered < tr.cooldownUntil
    ensures After(cfg, tr, calls) == tr
    ensures Outcomes(cfg, tr, calls) == seq(|calls|, _ => InCooldown)
  {
    hide RateBreach, TimesSince;
    if calls != [] {
      CooldownDenies(cfg, tr, calls[..|calls| - 1]);
    }
  }

  /** A breach starts a cooldown of exactly the configured length from the breaching call. */
  lemma {:induction false} BreachStartsCooldown(cfg: Config, tr: Tracker, c: Call, retries: seq<Call>)
    requires Verdict(cfg, tr, c) == Breach
    requires forall i :: 0 <= i < |retries| ==> retries[i].entered < c.now + cfg.cooldownMs
    ensures Outcomes(cfg, Checked(cfg, tr, c), retries) == seq(|retries|, _ => InCooldown)
    ensures forall next: Call :: next.entered >= c.now + cfg.cooldownMs ==>
              Verdict(cfg, After(cfg, Checked(cfg, tr, c), retries), next) != InCooldown
  {
    CooldownDenies(cfg, Checked(cfg, tr, c), retries);
  }

  // ---- Dry runs ----

  /** Two trackers that every later call treats alike. */
  ghost predicate Alike(cfg: Config, a: Tracker, b: Tracker, now: int) {
    && a.cooldownUntil == b.cooldownUntil
    && TimesSince(a.txTimestamps, now - cfg.rapidFireWindowMs) == TimesSince(b.txTimestamps, now - cfg.rapidFireWindowMs)
  }

  lemma AlikeCheck(cfg: Config, a: Tracker, b: Tracker, now: int, c: Call)
    requires Alike(cfg, a, b, now) && now <= c.now
    ensures Verdict(cfg, a, c) == Verdict(cfg, b, c)
    ensures Alike(cfg, Checked(cfg, a, c), Checked(cfg, b, c), c.now)
  {
    SinceTwice([], a.txTimestamps, now - cfg.rapidFireWindowMs, c.now - cfg.rapidFireWindowMs);
    SinceTwice([], b.txTimestamps, now - cfg.rapidFireWindowMs, c.now - cfg.rapidFireWindowMs);
    hide RateBreach;
  }

  lemma {:induction false} AlikeRuns(cfg: Config, a: Tracker, b: Tracker, now: int, calls: seq<Call>)
    requires Alike(cfg, a, b, now) && Clocked(calls, now)
    ensures Outcomes(cfg, a, calls) == Outcomes(cfg, b, calls)
    ensures Alike(cfg, After(cfg, a, calls), After(cfg, b, calls), if calls == [] then now else calls[|calls| - 1].now)
  {
    hide Verdict, Checked, Alike;
    if calls != [] {
      var k := |calls| - 1;
      ClockedPrefix(calls, now);
      hide Clocked;
      AlikeRuns(cfg, a, b, now, calls[..k]);
      AlikeCheck(cfg, After(cfg, a, calls[..k]), After(cfg, b, calls[..k]), if k == 0 then now else calls[k - 1].now, calls[k]);
    }
  }

  /** Whether a call leaves the outcome of every later call as it would have been. */
  ghost predicate Invisible(cfg: Config, tr: Tracker, c: Call) {
    forall later: seq<Call> :: Clocked(later, c.now) ==>
      Outcomes(cfg, Checked(cfg, tr, c), later) == Outcomes(cfg, tr, later)
  }

  /** A dry run on a tracker that is not cooling down, but over a rate or one short of the
      rapid-fire count: the very next call is denied for a cooldown that nothing else started. */
  lemma BreachingDryRunCoolsDown(cfg: Config, tr: Tracker, c: Call, next: Call)
    requires c.dryRun && tr.cooldownUntil <= c.entered <= c.now <= next.entered < c.now + cfg.cooldownMs
    requires RateBreach(cfg, c.shield, c.readings) || |Recent(cfg, tr, c.now)| + 1 >= cfg.rapidFireCount
    ensures Outcomes(cfg, Checked(cfg, tr, c), [next]) == [InCooldown] != Outcomes(cfg, tr, [next])
  {
    hide RateBreach, Recent;
    assert [next][..0] == [];
    assert Outcomes(cfg, Checked(cfg, tr, c), [next]) == [Verdict(cfg, Checked(cfg, tr, c), next)];
    assert Outcomes(cfg, tr, [next]) == [Verdict(cfg, tr, next)];
  }

  /** A dry run is invisible exactly when the tracker is already cooling down, or no rate is at
      its ceiling and the rapid-fire count is at least two away, or there is no cooldown to start. */
  lemma DryRunIsInvisibleExactly(cfg: Config, tr: Tracker, c: Call)
    requires c.dryRun && c.entered <= c.now
    ensures Invisible(cfg, tr, c) <==>
            || c.entered < tr.cooldownUntil
            || (!RateBreach(cfg, c.shield, c.readings) && |Recent(cfg, tr, c.now)| + 1 < cfg.rapidFireCount)
            || cfg.cooldownMs == 0
  {
    var after := Checked(cfg, tr, c);
    if Verdict(cfg, tr, c) == Breach && cfg.cooldownMs > 0 {
      var again := Query(c.now, c.readings, c.now, c.shield, true);
      assert Clocked([again], c.now);
      BreachingDryRunCoolsDown(cfg, tr, c, again);
    } else {
      var cutoff := c.now - cfg.rapidFireWindowMs;
      SinceTwice([], tr.txTimestamps, cutoff, cutoff);
      assert TimesSince(tr.txTimestamps, cutoff) + [] == TimesSince(tr.txTimestamps, cutoff);
      forall later: seq<Call> | Clocked(later, c.now)
        ensures Outcomes(cfg, after, later) == Outcomes(cfg, tr, later)
      {
        DryRunLater(cfg, tr, c, later);
      }
    }
  }

  lemma DryRunLater(cfg: Config, tr: Tracker, c: Call, later: seq<Call>)
    requires c.dryRun && c.entered <= c.now && Clocked(later, c.now)
    requires Verdict(cfg, tr, c) != Breach || cfg.cooldownMs == 0
    ensures Outcomes(cfg, Checked(cfg, tr, c), later) == Outcomes(cfg, tr, later)
  {
    var after, cutoff := Checked(cfg, tr, c), c.now - cfg.rapidFireWindowMs;
    SinceTwice([], tr.txTimestamps, cutoff, cutoff);
    assert TimesSince(tr.txTimestamps, cutoff) + [] == TimesSince(tr.txTimestamps, cutoff);
    if after.cooldownUntil == tr.cooldownUntil {
      assert Alike(cfg, after, tr, c.now);
      AlikeRuns(cfg, after, tr, c.now, later);
    } else {
      // A breach without cooldown: neither cooldown is running for any later call.
      var past := Tracker(tr.cooldownUntil, after.txTimestamps);
      AlikeRuns(cfg, past, tr, c.now, later);
      PastCooldown(cfg, past, after, c.now, later);
    }
  }

  lemma {:induction false} PastCooldown(cfg: Config, a: Tracker, b: Tracker, now: int, calls: seq<Call>)
    requires a.txTimestamps == b.txTimestamps && a.cooldownUntil <= now && b.cooldownUntil <= now
    requires Clocked(calls, now)
    ensures Outcomes(cfg, a, calls) == Outcomes(cfg, b, calls)
    ensures var x, y := After(cfg, a, calls), After(cfg, b, calls);
            x.txTimestamps == y.txTimestamps &&
            (x.cooldownUntil == y.cooldownUntil || (x.cooldownUntil <= now && y.cooldownUntil <= now))
  {
    hide RateBreach, TimesSince;
    if calls != [] {
      ClockedPrefix(calls, now);
      PastCooldown(cfg, a, b, now, calls[..|calls| - 1]);
    }
  }

  // ---- The object ----

  class VelocityTracker {
    const config: Config
    const state: ShieldState
    var cooldownUntil: int
    var txTimestamps: seq<int>

    ghost function Value(): Tracker
      reads this
    {
      Tracker(cooldownUntil, txTimestamps)
    }

    constructor (state: ShieldState, config: Config)
      ensures this.state == state && this.config == config && Value() == FRESH
    {
      this.state, this.config := state, config;
      cooldownUntil, txTimestamps := 0, [];
    }

    method Check(entered: int, at: Readings, now: int, dryRun: bool) returns (outcome: Outcome)
      modifies this
      ensures var c := Query(entered, at, now, state.Value(), dryRun);
              outcome == Verdict(config, old(Value()), c) && Value() == Checked(config, old(Value()), c)
      ensures var c := Query(entered, at, now, state.Value(), dryRun);
              && (outcome == InCooldown <==> entered < old(cooldownUntil))
              && (outcome == Accepted <==> entered >= old(cooldownUntil) && AllRulesPass(config, old(Value()), c))
      ensures cooldownUntil == if outcome == Breach then now + config.cooldownMs else old(cooldownUntil)
    {
      VerdictExactly(config, Value(), Query(entered, at, now, state.Value(), dryRun));
      hide AllRulesPass;
      if entered < cooldownUntil {
        return InCooldown;
      }
      var violations := 0;
      if |TimesSince(state.txEntries, at.minute - 60_000)| >= config.maxTxPerMinute {
        violations := violations + 1;
      }
      if |TimesSince(state.txEntries, at.hour - 3_600_000)| >= config.maxTxPerHour {
        violations := violations + 1;
      }
      if TotalOf(SpendsSince(state.spendEntries, at.usd - 3_600_000)) >= config.maxUsdPerHour {
        violations := violations + 1;
      }
      if state.resolved.Some?
         && state.resolved.value.globalBudget.spent24h + state.localUsdAdditions >= state.resolved.value.globalBudget.cap {
        violations := violations + 1;
      }
      txTimestamps := TimesSince(txTimestamps, now - config.rapidFireWindowMs);
      var wouldBeCount := |txTimestamps| + 1;
      if wouldBeCount >= config.rapidFireCount {
        violations := violations + 1;
      }
      if violations > 0 {
        cooldownUntil := now + config.cooldownMs;
        return Breach;
      }
      if !dryRun {
        txTimestamps := txTimestamps + [now];
      }
      return Accepted;
    }

    method Reset()
      modifies this
      ensures Value() == FRESH
    {
      cooldownUntil, txTimestamps := 0, [];
    }
  }
}
