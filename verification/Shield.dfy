/** The shield context: enforce() and shielded signers over one shared state, in any order. A
    signer suspends once, at its simulation; everything after that runs without a break. */
module Shield {
  import opened Common
  import opened SpendLog
  import opened ShieldLog

  datatype TokenTransfer = TokenTransfer(mint: Option<Key>, amount: nat, source: Key, destination: Key, authority: Key)

  datatype SpendLimit = SpendLimit(mint: Key, amount: nat, windowMs: nat)
  datatype RateLimit = RateLimit(maxTransactions: nat, windowMs: nat)

  /** Policies, the network of the context's own sync (if configured), and each network's
      stablecoin mints. Unknown programs are blocked only when there is a list of known ones. */
  datatype Config = Config(
    spendLimits: seq<SpendLimit>,
    rateLimit: Option<RateLimit>,
    allowedPrograms: Option<set<Key>>,
    systemPrograms: set<Key>,
    syncNetwork: Option<Network>,
    stablecoins: map<Network, set<Key>>)

  function Stablecoins(cfg: Config, n: Network): set<Key> {
    if n in cfg.stablecoins then cfg.stablecoins[n] else {}
  }

  // ---- Sums over one transaction ----

  function Outgoing(transfers: seq<TokenTransfer>, signer: Key): seq<TokenTransfer> {
    if transfers == [] then []
    else
      var last := transfers[|transfers| - 1];
      Outgoing(transfers[..|transfers| - 1], signer) + if last.authority == signer then [last] else []
  }

  function TxSpend(out: seq<TokenTransfer>, mint: Key): nat {
    if out == [] then 0
    else
      var last := out[|out| - 1];
      TxSpend(out[..|out| - 1], mint) + if last.mint == Some(mint) || last.mint == None then last.amount else 0
  }

  function StablecoinUsd(out: seq<TokenTransfer>, stable: set<Key>): nat {
    if out == [] then 0
    else
      var last := out[|out| - 1];
      StablecoinUsd(out[..|out| - 1], stable) + if last.mint.Some? && last.mint.value in stable then last.amount else 0
  }

  // ---- Evaluation ----

  predicate WithinLimit(s: State, out: seq<TokenTransfer>, limit: SpendLimit, now: int) {
    SpendInWindow(s, limit.mint, limit.windowMs, now) + TxSpend(out, limit.mint) <= limit.amount
  }

  predicate WithinRate(s: State, rate: Option<RateLimit>, now: int) {
    rate.Some? ==> TransactionCountInWindow(s, rate.value.windowMs, now) < rate.value.maxTransactions
  }

  function EffectiveNetwork(cfg: Config, s: State): Option<Network> {
    if cfg.syncNetwork.Some? then cfg.syncNetwork else s.network
  }

  predicate WithinBudget(b: Budget, local: nat, usd: nat) {
    b.spent24h + local + usd <= b.cap
  }

  /** The on-chain caps, checked only when something is synced and some stablecoin leaves. */
  predicate WithinOnChainCaps(s: State, usd: nat) {
    s.resolved.Some? && usd > 0 ==>
      && usd <= s.resolved.value.maxTransactionUsd
      && WithinBudget(s.resolved.value.globalBudget, s.localUsdAdditions, usd)
      && (s.resolved.value.agentBudget.Some? ==>
            WithinBudget(s.resolved.value.agentBudget.value, s.localUsdAdditions, usd))
  }

  /** The rule on programs: each is a system program or on the list, if there is one. */
  predicate ProgramsAllowed(cfg: Config, programs: seq<Key>) {
    cfg.allowedPrograms.Some? ==>
      forall i :: 0 <= i < |programs| ==> programs[i] in cfg.systemPrograms || programs[i] in cfg.allowedPrograms.value
  }

  /** The rules on amounts and rates; every query reads the clock for itself. */
  predicate Approves(cfg: Config, s: State, out: seq<TokenTransfer>, looks: seq<int>)
    requires |looks| == |cfg.spendLimits| + 1
  {
    && (forall i :: 0 <= i < |cfg.spendLimits| ==> WithinLimit(s, out, cfg.spendLimits[i], looks[i]))
    && WithinRate(s, cfg.rateLimit, looks[|cfg.spendLimits|])
    && (EffectiveNetwork(cfg, s).Some? ==>
          WithinOnChainCaps(s, StablecoinUsd(out, Stablecoins(cfg, EffectiveNetwork(cfg, s).value))))
  }

  // ---- Recording ----

  /** The three clock readings of one record call: its entry, and the cutoffs of its pruning. */
  datatype Tick = Tick(now: int, cut: int, prune: int)

  function Keep(s: State, t: Tick, pruning: bool): State {
    if pruning then Pruned(s, t.cut, t.prune) else s
  }

  function RecordSpends(s: State, out: seq<TokenTransfer>, ticks: seq<Tick>, pruning: bool): State
    requires |ticks| >= |out|
  {
    if out == [] then s
    else
      var k := |out| - 1;
      Keep(WithSpend(RecordSpends(s, out[..k], ticks, pruning), out[k].mint.GetOr(DEFAULT_KEY), out[k].amount, ticks[k].now),
           ticks[k], pruning)
  }

  /** Each outgoing transfer, then the transaction. */
  function RecordAll(s: State, out: seq<TokenTransfer>, ticks: seq<Tick>, pruning: bool): State
    requires |ticks| == |out| + 1
  {
    Keep(WithTransaction(RecordSpends(s, out, ticks, pruning), ticks[|out|].now), ticks[|out|], pruning)
  }

  function AddUsd(s: State, usd: nat): State {
    s.(localUsdAdditions := s.localUsdAdditions + usd)
  }

  /** enforce() books stablecoins of the configured network, a signer those of the state's. */
  function BookUsd(cfg: Config, s: State, out: seq<TokenTransfer>, onNetwork: Option<Network>): State {
    if s.resolved.Some? && onNetwork.Some? then AddUsd(s, StablecoinUsd(out, Stablecoins(cfg, onNetwork.value))) else s
  }

  // ---- The machine ----

  datatype Context = Context(state: State, inFlight: map<nat, seq<TokenTransfer>>, paused: bool)

  datatype Event =
    | Enforce(out: seq<TokenTransfer>, now: int, looks: seq<int>, ticks: seq<Tick>, otherRulesPass: bool)
    | SignStart(id: nat, out: seq<TokenTransfer>, now: int, ceilingsPass: bool)
    | SignFinish(id: nat, now: int, looks: seq<int>, ticks: seq<Tick>, simulationAndOtherRulesPass: bool)
    | ContextSync(resolved: Resolved, now: int)
    | DirectSync(resolved: Resolved, onNetwork: Option<Network>, now: int)
    | SetPaused(paused: bool, now: int)

  /** One clock reading per query, and one pair per record call. */
  predicate Timed(cfg: Config, out: seq<TokenTransfer>, looks: seq<int>, ticks: seq<Tick>) {
    |looks| == |cfg.spendLimits| + 1 && |ticks| == |out| + 1
  }

  /** The transfers an event records, if it records any. */
  function Recorded(cfg: Config, c: Context, ev: Event): Option<seq<TokenTransfer>> {
    match ev
    case Enforce(out, _, looks, ticks, pass) =>
      if !c.paused && pass && Timed(cfg, out, looks, ticks) && Approves(cfg, c.state, out, looks) then Some(out) else None
    case SignFinish(id, _, looks, ticks, pass) =>
      if id in c.inFlight && !c.paused && pass && Timed(cfg, c.inFlight[id], looks, ticks)
         && Approves(cfg, c.state, c.inFlight[id], looks) then Some(c.inFlight[id]) else None
    case _ => None
  }

  function Step(cfg: Config, c: Context, ev: Event, pruning: bool): Context {
    var out := Recorded(cfg, c, ev);
    match ev
    case Enforce(_, _, _, ticks, _) =>
      if out.None? then c
      else c.(state := BookUsd(cfg, RecordAll(c.state, out.value, ticks, pruning), out.value, cfg.syncNetwork).(enforceUsed := true))
    case SignStart(id, tx, _, pass) => if pass then c.(inFlight := c.inFlight[id := tx]) else c
    case SignFinish(id, _, _, ticks, _) =>
      var c' := c.(inFlight := c.inFlight - {id});
      if out.None? then c'
      else c'.(state := BookUsd(cfg, RecordAll(c.state, out.value, ticks, pruning), out.value, c.state.network))
    case ContextSync(resolved, _) =>
      if cfg.syncNetwork.None? then c
      else c.(state := c.state.(resolved := Some(resolved), localUsdAdditions := 0, network := cfg.syncNetwork))
    case DirectSync(resolved, onNetwork, _) =>
      c.(state := c.state.(resolved := Some(resolved), localUsdAdditions := 0,
                           network := if onNetwork.Some? then onNetwork else c.state.network))
    case SetPaused(paused, _) => c.(paused := paused)
  }

  const START := Context(EMPTY, map[], false)

  function Run(cfg: Config, events: seq<Event>, pruning: bool): Context {
    if events == [] then START else Step(cfg, Run(cfg, events[..|events| - 1], pruning), events[|events| - 1], pruning)
  }

  /** The clock never goes back: check, then each record call, then the next event. */
  ghost predicate Ticking(now: int, ticks: seq<Tick>) {
    && (forall i :: 0 <= i < |ticks| ==> now <= ticks[i].now <= ticks[i].cut <= ticks[i].prune)
    && (forall i, j :: 0 <= i < j < |ticks| ==> ticks[i].prune <= ticks[j].now)
  }

  /** The queries read the clock after the call began and before it records. */
  ghost predicate LooksBetween(now: int, looks: seq<int>, ticks: seq<Tick>) {
    && (forall i :: 0 <= i < |looks| ==> now <= looks[i])
    && (forall i, j :: 0 <= i < |looks| && 0 <= j < |ticks| ==> looks[i] <= ticks[j].now)
  }

  function TicksOf(ev: Event): seq<Tick> {
    match ev
    case Enforce(_, _, _, ticks, _) => ticks
    case SignFinish(_, _, _, ticks, _) => ticks
    case _ => []
  }

  function LooksOf(ev: Event): seq<int> {
    match ev
    case Enforce(_, _, looks, _, _) => looks
    case SignFinish(_, _, looks, _, _) => looks
    case _ => []
  }

  function EndOf(ev: Event): int {
    if TicksOf(ev) == [] then ev.now else TicksOf(ev)[|TicksOf(ev)| - 1].prune
  }

  ghost predicate Clocked(events: seq<Event>) {
    && (forall i :: 0 <= i < |events| ==> Ticking(events[i].now, TicksOf(events[i])))
    && (forall i :: 0 <= i < |events| ==> LooksBetween(events[i].now, LooksOf(events[i]), TicksOf(events[i])))
    && (forall i, j :: 0 <= i < j < |events| ==> EndOf(events[i]) <= events[j].now)
  }

  /** Windows of at most a day: what the state's pruning supports. */
  ghost predicate DayWindows(cfg: Config) {
    && (forall i :: 0 <= i < |cfg.spendLimits| ==> cfg.spendLimits[i].windowMs <= DAY_MS)
    && (cfg.rateLimit.Some? ==> cfg.rateLimit.value.windowMs <= DAY_MS)
  }

  // ---- The real context decides as one that never discards ----

  ghost predicate ContextsAlike(a: Context, b: Context, horizon: int) {
    Alike(a.state, b.state, horizon) && a.inFlight == b.inFlight && a.paused == b.paused
  }

  lemma SameVerdict(cfg: Config, s: State, full: State, out: seq<TokenTransfer>, now: int, looks: seq<int>)
    requires DayWindows(cfg) && Alike(s, full, now - DAY_MS)
    requires |looks| == |cfg.spendLimits| + 1 && forall i :: 0 <= i < |looks| ==> now <= looks[i]
    ensures Approves(cfg, s, out, looks) == Approves(cfg, full, out, looks)
  {
    forall i | 0 <= i < |cfg.spendLimits|
      ensures WithinLimit(s, out, cfg.spendLimits[i], looks[i]) == WithinLimit(full, out, cfg.spendLimits[i], looks[i])
    {
      QueriesAgree(s, full, now - DAY_MS, cfg.spendLimits[i].mint, cfg.spendLimits[i].windowMs, looks[i]);
    }
    if cfg.rateLimit.Some? {
      QueriesAgree(s, full, now - DAY_MS, 0, cfg.rateLimit.value.windowMs, looks[|cfg.spendLimits|]);
    }
    hide SpendInWindow, TransactionCountInWindow;
  }

  lemma {:induction false} RecordedSpendsAlike(s: State, full: State, out: seq<TokenTransfer>, ticks: seq<Tick>, now: int)
    requires |ticks| >= |out| && Ticking(now, ticks) && Alike(s, full, now - DAY_MS)
    ensures var end := if out == [] then now else ticks[|out| - 1].prune;
            Alike(RecordSpends(s, out, ticks, true), RecordSpends(full, out, ticks, false), end - DAY_MS)
  {
    hide Alike, Pruned, WithSpend;
    if out != [] {
      var k := |out| - 1;
      RecordedSpendsAlike(s, full, out[..k], ticks, now);
      var a, b := RecordSpends(s, out[..k], ticks, true), RecordSpends(full, out[..k], ticks, false);
      var before := if k == 0 then now else ticks[k - 1].prune;
      AlikeLater(a, b, before - DAY_MS, ticks[k].prune - DAY_MS);
      RecordedIsAlike(a, b, out[k].mint.GetOr(DEFAULT_KEY), out[k].amount, ticks[k].now, ticks[k].cut, ticks[k].prune);
    }
  }

  lemma RecordedAllAlike(s: State, full: State, out: seq<TokenTransfer>, ticks: seq<Tick>, now: int)
    requires |ticks| == |out| + 1 && Ticking(now, ticks) && Alike(s, full, now - DAY_MS)
    ensures Alike(RecordAll(s, out, ticks, true), RecordAll(full, out, ticks, false), ticks[|out|].prune - DAY_MS)
  {
    hide Alike, Pruned, WithTransaction, RecordSpends;
    RecordedSpendsAlike(s, full, out, ticks, now);
    var a, b, k := RecordSpends(s, out, ticks, true), RecordSpends(full, out, ticks, false), |out|;
    AlikeLater(a, b, (if k == 0 then now else ticks[k - 1].prune) - DAY_MS, ticks[k].prune - DAY_MS);
    RecordedIsAlike(a, b, 0, 0, ticks[k].now, ticks[k].cut, ticks[k].prune);
  }

  lemma SameRecorded(cfg: Config, a: Context, b: Context, ev: Event)
    requires DayWindows(cfg) && ContextsAlike(a, b, ev.now - DAY_MS) && LooksBetween(ev.now, LooksOf(ev), TicksOf(ev))
    ensures Recorded(cfg, a, ev) == Recorded(cfg, b, ev)
  {
    hide Approves, DayWindows, Alike;
    if ev.Enforce? && |ev.looks| == |cfg.spendLimits| + 1 {
      SameVerdict(cfg, a.state, b.state, ev.out, ev.now, ev.looks);
    } else if ev.SignFinish? && ev.id in a.inFlight && |ev.looks| == |cfg.spendLimits| + 1 {
      SameVerdict(cfg, a.state, b.state, a.inFlight[ev.id], ev.now, ev.looks);
    }
  }

  lemma StepKeepsContextsAlike(cfg: Config, a: Context, b: Context, ev: Event)
    requires DayWindows(cfg) && ContextsAlike(a, b, ev.now - DAY_MS) && Ticking(ev.now, TicksOf(ev))
    requires LooksBetween(ev.now, LooksOf(ev), TicksOf(ev))
    ensures Recorded(cfg, a, ev) == Recorded(cfg, b, ev)
    ensures ContextsAlike(Step(cfg, a, ev, true), Step(cfg, b, ev, false), EndOf(ev) - DAY_MS)
  {
    hide Approves, RecordAll, DayWindows, SpendsSince, TimesSince, StablecoinUsd, Stablecoins;
    SameRecorded(cfg, a, b, ev);
    var out := Recorded(cfg, b, ev);
    if out.Some? {
      RecordedAllAlike(a.state, b.state, out.value, TicksOf(ev), ev.now);
    } else {
      AlikeLater(a.state, b.state, ev.now - DAY_MS, EndOf(ev) - DAY_MS);
    }
  }

  lemma {:induction false} RunsAlike(cfg: Config, events: seq<Event>, now: int)
    requires DayWindows(cfg) && Clocked(events) && (events != [] ==> EndOf(events[|events| - 1]) <= now)
    ensures ContextsAlike(Run(cfg, events, true), Run(cfg, events, false), now - DAY_MS)
  {
    hide Step, ContextsAlike, DayWindows;
    if events == [] {
      StartAlike(now - DAY_MS);
    } else {
      var k := |events| - 1;
      ClockedPrefix(events);
      hide Clocked, Ticking, LooksBetween, EndOf, TicksOf, LooksOf;
      var a, b := Run(cfg, events[..k], true), Run(cfg, events[..k], false);
      RunsAlike(cfg, events[..k], events[k].now);
      StepKeepsContextsAlike(cfg, a, b, events[k]);
      ContextsAlikeLater(Step(cfg, a, events[k], true), Step(cfg, b, events[k], false), EndOf(events[k]) - DAY_MS, now - DAY_MS);
    }
  }

  lemma StartAlike(horizon: int)
    ensures ContextsAlike(START, START, horizon)
  {
  }

  lemma ContextsAlikeLater(a: Context, b: Context, horizon: int, later: int)
    requires ContextsAlike(a, b, horizon) && horizon <= later
    ensures ContextsAlike(a, b, later)
  {
    AlikeLater(a.state, b.state, horizon, later);
  }

  lemma ClockedPrefix(events: seq<Event>)
    requires Clocked(events) && events != []
    ensures Clocked(events[..|events| - 1])
    ensures Ticking(events[|events| - 1].now, TicksOf(events[|events| - 1]))
    ensures LooksBetween(events[|events| - 1].now, LooksOf(events[|events| - 1]), TicksOf(events[|events| - 1]))
    ensures |events| > 1 ==> EndOf(events[|events| - 2]) <= events[|events| - 1].now
  {
  }

  // ---- Limits over every window ----

  function MintLog(entries: seq<SpendEntry>, mint: Key): seq<Spend> {
    seq(|entries|, i requires 0 <= i < |entries| =>
      Spend(entries[i].timestamp, if entries[i].mint == mint then entries[i].amount else 0))
  }

  function CountLog(times: seq<int>): seq<Spend> {
    seq(|times|, i requires 0 <= i < |times| => Spend(times[i], 1))
  }

  predicate AtLeast(cutoff: int, t: int) {
    cutoff <= t
  }

  ghost function From(cutoff: int): iset<int> {
    iset t: int | AtLeast(cutoff, t)
  }

  /** What a window query of the code adds up, as a sum over the log. */
  lemma {:induction false} SpendQuery(entries: seq<SpendEntry>, mint: Key, cutoff: int)
    ensures AmountOf(SpendsSince(entries, cutoff), mint) == SpentIn(MintLog(entries, mint), From(cutoff))
  {
    if entries != [] {
      var k := |entries| - 1;
      SpendQuery(entries[..k], mint, cutoff);
      assert MintLog(entries, mint)[..k] == MintLog(entries[..k], mint);
      var kept := SpendsSince(entries[..k], cutoff);
      assert (kept + [entries[k]])[..|kept|] == kept;
      assert kept + [] == kept;
    }
  }

  lemma {:induction false} CountQuery(times: seq<int>, cutoff: int)
    ensures |TimesSince(times, cutoff)| == SpentIn(CountLog(times), From(cutoff))
  {
    if times != [] {
      var k := |times| - 1;
      CountQuery(times[..k], cutoff);
      assert CountLog(times)[..k] == CountLog(times[..k]);
    }
  }

  lemma {:induction false} AmountBoundsSpent(entries: seq<SpendEntry>, mint: Key, times: iset<int>)
    ensures SpentIn(MintLog(entries, mint), times) <= AmountOf(entries, mint)
  {
    if entries != [] {
      var k := |entries| - 1;
      AmountBoundsSpent(entries[..k], mint, times);
      assert MintLog(entries, mint)[..k] == MintLog(entries[..k], mint);
    }
  }

  ghost function SpentInWindow(log: seq<Spend>, first: int, windowMs: int): nat {
    SpentIn(log, Interval(first, first + windowMs))
  }

  /** No window of this length, wherever it starts, holds more than `bound`. */
  ghost predicate EveryWindowHolds(log: seq<Spend>, windowMs: int, bound: nat) {
    forall first: int :: SpentInWindow(log, first, windowMs) <= bound
  }

  /** The sliding-window argument: what the check saw behind it and what it let through fit the
      bound, so every window does. `recent` is recorded at or after the check. */
  lemma CheckedWindow(log: seq<Spend>, recent: seq<Spend>, now: int, windowMs: nat, bound: nat, most: nat)
    requires EveryWindowHolds(log, windowMs, bound)
    requires forall i :: 0 <= i < |recent| ==> now <= recent[i].time
    requires SpentIn(log, From(now - windowMs)) + most <= bound
    requires forall times :: SpentIn(recent, times) <= most
    ensures EveryWindowHolds(log + recent, windowMs, bound)
  {
    forall first: int
      ensures SpentInWindow(log + recent, first, windowMs) <= bound
    {
      var window := Interval(first, first + windowMs);
      SpentInConcat(log, recent, window);
      if forall i :: 0 <= i < |recent| ==> recent[i].time !in window {
        NothingSpentIn(recent, window);
        assert SpentInWindow(log, first, windowMs) <= bound;
      } else {
        var i :| 0 <= i < |recent| && recent[i].time in window;
        assert now - windowMs <= first;
        SpentInMonotone(log, window, From(now - windowMs));
      }
    }
  }

  function NewEntries(out: seq<TokenTransfer>, ticks: seq<Tick>): seq<SpendEntry>
    requires |ticks| >= |out|
  {
    seq(|out|, i requires 0 <= i < |out| => SpendEntry(out[i].mint.GetOr(DEFAULT_KEY), out[i].amount, ticks[i].now))
  }

  lemma {:induction false} UnprunedRecord(s: State, out: seq<TokenTransfer>, ticks: seq<Tick>)
    requires |ticks| >= |out|
    ensures RecordSpends(s, out, ticks, false) == s.(spendEntries := s.spendEntries + NewEntries(out, ticks))
  {
    if out == [] {
      assert s.spendEntries + NewEntries(out, ticks) == s.spendEntries;
    } else {
      var k := |out| - 1;
      UnprunedRecord(s, out[..k], ticks);
      assert NewEntries(out, ticks) == NewEntries(out[..k], ticks) + [NewEntries(out, ticks)[k]];
      assert s.spendEntries + NewEntries(out, ticks) ==
             (s.spendEntries + NewEntries(out[..k], ticks)) + [NewEntries(out, ticks)[k]];
    }
  }

  lemma {:induction false} NewAmount(out: seq<TokenTransfer>, ticks: seq<Tick>, mint: Key)
    requires |ticks| >= |out|
    ensures AmountOf(NewEntries(out, ticks), mint) <= TxSpend(out, mint)
  {
    if out != [] {
      var k := |out| - 1;
      NewAmount(out[..k], ticks, mint);
      assert NewEntries(out, ticks)[..k] == NewEntries(out[..k], ticks);
    }
  }

  ghost predicate LimitHeld(s: State, limit: SpendLimit) {
    EveryWindowHolds(MintLog(s.spendEntries, limit.mint), limit.windowMs, limit.amount)
  }

  ghost predicate RateHeld(s: State, rate: RateLimit) {
    EveryWindowHolds(CountLog(s.txEntries), rate.windowMs, rate.maxTransactions)
  }

  lemma LimitStep(s: State, out: seq<TokenTransfer>, ticks: seq<Tick>, now: int, limit: SpendLimit)
    requires |ticks| == |out| + 1 && forall j :: 0 <= j < |ticks| ==> now <= ticks[j].now
    requires LimitHeld(s, limit) && WithinLimit(s, out, limit, now)
    ensures LimitHeld(RecordAll(s, out, ticks, false), limit)
  {
    var recent := NewEntries(out, ticks);
    UnprunedRecord(s, out, ticks);
    SpendQuery(s.spendEntries, limit.mint, now - limit.windowMs);
    NewAmount(out, ticks, limit.mint);
    forall times: iset<int>
      ensures SpentIn(MintLog(recent, limit.mint), times) <= TxSpend(out, limit.mint)
    {
      AmountBoundsSpent(recent, limit.mint, times);
    }
    assert MintLog(s.spendEntries + recent, limit.mint) == MintLog(s.spendEntries, limit.mint) + MintLog(recent, limit.mint);
    CheckedWindow(MintLog(s.spendEntries, limit.mint), MintLog(recent, limit.mint), now, limit.windowMs, limit.amount,
      TxSpend(out, limit.mint));
  }

  lemma RateStep(s: State, out: seq<TokenTransfer>, ticks: seq<Tick>, now: int, rate: RateLimit)
    requires |ticks| == |out| + 1 && forall j :: 0 <= j < |ticks| ==> now <= ticks[j].now
    requires RateHeld(s, rate) && WithinRate(s, Some(rate), now)
    ensures RateHeld(RecordAll(s, out, ticks, false), rate)
  {
    var time := ticks[|out|].now;
    UnprunedRecord(s, out, ticks);
    CountQuery(s.txEntries, now - rate.windowMs);
    var one := CountLog([time]);
    forall times: iset<int>
      ensures SpentIn(one, times) <= 1
    {
      SpentInAppend([], one[0], times);
      assert [] + [one[0]] == one;
    }
    assert CountLog(s.txEntries + [time]) == CountLog(s.txEntries) + one;
    CheckedWindow(CountLog(s.txEntries), one, now, rate.windowMs, rate.maxTransactions, 1);
  }

  ghost predicate AllHeld(cfg: Config, s: State) {
    && (forall i :: 0 <= i < |cfg.spendLimits| ==> LimitHeld(s, cfg.spendLimits[i]))
    && (cfg.rateLimit.Some? ==> RateHeld(s, cfg.rateLimit.value))
  }

  lemma RecordKeepsAllHeld(cfg: Config, s: State, out: seq<TokenTransfer>, ticks: seq<Tick>, now: int, looks: seq<int>)
    requires Timed(cfg, out, looks, ticks) && LooksBetween(now, looks, ticks) && AllHeld(cfg, s) && Approves(cfg, s, out, looks)
    ensures AllHeld(cfg, RecordAll(s, out, ticks, false))
  {
    hide LimitHeld, RateHeld, RecordAll, WithinLimit;
    forall i | 0 <= i < |cfg.spendLimits|
      ensures LimitHeld(RecordAll(s, out, ticks, false), cfg.spendLimits[i])
    {
      LimitStep(s, out, ticks, looks[i], cfg.spendLimits[i]);
    }
    if cfg.rateLimit.Some? {
      RateStep(s, out, ticks, looks[|cfg.spendLimits|], cfg.rateLimit.value);
    }
  }

  lemma StepKeepsAllHeld(cfg: Config, c: Context, ev: Event)
    requires AllHeld(cfg, c.state) && LooksBetween(ev.now, LooksOf(ev), TicksOf(ev))
    ensures AllHeld(cfg, Step(cfg, c, ev, false).state)
  {
    hide Approves, RecordAll, EveryWindowHolds, MintLog, CountLog, LooksBetween;
    var out := Recorded(cfg, c, ev);
    if out.Some? {
      RecordKeepsAllHeld(cfg, c.state, out.value, TicksOf(ev), ev.now, LooksOf(ev));
    }
  }

  lemma StartHeld(cfg: Config)
    ensures AllHeld(cfg, EMPTY)
  {
    forall limit: SpendLimit
      ensures LimitHeld(EMPTY, limit)
    {
      assert MintLog([], limit.mint) == [];
    }
    assert CountLog([]) == [];
  }

  lemma {:induction false} UnprunedRunHeld(cfg: Config, events: seq<Event>)
    requires Clocked(events)
    ensures AllHeld(cfg, Run(cfg, events, false).state)
  {
    hide Step, AllHeld;
    if events == [] {
      StartHeld(cfg);
    } else {
      ClockedPrefix(events);
      hide Clocked, Ticking, LooksBetween;
      UnprunedRunHeld(cfg, events[..|events| - 1]);
      StepKeepsAllHeld(cfg, Run(cfg, events[..|events| - 1], false), events[|events| - 1]);
    }
  }

  /** For every interleaving of enforce() calls, signers, syncs and pauses, with windows of at
      most a day: the context approves exactly what one that never discards entries would, and
      in that full record no window of a limit holds more of its mint than the limit allows, and
      no window of the rate limit more transactions than it allows. */
  lemma LimitsHoldInEveryInterleaving(cfg: Config, events: seq<Event>, i: nat)
    requires DayWindows(cfg) && Clocked(events) && i < |events|
    ensures Recorded(cfg, Run(cfg, events[..i], true), events[i]) == Recorded(cfg, Run(cfg, events[..i], false), events[i])
    ensures AllHeld(cfg, Run(cfg, events, false).state)
  {
    hide Run, AllHeld, Recorded, Step;
    UnprunedRunHeld(cfg, events);
    ClockedUpTo(events, i);
    hide Clocked, Ticking, LooksBetween;
    RunsAlike(cfg, events[..i], events[i].now);
    StepKeepsContextsAlike(cfg, Run(cfg, events[..i], true), Run(cfg, events[..i], false), events[i]);
  }

  lemma ClockedUpTo(events: seq<Event>, i: nat)
    requires Clocked(events) && i < |events|
    ensures Clocked(events[..i]) && Ticking(events[i].now, TicksOf(events[i]))
    ensures LooksBetween(events[i].now, LooksOf(events[i]), TicksOf(events[i]))
    ensures i > 0 ==> EndOf(events[..i][i - 1]) <= events[i].now
  {
    hide Ticking, LooksBetween, TicksOf, LooksOf, EndOf;
  }

  // ---- On-chain caps between syncs ----

  ghost predicate BudgetHeld(b: Budget, local: nat) {
    b.spent24h + local <= b.cap
  }

  /** Either nothing was added locally, or baseline and additions fit every synced cap. */
  ghost predicate UsdHeld(s: State) {
    s.localUsdAdditions == 0 || (s.resolved.Some? ==>
      && BudgetHeld(s.resolved.value.globalBudget, s.localUsdAdditions)
      && (s.resolved.value.agentBudget.Some? ==> BudgetHeld(s.resolved.value.agentBudget.value, s.localUsdAdditions)))
  }

  lemma {:induction false} RecordTouchesOnlyLogs(s: State, out: seq<TokenTransfer>, ticks: seq<Tick>, pruning: bool)
    requires |ticks| >= |out|
    ensures var r := RecordSpends(s, out, ticks, pruning);
            r == s.(spendEntries := r.spendEntries, txEntries := r.txEntries)
  {
    hide SpendsSince, TimesSince;
    if out != [] {
      RecordTouchesOnlyLogs(s, out[..|out| - 1], ticks, pruning);
    }
  }

  lemma {:induction false} FewerStablecoins(out: seq<TokenTransfer>, fewer: set<Key>, more: set<Key>)
    requires fewer <= more
    ensures StablecoinUsd(out, fewer) <= StablecoinUsd(out, more)
  {
    if out != [] {
      FewerStablecoins(out[..|out| - 1], fewer, more);
    }
  }

  /** The networks a signer checks and books against suit each other: everything it would book
      was also checked. */
  predicate NetworksSuit(cfg: Config, network: Option<Network>) {
    cfg.syncNetwork.Some? && network.Some? ==>
      Stablecoins(cfg, network.value) <= Stablecoins(cfg, cfg.syncNetwork.value)
  }

  lemma BookingFits(cfg: Config, s: State, out: seq<TokenTransfer>, looks: seq<int>, booked: Option<Network>)
    requires |looks| == |cfg.spendLimits| + 1 && UsdHeld(s) && Approves(cfg, s, out, looks)
    requires booked.Some? ==> EffectiveNetwork(cfg, s).Some?
    requires booked.Some? ==> Stablecoins(cfg, booked.value) <= Stablecoins(cfg, EffectiveNetwork(cfg, s).value)
    ensures UsdHeld(BookUsd(cfg, s, out, booked))
  {
    if booked.Some? {
      FewerStablecoins(out, Stablecoins(cfg, booked.value), Stablecoins(cfg, EffectiveNetwork(cfg, s).value));
    }
    hide WithinLimit, WithinRate, StablecoinUsd, Stablecoins;
  }

  lemma StepKeepsUsdHeld(cfg: Config, c: Context, ev: Event, pruning: bool)
    requires UsdHeld(c.state) && NetworksSuit(cfg, c.state.network)
    ensures UsdHeld(Step(cfg, c, ev, pruning).state)
  {
    hide Approves, StablecoinUsd, Stablecoins, RecordSpends, SpendsSince, TimesSince;
    var out := Recorded(cfg, c, ev);
    if out.Some? {
      var booked := if ev.Enforce? then cfg.syncNetwork else c.state.network;
      BookingFits(cfg, c.state, out.value, LooksOf(ev), booked);
      RecordTouchesOnlyLogs(c.state, out.value, TicksOf(ev), pruning);
    }
  }

  /** At every moment of the run the networks suit each other. */
  ghost predicate AlwaysSuit(cfg: Config, events: seq<Event>, pruning: bool) {
    forall i :: 0 <= i <= |events| ==> NetworksSuit(cfg, Run(cfg, events[..i], pruning).state.network)
  }

  /** Between syncs, over every interleaving, either nothing was added locally or baseline plus
      additions stay within the global and the agent's cap. */
  lemma {:induction false} CapsHoldBetweenSyncs(cfg: Config, events: seq<Event>, pruning: bool)
    requires AlwaysSuit(cfg, events, pruning)
    ensures UsdHeld(Run(cfg, events, pruning).state)
  {
    hide Step, NetworksSuit;
    if events != [] {
      var k := |events| - 1;
      assert forall i :: 0 <= i <= k ==> events[..k][..i] == events[..i];
      CapsHoldBetweenSyncs(cfg, events[..k], pruning);
      assert NetworksSuit(cfg, Run(cfg, events[..k], pruning).state.network);
      StepKeepsUsdHeld(cfg, Run(cfg, events[..k], pruning), events[k], pruning);
    }
  }

  /** No sync around the context names a network other than n. */
  ghost predicate SyncedFor(events: seq<Event>, n: Option<Network>) {
    forall i :: 0 <= i < |events| && events[i].DirectSync? ==> events[i].onNetwork.None? || events[i].onNetwork == n
  }

  lemma {:induction false} NetworkOfRun(cfg: Config, events: seq<Event>, pruning: bool, n: Option<Network>)
    requires SyncedFor(events, n)
    ensures var network := Run(cfg, events, pruning).state.network;
            network.None? || network == cfg.syncNetwork || network == n
  {
    hide Approves, SpendsSince, TimesSince, StablecoinUsd, Stablecoins, Pruned;
    if events != [] {
      var before, ev := Run(cfg, events[..|events| - 1], pruning), events[|events| - 1];
      NetworkOfRun(cfg, events[..|events| - 1], pruning, n);
      StepNetwork(cfg, before, ev, pruning);
    }
  }

  lemma StepNetwork(cfg: Config, c: Context, ev: Event, pruning: bool)
    ensures var network := Step(cfg, c, ev, pruning).state.network;
            || network == c.state.network
            || (ev.ContextSync? && network == cfg.syncNetwork)
            || (ev.DirectSync? && network == ev.onNetwork)
  {
    hide Approves, SpendsSince, TimesSince, StablecoinUsd, Stablecoins;
    var out := Recorded(cfg, c, ev);
    if out.Some? {
      RecordTouchesOnlyLogs(c.state, out.value, TicksOf(ev), pruning);
    }
  }

  lemma SuitedSyncsKeepCaps(cfg: Config, events: seq<Event>, pruning: bool, n: Option<Network>)
    requires SyncedFor(events, n) && NetworksSuit(cfg, n)
    ensures UsdHeld(Run(cfg, events, pruning).state)
  {
    hide Run, UsdHeld;
    forall i | 0 <= i <= |events|
      ensures NetworksSuit(cfg, Run(cfg, events[..i], pruning).state.network)
    {
      NetworkOfRun(cfg, events[..i], pruning, n);
    }
    CapsHoldBetweenSyncs(cfg, events, pruning);
  }

  /** With the context's own sync as the only one that names a network, the caps always hold. */
  lemma CapsHoldUnderOwnSyncs(cfg: Config, events: seq<Event>, pruning: bool)
    requires SyncedFor(events, None)
    ensures UsdHeld(Run(cfg, events, pruning).state)
  {
    hide Run, UsdHeld;
    SuitedSyncsKeepCaps(cfg, events, pruning, None);
  }

  predicate SameNetworks(cfg: Config, other: Config) {
    cfg.syncNetwork == other.syncNetwork && cfg.stablecoins == other.stablecoins
  }

  /** Whatever the client-side limits and whatever happens: every run whose state may also be
      synced for network n keeps the caps. */
  ghost predicate CapsHoldSyncedFor(cfg: Config, n: Network) {
    forall other: Config, events: seq<Event> :: SameNetworks(cfg, other) && SyncedFor(events, Some(n)) ==>
      UsdHeld(Run(other, events, true).state)
  }

  /** Exactly when: a signer books the stablecoins of the state's network but checks those of
      the context's own, so the former must be among the latter. */
  lemma CapsHoldExactly(cfg: Config, n: Network)
    ensures CapsHoldSyncedFor(cfg, n) <==> NetworksSuit(cfg, Some(n))
  {
    hide UsdHeld, Run;
    if NetworksSuit(cfg, Some(n)) {
      forall other: Config, events: seq<Event> | SameNetworks(cfg, other) && SyncedFor(events, Some(n))
        ensures UsdHeld(Run(other, events, true).state)
      {
        SuitedSyncsKeepCaps(other, events, true, Some(n));
      }
    } else {
      var mint :| mint in Stablecoins(cfg, n) && mint !in Stablecoins(cfg, cfg.syncNetwork.value);
      var other := cfg.(spendLimits := [], rateLimit := None, allowedPrograms := None);
      UncheckedStablecoin(other, mint, n);
      assert SameNetworks(cfg, other) && SyncedFor(Unchecked(mint, n), Some(n));
    }
  }

  /** A sync for network n with no cap left, then one unit of one of its stablecoins signed. */
  function Unchecked(mint: Key, n: Network): seq<Event> {
    [DirectSync(Resolved(Budget(0, 0), None, 0), Some(n), 0),
     SignStart(0, [TokenTransfer(Some(mint), 1, 2, 3, 1)], 0, true),
     SignFinish(0, 0, [0], [Tick(0, 0, 0), Tick(0, 0, 0)], true)]
  }

  lemma UncheckedStart(cfg: Config, mint: Key, n: Network)
    ensures Run(cfg, Unchecked(mint, n)[..2], true) ==
            Context(EMPTY.(resolved := Some(Resolved(Budget(0, 0), None, 0)), network := Some(n)),
                    map[0 := [TokenTransfer(Some(mint), 1, 2, 3, 1)]], false)
  {
    var events := Unchecked(mint, n);
    assert events[..2][..1] == events[..1] && events[..1][..0] == [];
    assert Run(cfg, events[..1], true) == Step(cfg, START, events[0], true);
    assert Run(cfg, events[..2], true) == Step(cfg, Run(cfg, events[..1], true), events[1], true);
  }

  lemma UncheckedStablecoin(cfg: Config, mint: Key, n: Network)
    requires cfg.spendLimits == [] && cfg.rateLimit.None? && cfg.syncNetwork.Some?
    requires mint in Stablecoins(cfg, n) && mint !in Stablecoins(cfg, cfg.syncNetwork.value)
    ensures !UsdHeld(Run(cfg, Unchecked(mint, n), true).state)
  {
    UncheckedStart(cfg, mint, n);
    var events := Unchecked(mint, n);
    UncheckedFinish(cfg, Run(cfg, events[..2], true), mint, n);
    assert Run(cfg, events, true) == Step(cfg, Run(cfg, events[..2], true), events[2], true);
    hide Step, Run;
  }

  lemma UncheckedFinish(cfg: Config, c: Context, mint: Key, n: Network)
    requires cfg.spendLimits == [] && cfg.rateLimit.None? && cfg.syncNetwork.Some?
    requires mint in Stablecoins(cfg, n) && mint !in Stablecoins(cfg, cfg.syncNetwork.value)
    requires c == Context(EMPTY.(resolved := Some(Resolved(Budget(0, 0), None, 0)), network := Some(n)),
                          map[0 := [TokenTransfer(Some(mint), 1, 2, 3, 1)]], false)
    ensures Step(cfg, c, SignFinish(0, 0, [0], [Tick(0, 0, 0), Tick(0, 0, 0)], true), true).state.localUsdAdditions == 1
    ensures Step(cfg, c, SignFinish(0, 0, [0], [Tick(0, 0, 0), Tick(0, 0, 0)], true), true).state.resolved == c.state.resolved
  {
    var out, ticks := c.inFlight[0], [Tick(0, 0, 0), Tick(0, 0, 0)];
    assert out[..0] == [];
    assert StablecoinUsd(out, Stablecoins(cfg, cfg.syncNetwork.value)) == 0;
    assert StablecoinUsd(out, Stablecoins(cfg, n)) == 1;
    assert Approves(cfg, c.state, out, [0]);
    RecordTouchesOnlyLogs(c.state, out, ticks, true);
  }
}
