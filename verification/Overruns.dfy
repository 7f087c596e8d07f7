/** Runs of the program that show how far its meters reach and no further: concrete vaults, agents
    and transfers, and with them the exact spans the caps hold for. */
module Overruns {
  import opened Common
  import opened SpendLog
  import opened Metering
  import opened Fees
  import opened Program
  import opened Governance
  import opened OverlaySlots
  import opened SpendingRuns
  import T = SpendTracking
  import O = AgentOverlay

  const VAULT: Key := 1
  const OWNER: Key := 2
  const AGENT: Key := 3
  const OTHER: Key := 4
  const MINT: Key := 5
  const PURSE: Key := 6
  const SHOP: Key := 7
  const CHEST: Key := 8
  const FUNDS := 100

  const CHAIN := Chain({MINT}, CHEST)

  function PolicyOf(cap: nat): Policy {
    Policy(cap, FUNDS, 0, [], 0, 0, MIN_TIMELOCK_DURATION, [SHOP], false, false, false, [], 0, 0, false, DESTINATION_MODE_RESTRICTED)
  }

  /** A new vault with 100 units in its purse. */
  function Start(cap: nat): World {
    World(Vault(VAULT, OWNER, Active, [], OWNER, 0, 0, 0), PolicyOf(cap), T.Empty(),
          seq(O.MAX_OVERLAY_ENTRIES, _ => O.Fresh(DEFAULT_KEY)), None, Pending(None, map[], None, None), map[PURSE := FUNDS])
  }

  lemma StartIsInitial(cap: nat)
    ensures Initial(Start(cap))
  {
  }

  /** The agent pays a shop; the protocol's fee goes to the treasury, the developer's rate is 0. */
  function Pay(amount: nat): Transfer {
    Transfer(AGENT, amount, 0, TokenAccount(PURSE, VAULT, MINT), MINT, USD_DECIMALS, TokenAccount(SHOP, SHOP, MINT),
             Some(TokenAccount(CHEST, CHEST, MINT)), None)
  }

  function At(op: Op, t: int): Event {
    Event(op, Clock(t, 0))
  }

  // ---- A state in which the agent can go on paying ----

  predicate AgentReady(w: World, cap: nat, limit: nat) {
    && w.vault.key == VAULT && w.vault.owner == OWNER && w.vault.status == Active
    && w.policy == PolicyOf(cap)
    && FindAgent(w.vault.agents, AGENT) == Some(AgentEntry(AGENT, CAPABILITY_OPERATOR, limit, false))
    && FindAgent(w.vault.agents, OTHER).Some? && |w.vault.agents| <= 2
    && O.FindSlot(w.overlay, AGENT) == Some(0)
  }

  /** Nothing is near an overflow, and the purse holds what is left. */
  predicate Within(w: World, spent: nat) {
    && w.vault.totalTransactions <= spent && w.vault.totalVolume <= spent && w.vault.totalFeesCollected == 0
    && Balance(w.balances, PURSE) + spent >= FUNDS
    && (forall i :: 0 <= i < T.NUM_EPOCHS ==> w.tracker.buckets[i].usdAmount <= spent)
    && (forall i :: 0 <= i < O.OVERLAY_NUM_EPOCHS ==> w.overlay[0].contributions[i] <= spent)
  }

  lemma PaymentPasses(w: World, cap: nat, limit: nat, amount: nat)
    requires AgentReady(w, cap, limit) && 0 < amount <= FUNDS
    ensures TransferChecks(CHAIN, w.vault, w.policy, Pay(amount)) == Ok(amount)
  {
  }

  lemma PaymentIsCharged(w: World, cap: nat, limit: nat, spent: nat, amount: nat, now: int)
    requires AgentReady(w, cap, limit) && Within(w, spent) && spent + amount <= FUNDS && now > 0
    requires limit > 0 ==> O.Reading(w.overlay[0], now) + amount <= limit <= FUNDS
    ensures ChargeAgent(w.overlay, AGENT, limit, now, amount) == Ok(w.overlay[0 := O.Recorded(w.overlay[0], now, amount)])
    ensures T.Recordable(w.tracker, now, amount)
    ensures forall i :: 0 <= i < T.NUM_EPOCHS ==> T.Recorded(w.tracker, now, amount).buckets[i].usdAmount <= spent + amount
    ensures forall i :: 0 <= i < O.OVERLAY_NUM_EPOCHS ==> O.Recorded(w.overlay[0], now, amount).contributions[i] <= spent + amount
  {
    hide O.Reading, O.FindSlot, FindAgent;
  }

  lemma PaymentMoves(w: World, spent: nat, amount: nat)
    requires Balance(w.balances, PURSE) + spent >= FUNDS && 0 < amount && spent + amount <= FUNDS
    ensures CeilFee(amount, PROTOCOL_FEE_RATE) == Some(1) && CeilFee(amount, 0) == Some(0)
    ensures var r := MoveFunds(CHAIN, w.vault, w.balances, Pay(amount), 1, 0);
            r.Ok? && Balance(r.value, PURSE) + spent + amount >= FUNDS
  {
  }

  /** A payment that fits both readings succeeds, and the next one may follow. */
  lemma PaymentSucceeds(w: World, cap: nat, limit: nat, spent: nat, amount: nat, now: int)
    requires AgentReady(w, cap, limit) && Within(w, spent) && 0 < amount && spent + amount <= FUNDS && now > 0
    requires T.Reading(w.tracker, now) + amount <= cap <= FUNDS
    requires limit > 0 ==> O.Reading(w.overlay[0], now) + amount <= limit <= FUNDS
    ensures var r := TransferStep(CHAIN, w, Pay(amount), Clock(now, 0));
            && r.Ok? && AgentReady(r.value, cap, limit) && Within(r.value, spent + amount)
            && r.value.vault.agents == w.vault.agents
            && r.value.tracker == T.Recorded(w.tracker, now, amount)
            && r.value.overlay == w.overlay[0 := O.Recorded(w.overlay[0], now, amount)]
  {
    PaymentPasses(w, cap, limit, amount);
    PaymentIsCharged(w, cap, limit, spent, amount, now);
    PaymentMoves(w, spent, amount);
    FirstSlot(w.overlay, AGENT);
    SameSlot(w.overlay, w.overlay[0 := O.Recorded(w.overlay[0], now, amount)], AGENT);
    hide TransferChecks, ChargeAgent, MoveFunds, T.Reading, T.Recordable, T.Recorded, O.Reading, O.Recorded, O.FindSlot, FindAgent, CeilFee, Balance;
  }

  // ---- Runs of payments ----

  /** The vault's meter has seen `log`, the agent's `own`, and both go on. */
  ghost predicate UnderMeter(w: World, cap: nat, limit: nat, spent: nat, log: seq<Spend>, own: seq<Spend>) {
    AgentReady(w, cap, limit) && Within(w, spent) && T.Tracks(w.tracker, log) && O.Tracks(w.overlay[0], own)
  }

  /** That is what was spent in the run. */
  ghost predicate Spent(w: World, trace: seq<Event>, cap: nat, limit: nat, log: seq<Spend>, own: seq<Spend>) {
    && SpendsOf(CHAIN, w, trace) == log && CapsOf(CHAIN, w, trace) == seq(|log|, _ => cap)
    && OwnSpends(CHAIN, w, trace, AGENT) == log && OwnLimits(CHAIN, w, trace, AGENT) == seq(|log|, _ => limit)
    && AgentSpends(CHAIN, w, trace, AGENT) == own && AgentLimits(CHAIN, w, trace, AGENT) == seq(|own|, _ => limit)
  }

  ghost predicate Reached(trace: seq<Event>, cap: nat, limit: nat, spent: nat, log: seq<Spend>, own: seq<Spend>) {
    UnderMeter(After(CHAIN, Start(cap), trace), cap, limit, spent, log, own) && Spent(Start(cap), trace, cap, limit, log, own)
  }

  function Paying(amount: nat, now: int): Event {
    At(AgentTransfer(Pay(amount)), now)
  }

  /** One more payment, if it fits both abstract meters. */
  ghost predicate Fits(cap: nat, limit: nat, spent: nat, log: seq<Spend>, own: seq<Spend>, amount: nat, now: int) {
    && 0 < amount && spent + amount <= FUNDS && now > 0 && cap <= FUNDS && limit <= FUNDS
    && (log != [] ==> log[|log| - 1].time <= now) && (own != [] ==> own[|own| - 1].time <= now)
    && Metered(log, T.EPOCH_DURATION, T.NUM_EPOCHS, now) + amount <= cap
    && (limit > 0 ==> Metered(own, O.OVERLAY_EPOCH_DURATION, O.OVERLAY_NUM_EPOCHS, now) + amount <= limit)
  }

  lemma PaymentIsMetered(w: World, cap: nat, limit: nat, spent: nat, log: seq<Spend>, own: seq<Spend>, amount: nat, now: int)
    requires UnderMeter(w, cap, limit, spent, log, own) && Fits(cap, limit, spent, log, own, amount, now)
    ensures var ev := Paying(amount, now);
            && SpendsBy(CHAIN, w, ev, AGENT) && SpendOf(CHAIN, w, ev) == Spend(now, amount)
            && UnderMeter(Attempt(CHAIN, w, ev), cap, limit, spent + amount, log + [Spend(now, amount)], own + [Spend(now, amount)])
  {
    hide T.Reading, T.Recorded, O.Reading, O.Recorded, T.Tracks, O.Tracks, Metered, AgentReady, Within;
    T.ReadingIsMetered(w.tracker, log, now);
    O.ReadingIsMetered(w.overlay[0], own, now);
    PaymentSucceeds(w, cap, limit, spent, amount, now);
    PaymentPasses(w, cap, limit, amount);
    T.RecordedTracks(w.tracker, log, now, amount);
    O.RecordedTracks(w.overlay[0], own, now, amount);
    hide TransferStep, TransferChecks;
  }

  lemma PaymentIsSpent(w: World, trace: seq<Event>, cap: nat, limit: nat, log: seq<Spend>, own: seq<Spend>, ev: Event, s: Spend)
    requires Spent(w, trace, cap, limit, log, own)
    requires var before := After(CHAIN, w, trace);
             && SpendsBy(CHAIN, before, ev, AGENT) && SpendOf(CHAIN, before, ev) == s
             && before.policy.dailySpendingCapUsd == cap <= FUNDS && LimitOf(before, AGENT) == limit <= FUNDS
             && O.FindSlot(Attempt(CHAIN, before, ev).overlay, AGENT).Some?
    ensures Spent(w, trace + [ev], cap, limit, log + [s], own + [s])
  {
    hide Exec, SpendOf, LimitOf, O.FindSlot;
    var next := trace + [ev];
    assert next[..|next| - 1] == trace && next[|next| - 1] == ev;
    assert seq(|log| + 1, _ => cap) == seq(|log|, _ => cap) + [cap];
    assert seq(|log| + 1, _ => limit) == seq(|log|, _ => limit) + [limit];
    assert seq(|own| + 1, _ => limit) == seq(|own|, _ => limit) + [limit];
  }

  lemma PaymentFollows(trace: seq<Event>, cap: nat, limit: nat, spent: nat, log: seq<Spend>, own: seq<Spend>, amount: nat, now: int)
    requires Reached(trace, cap, limit, spent, log, own) && Fits(cap, limit, spent, log, own, amount, now)
    ensures Reached(trace + [Paying(amount, now)], cap, limit, spent + amount, log + [Spend(now, amount)], own + [Spend(now, amount)])
  {
    hide Exec, Spent, Within, T.Tracks, O.Tracks, Start, SpendsBy, SpendOf, Metered;
    var w, next := After(CHAIN, Start(cap), trace), trace + [Paying(amount, now)];
    PaymentIsMetered(w, cap, limit, spent, log, own, amount, now);
    PaymentIsSpent(Start(cap), trace, cap, limit, log, own, Paying(amount, now), Spend(now, amount));
    assert next[..|next| - 1] == trace;
  }

  // ---- The run that packs too much into one second more ----

  /** Two agents are registered; the second only keeps the vault from freezing without the first. */
  function Opening(limit: nat, t: int): seq<Event> {
    [At(Register(AGENT, CAPABILITY_OPERATOR, limit), t), At(Register(OTHER, CAPABILITY_OPERATOR, 0), t)]
  }

  lemma AgentRegisters(cap: nat, limit: nat)
    ensures var r := RegisterStep(Start(cap), AGENT, CAPABILITY_OPERATOR, limit);
            r == Ok(Start(cap).(vault := Start(cap).vault.(agents := [AgentEntry(AGENT, CAPABILITY_OPERATOR, limit, false)]),
                                overlay := Start(cap).overlay[0 := O.Fresh(AGENT)]))
  {
    var overlay := Start(cap).overlay;
    FirstSlot(overlay, AGENT);
    FirstSlot(overlay, DEFAULT_KEY);
    assert overlay[0] == O.Fresh(DEFAULT_KEY);
    assert O.FindSlot(overlay, AGENT).None? && O.FindSlot(overlay, DEFAULT_KEY) == Some(0);
    assert overlay[0].(agent := AGENT) == O.Fresh(AGENT);
    assert Start(cap).vault.agents + [AgentEntry(AGENT, CAPABILITY_OPERATOR, limit, false)] ==
           [AgentEntry(AGENT, CAPABILITY_OPERATOR, limit, false)];
  }

  lemma OtherRegisters(cap: nat, limit: nat)
    ensures var w := Start(cap).(vault := Start(cap).vault.(agents := [AgentEntry(AGENT, CAPABILITY_OPERATOR, limit, false)]),
                                 overlay := Start(cap).overlay[0 := O.Fresh(AGENT)]);
            var r := RegisterStep(w, OTHER, CAPABILITY_OPERATOR, 0);
            r.Ok? && UnderMeter(r.value, cap, limit, 0, [], [])
  {
    var overlay := Start(cap).overlay[0 := O.Fresh(AGENT)];
    FirstSlot(overlay, OTHER);
    FirstSlot(overlay, DEFAULT_KEY);
    assert overlay[1].agent == DEFAULT_KEY;
    FirstSlot(overlay[1 := O.Fresh(OTHER)], AGENT);
    T.EmptyTracks();
    O.FreshTracks(AGENT);
  }

  lemma OpeningIsReached(cap: nat, limit: nat, t: int)
    ensures Reached(Opening(limit, t), cap, limit, 0, [], [])
  {
    var trace, w := Opening(limit, t), Start(cap);
    AgentRegisters(cap, limit);
    OtherRegisters(cap, limit);
    hide Exec, RegisterStep, UnderMeter, Start, O.FindSlot;
    RegisterAttempt(w, AGENT, limit, t);
    RegisterAttempt(After(CHAIN, w, [trace[0]]), OTHER, 0, t);
    AfterAppend(w, [], trace[0]);
    AfterAppend(w, [trace[0]], trace[1]);
    NotSpent(w, [], trace[0]);
    NotSpent(w, [trace[0]], trace[1]);
    assert [] + [trace[0]] == [trace[0]] && [trace[0]] + [trace[1]] == trace;
  }

  lemma RegisterAttempt(w: World, agent: Key, limit: nat, t: int)
    ensures var r := RegisterStep(w, agent, CAPABILITY_OPERATOR, limit);
            r.Ok? ==> Attempt(CHAIN, w, At(Register(agent, CAPABILITY_OPERATOR, limit), t)) == r.value
  {
    hide RegisterStep;
  }

  /** An event that is no transfer adds to no log. */
  lemma NotSpent(w: World, trace: seq<Event>, ev: Event)
    requires !ev.op.AgentTransfer?
    ensures SpendsOf(CHAIN, w, trace + [ev]) == SpendsOf(CHAIN, w, trace) && CapsOf(CHAIN, w, trace + [ev]) == CapsOf(CHAIN, w, trace)
    ensures OwnSpends(CHAIN, w, trace + [ev], AGENT) == OwnSpends(CHAIN, w, trace, AGENT)
    ensures OwnLimits(CHAIN, w, trace + [ev], AGENT) == OwnLimits(CHAIN, w, trace, AGENT)
    ensures var slot := O.FindSlot(After(CHAIN, w, trace + [ev]).overlay, AGENT);
            && AgentSpends(CHAIN, w, trace + [ev], AGENT) == (if slot.None? then [] else AgentSpends(CHAIN, w, trace, AGENT))
            && AgentLimits(CHAIN, w, trace + [ev], AGENT) == (if slot.None? then [] else AgentLimits(CHAIN, w, trace, AGENT))
  {
    hide Exec, After, O.FindSlot, SpendOf, LimitOf;
    assert (trace + [ev])[..|trace|] == trace;
  }

  ghost function OverrunTrace(d: int, n: int, start: nat, limit: nat): seq<Event> {
    var t, u := OverrunStart(d, start), OverrunEnd(d, n, start);
    Opening(limit, t) + [Paying(9, t)] + [Paying(1, u)] + [Paying(9, u)]
  }

  lemma {:induction false} SmallSpends(log: seq<Spend>, times: iset<int>)
    requires forall i :: 0 <= i < |log| ==> log[i].usd <= 9
    ensures SpentIn(log, times) <= 9 * |log|
  {
    if log != [] {
      SmallSpends(log[..|log| - 1], times);
    }
  }

  /** The meter that is not the one overrun has room. */
  lemma OtherMeterHasRoom(log: seq<Spend>, d: int, n: int, now: int)
    requires d > 0 && n >= 0 && |log| <= 2 && forall i :: 0 <= i < |log| ==> log[i].usd <= 9
    ensures Metered(log, d, n, now) + 9 <= FUNDS
  {
    O.MeteredBetweenTotals(log, d, n, now);
    SmallSpends(log, Epochs(EpochAt(now, d) - n, EpochAt(now, d), d));
  }

  /** The same payments overrun the vault's ring under a cap of 10, and the agent's under a limit
      of 10, whenever they start: at each step the ring reads what the abstract meter does. */
  lemma OverrunHappens(d: int, n: int, start: nat, cap: nat, limit: nat)
    requires (d == T.EPOCH_DURATION && n == T.NUM_EPOCHS && cap == 10 && limit == 0)
             || (d == O.OVERLAY_EPOCH_DURATION && n == O.OVERLAY_NUM_EPOCHS && cap == FUNDS && limit == 10)
    ensures Reached(OverrunTrace(d, n, start, limit), cap, limit, 19, Overrun(d, n, start), Overrun(d, n, start))
    ensures Clocked(OverrunTrace(d, n, start, limit))
  {
    hide Metered, Reached;
    OverrunReadings(d, n, start);
    OverrunTimes(d, n, start);
    hide OverrunStart, OverrunEnd;
    var log, t, u := Overrun(d, n, start), OverrunStart(d, start), OverrunEnd(d, n, start);
    var one, two := [log[0]], [log[0]] + [log[1]];
    var opening := Opening(limit, t);
    OpeningIsReached(cap, limit, t);
    OtherMeterHasRoom([], T.EPOCH_DURATION, T.NUM_EPOCHS, t);
    PaymentFollows(opening, cap, limit, 0, [], [], 9, t);
    assert [] + [Spend(t, 9)] == one;
    OtherMeterHasRoom(one, T.EPOCH_DURATION, T.NUM_EPOCHS, u);
    PaymentFollows(opening + [Paying(9, t)], cap, limit, 9, one, one, 1, u);
    OtherMeterHasRoom(two, T.EPOCH_DURATION, T.NUM_EPOCHS, u);
    PaymentFollows(opening + [Paying(9, t)] + [Paying(1, u)], cap, limit, 10, two, two, 9, u);
    assert two + [Spend(u, 9)] == log;
  }

  // ---- The exact spans ----

  /** One run: the spends of `span` seconds are within a bound on the caps in force. */
  ghost predicate CapHolds(chain: Chain, w: World, trace: seq<Event>, cap: nat, first: int, span: int) {
    Initial(w) && Clocked(trace) && (forall i :: 0 <= i < |CapsOf(chain, w, trace)| ==> CapsOf(chain, w, trace)[i] <= cap) ==>
      SpentWithin(SpendsOf(chain, w, trace), first, span) <= cap
  }

  ghost predicate CapHoldsFor(span: int) {
    forall chain: Chain, w: World, trace: seq<Event>, cap: nat, first: int :: CapHolds(chain, w, trace, cap, first, span)
  }

  /** At whatever time: a run that breaks the cap from then on. */
  lemma CapIsOverrun(span: int, start: nat)
    requires span > 85_800
    ensures !CapHolds(CHAIN, Start(10), OverrunTrace(T.EPOCH_DURATION, T.NUM_EPOCHS, start, 0), 10, OverrunStart(T.EPOCH_DURATION, start), span)
  {
    hide After, SpendsOf, CapsOf, Initial, UnderMeter, OverrunTrace, Overrun, SpentWithin, Clocked;
    StartIsInitial(10);
    OverrunHappens(T.EPOCH_DURATION, T.NUM_EPOCHS, start, 10, 0);
    OverrunTotal(T.EPOCH_DURATION, T.NUM_EPOCHS, start, span);
  }

  /** The daily cap holds in every run of the program over exactly the spans up to 23 h 50 min. */
  lemma CapHoldsExactly(span: int)
    ensures CapHoldsFor(span) <==> span <= 85_800
  {
    if span <= 85_800 {
      forall chain: Chain, w: World, trace: seq<Event>, cap: nat, first: int
        ensures CapHolds(chain, w, trace, cap, first, span)
      {
        hide SpendsOf, CapsOf, Initial, Clocked, SpentWithin;
        if Initial(w) && Clocked(trace) && forall i :: 0 <= i < |CapsOf(chain, w, trace)| ==> CapsOf(chain, w, trace)[i] <= cap {
          DailyCapHoldsForSeconds(chain, w, trace, cap, first, span);
        }
      }
    } else {
      hide CapHolds;
      CapIsOverrun(span, 0);
    }
  }

  ghost predicate LimitsWithin(limits: seq<nat>, limit: nat) {
    forall i :: 0 <= i < |limits| ==> 0 < limits[i] <= limit
  }

  /** One run: what an agent spends in `span` seconds, since it got its slot, is within a bound on
      its limits, if it always had one. */
  ghost predicate LimitHolds(chain: Chain, w: World, trace: seq<Event>, agent: Key, limit: nat, first: int, span: int) {
    Initial(w) && Clocked(trace) && agent != DEFAULT_KEY && LimitsWithin(AgentLimits(chain, w, trace, agent), limit) ==>
      SpentWithin(AgentSpends(chain, w, trace, agent), first, span) <= limit
  }

  ghost predicate LimitHoldsFor(span: int) {
    forall chain: Chain, w: World, trace: seq<Event>, agent: Key, limit: nat, first: int ::
      LimitHolds(chain, w, trace, agent, limit, first, span)
  }

  /** At whatever time: a run that breaks the agent's limit from then on. */
  lemma LimitIsOverrun(span: int, start: nat)
    requires span > 82_800
    ensures !LimitHolds(CHAIN, Start(FUNDS), OverrunTrace(O.OVERLAY_EPOCH_DURATION, O.OVERLAY_NUM_EPOCHS, start, 10), AGENT, 10,
                        OverrunStart(O.OVERLAY_EPOCH_DURATION, start), span)
  {
    hide After, AgentSpends, AgentLimits, Initial, UnderMeter, OverrunTrace, Overrun, SpentWithin, Clocked;
    StartIsInitial(FUNDS);
    OverrunHappens(O.OVERLAY_EPOCH_DURATION, O.OVERLAY_NUM_EPOCHS, start, FUNDS, 10);
    OverrunTotal(O.OVERLAY_EPOCH_DURATION, O.OVERLAY_NUM_EPOCHS, start, span);
  }

  /** An agent's limit holds in every run over exactly the spans up to 23 h. */
  lemma LimitHoldsExactly(span: int)
    ensures LimitHoldsFor(span) <==> span <= 82_800
  {
    if span <= 82_800 {
      forall chain: Chain, w: World, trace: seq<Event>, agent: Key, limit: nat, first: int
        ensures LimitHolds(chain, w, trace, agent, limit, first, span)
      {
        hide AgentSpends, AgentLimits, Initial, Clocked, SpentWithin;
        if Initial(w) && Clocked(trace) && agent != DEFAULT_KEY && LimitsWithin(AgentLimits(chain, w, trace, agent), limit) {
          AgentLimitHoldsForSeconds(chain, w, trace, agent, limit, first, span);
        }
      }
    } else {
      hide LimitHolds;
      LimitIsOverrun(span, 0);
    }
  }

  // ---- The run that starts a meter afresh ----

  lemma RevokedState(w: World, cap: nat, limit: nat, spent: nat, log: seq<Spend>, own: seq<Spend>)
    requires UnderMeter(w, cap, limit, spent, log, own) && SlotsHeld(w.vault.agents, w.overlay)
    ensures var r := RevokeStep(w, AGENT);
            && r == Ok(w.(vault := w.vault.(agents := RemoveAgent(w.vault.agents, AGENT)),
                          overlay := w.overlay[0 := O.Fresh(DEFAULT_KEY)]))
            && O.FindSlot(r.value.overlay, AGENT).None? && FindAgent(r.value.vault.agents, OTHER).Some?
  {
    FirstSlot(w.overlay, AGENT);
    FirstSlot(w.overlay[0 := O.Fresh(DEFAULT_KEY)], AGENT);
    var rest, other := RemoveAgent(w.vault.agents, AGENT), FindAgent(w.vault.agents, OTHER).value;
    assert other in rest;
    var j :| 0 <= j < |rest| && rest[j] == other;
    hide T.Tracks, O.Tracks, O.FindSlot;
  }

  lemma ReturnedState(w: World, cap: nat, limit: nat, spent: nat, log: seq<Spend>, own: seq<Spend>)
    requires UnderMeter(w, cap, limit, spent, log, own) && SlotsHeld(w.vault.agents, w.overlay)
    ensures RevokeStep(w, AGENT).Ok?
    ensures var r := RegisterStep(RevokeStep(w, AGENT).value, AGENT, CAPABILITY_OPERATOR, limit);
            r.Ok? && UnderMeter(r.value, cap, limit, spent, log, [])
  {
    hide T.Tracks, O.Tracks, SlotsHeld;
    RevokedState(w, cap, limit, spent, log, own);
    RemoveShrinks(w.vault.agents, AGENT);
    var revoked, entry := RevokeStep(w, AGENT).value, AgentEntry(AGENT, CAPABILITY_OPERATOR, limit, false);
    hide RevokeStep, RemoveAgent;
    FirstSlot(revoked.overlay, DEFAULT_KEY);
    FirstSlot(revoked.overlay[0 := O.Fresh(AGENT)], AGENT);
    assert FindAgent(revoked.vault.agents, AGENT).None?;
    AppendedAgent(revoked.vault.agents, entry);
    O.FreshTracks(AGENT);
    hide O.FindSlot, FindAgent;
  }

  lemma AfterAppend(w: World, trace: seq<Event>, ev: Event)
    ensures After(CHAIN, w, trace + [ev]) == Attempt(CHAIN, After(CHAIN, w, trace), ev)
  {
    assert (trace + [ev])[..|trace|] == trace;
  }

  lemma ReturnIsUnspent(w: World, trace: seq<Event>, cap: nat, limit: nat, log: seq<Spend>, own: seq<Spend>, gone: Event, back: Event)
    requires Spent(w, trace, cap, limit, log, own) && !gone.op.AgentTransfer? && !back.op.AgentTransfer?
    requires O.FindSlot(After(CHAIN, w, trace + [gone]).overlay, AGENT).None?
    requires O.FindSlot(After(CHAIN, w, trace + [gone] + [back]).overlay, AGENT).Some?
    ensures Spent(w, trace + [gone] + [back], cap, limit, log, [])
  {
    hide After, SpendsOf, CapsOf, OwnSpends, OwnLimits, AgentSpends, AgentLimits, O.FindSlot;
    NotSpent(w, trace, gone);
    NotSpent(w, trace + [gone], back);
  }

  /** Revoking an agent and registering it again empties its meter: its own log starts anew. */
  lemma ReturnForgets(trace: seq<Event>, cap: nat, limit: nat, spent: nat, log: seq<Spend>, own: seq<Spend>, t: int)
    requires Reached(trace, cap, limit, spent, log, own)
    ensures Reached(trace + [At(Revoke(AGENT), t)] + [At(Register(AGENT, CAPABILITY_OPERATOR, limit), t)], cap, limit, spent, log, [])
  {
    hide After, Spent, Start, SlotsHeld, RevokeStep, RegisterStep, Initial, UnderMeter, Exec, O.FindSlot, FindAgent, RemoveAgent;
    var w0, gone, back := Start(cap), At(Revoke(AGENT), t), At(Register(AGENT, CAPABILITY_OPERATOR, limit), t);
    var w := After(CHAIN, w0, trace);
    StartIsInitial(cap);
    ReachableSlots(CHAIN, w0, trace);
    RevokedState(w, cap, limit, spent, log, own);
    ReturnedState(w, cap, limit, spent, log, own);
    AfterAppend(w0, trace, gone);
    AfterAppend(w0, trace + [gone], back);
    MembershipAttempts(w, limit, t);
    SlotOf(After(CHAIN, w0, trace + [gone] + [back]), cap, limit, spent, log, []);
    ReturnIsUnspent(w0, trace, cap, limit, log, own, gone, back);
  }

  lemma MembershipAttempts(w: World, limit: nat, t: int)
    requires RevokeStep(w, AGENT).Ok? && RegisterStep(RevokeStep(w, AGENT).value, AGENT, CAPABILITY_OPERATOR, limit).Ok?
    ensures Attempt(CHAIN, w, At(Revoke(AGENT), t)) == RevokeStep(w, AGENT).value
    ensures Attempt(CHAIN, RevokeStep(w, AGENT).value, At(Register(AGENT, CAPABILITY_OPERATOR, limit), t)) ==
            RegisterStep(RevokeStep(w, AGENT).value, AGENT, CAPABILITY_OPERATOR, limit).value
  {
    hide RevokeStep, RegisterStep;
  }

  lemma SlotOf(w: World, cap: nat, limit: nat, spent: nat, log: seq<Spend>, own: seq<Spend>)
    requires UnderMeter(w, cap, limit, spent, log, own)
    ensures O.FindSlot(w.overlay, AGENT).Some?
  {
  }

  ghost function ResetTrace(t: int): seq<Event> {
    Opening(10, t) + [Paying(9, t)] + [At(Revoke(AGENT), t)] + [At(Register(AGENT, CAPABILITY_OPERATOR, 10), t)] + [Paying(9, t)]
  }

  lemma ResetIsReached(t: int)
    requires t > 0
    ensures Reached(ResetTrace(t), FUNDS, 10, 18, [Spend(t, 9)] + [Spend(t, 9)], [Spend(t, 9)])
  {
    hide Metered, Reached;
    var start, one := Opening(10, t), [Spend(t, 9)];
    OpeningIsReached(FUNDS, 10, t);
    NothingMetered(t);
    PaymentFollows(start, FUNDS, 10, 0, [], [], 9, t);
    assert [] + one == one;
    ReturnForgets(start + [Paying(9, t)], FUNDS, 10, 9, one, one, t);
    OtherMeterHasRoom(one, T.EPOCH_DURATION, T.NUM_EPOCHS, t);
    PaymentFollows(start + [Paying(9, t)] + [At(Revoke(AGENT), t)] + [At(Register(AGENT, CAPABILITY_OPERATOR, 10), t)],
      FUNDS, 10, 9, one, [], 9, t);
  }

  /** Under a limit of 10 throughout, an agent that is revoked and registered again in between
      spends 18 in one second. */
  lemma ReturningAgentOverspends(t: int)
    requires t > 0
    ensures Initial(Start(FUNDS)) && Clocked(ResetTrace(t))
    ensures OwnLimits(CHAIN, Start(FUNDS), ResetTrace(t), AGENT) == [10, 10]
    ensures SpentWithin(OwnSpends(CHAIN, Start(FUNDS), ResetTrace(t), AGENT), t, 0) == 18
  {
    hide After, OwnSpends, OwnLimits, SpendsOf, CapsOf, AgentSpends, AgentLimits, UnderMeter, Initial, Start;
    StartIsInitial(FUNDS);
    ResetIsReached(t);
    var one, second := [Spend(t, 9)], Interval(t, t);
    SpentInAppend([], Spend(t, 9), second);
    SpentInAppend(one, Spend(t, 9), second);
    assert [] + one == one;
    assert seq(2, _ => 10 as nat) == [10, 10];
  }

  lemma NothingMetered(t: int)
    ensures Metered([], T.EPOCH_DURATION, T.NUM_EPOCHS, t) == 0 && Metered([], O.OVERLAY_EPOCH_DURATION, O.OVERLAY_NUM_EPOCHS, t) == 0
  {
    O.MeteredBetweenTotals([], T.EPOCH_DURATION, T.NUM_EPOCHS, t);
    O.MeteredBetweenTotals([], O.OVERLAY_EPOCH_DURATION, O.OVERLAY_NUM_EPOCHS, t);
  }
}
