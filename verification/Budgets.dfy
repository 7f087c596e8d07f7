/** The client's budget resolvers, and how far their figures predict the program's decision. */
module Budgets {
  import opened Common
  import opened SpendLog
  import opened Metering
  import opened Program
  import opened Frames
  import opened Governance
  import opened OverlaySlots
  import opened SpendingRuns
  import T = SpendTracking
  import O = AgentOverlay

  datatype EffectiveBudget = EffectiveBudget(spent24h: nat, cap: nat, remaining: nat)

  function BudgetOf(spent: nat, cap: nat): EffectiveBudget {
    EffectiveBudget(spent, cap, if cap > spent then cap - spent else 0)
  }

  /** What the agent's slot reads; nothing without an overlay or a slot. */
  function SpentBy(overlay: Option<O.Entries>, agent: Key, now: int): nat {
    if overlay.None? then 0
    else
      var slot := O.FindSlot(overlay.value, agent);
      if slot.None? then 0 else O.Reading(overlay.value[slot.value], now)
  }

  /** The limit of the first entry with this key, as a find sees it; 0 is no limit. */
  function FirstLimit(agents: seq<AgentEntry>, agent: Key): nat {
    var entry := FindAgent(agents, agent);
    if entry.None? then 0 else entry.value.spendingLimitUsd
  }

  /** The last positive limit among the entries with this key, as a pass over all sees it. */
  function LastLimit(agents: seq<AgentEntry>, agent: Key): nat {
    if agents == [] then 0
    else
      var last := agents[|agents| - 1];
      if last.pubkey == agent && last.spendingLimitUsd > 0 then last.spendingLimitUsd
      else LastLimit(agents[..|agents| - 1], agent)
  }

  function BudgetUnder(overlay: Option<O.Entries>, agent: Key, limit: nat, now: int): Option<EffectiveBudget> {
    if limit == 0 then None else Some(BudgetOf(SpentBy(overlay, agent, now), limit))
  }

  function FindEntry(overlay: O.Entries, agent: Key): Option<O.Entry> {
    var slot := O.FindSlot(overlay, agent);
    if slot.None? then None else Some(overlay[slot.value])
  }

  /** One agent's budget as both resolvers build it from an overlay entry. */
  method EntryBudget(overlay: Option<O.Entries>, agent: Key, cap: nat, now: int) returns (b: EffectiveBudget)
    requires overlay.Some? ==> forall i :: 0 <= i < |overlay.value| ==> O.WellFormed(overlay.value[i])
    ensures b == BudgetOf(SpentBy(overlay, agent, now), cap)
  {
    if overlay.Some? {
      var entry := FindEntry(overlay.value, agent);
      if entry.Some? {
        var spent := O.AgentSpendOverlay.MirrorAgentRolling24hUsd(entry.value, now);
        return EffectiveBudget(spent, cap, if cap > spent then cap - spent else 0);
      }
    }
    return EffectiveBudget(0, cap, cap);
  }

  /** The vault's budget; without a tracker account nothing counts as spent. */
  function GlobalBudget(tracker: Option<T.Tracker>, cap: nat, now: int): EffectiveBudget {
    BudgetOf(if tracker.None? then 0 else T.Reading(tracker.value, now), cap)
  }

  ghost function TrackerValue(tracker: T.SpendTracker?): Option<T.Tracker>
    requires tracker != null ==> tracker.Valid()
    reads tracker, if tracker != null then {tracker.buckets} else {}
  {
    if tracker == null then None else Some(tracker.Value())
  }

  /** The global part, which both resolvers build alike. */
  method ResolveGlobal(tracker: T.SpendTracker?, cap: nat, now: int) returns (b: EffectiveBudget)
    requires tracker != null ==> tracker.Valid()
    ensures b == GlobalBudget(TrackerValue(tracker), cap, now)
  {
    var spent := 0;
    if tracker != null {
      spent := tracker.MirrorRolling24hUsd(now);
    }
    b := EffectiveBudget(spent, cap, if cap > spent then cap - spent else 0);
  }

  // ---- Per-protocol budgets ----

  datatype ProtocolCounter = ProtocolCounter(protocol: Key, windowStart: int, windowSpend: nat)
  datatype ProtocolBudget = ProtocolBudget(protocol: Key, budget: EffectiveBudget)

  function CounterOf(counters: seq<ProtocolCounter>, protocol: Key): (r: Option<ProtocolCounter>)
    ensures r.Some? ==> r.value in counters && r.value.protocol == protocol
    ensures r.None? <==> forall i :: 0 <= i < |counters| ==> counters[i].protocol != protocol
  {
    if counters == [] then None
    else if counters[0].protocol == protocol then Some(counters[0])
    else CounterOf(counters[1..], protocol)
  }

  /** What a counter shows until its window of 144 epochs is over. */
  function ProtocolSpend(counters: seq<ProtocolCounter>, protocol: Key, now: int): nat {
    var counter := CounterOf(counters, protocol);
    if now > 0 && counter.Some? && EpochAt(now, T.EPOCH_DURATION) - counter.value.windowStart < T.NUM_EPOCHS
    then counter.value.windowSpend else 0
  }

  method GetProtocolSpend(counters: seq<ProtocolCounter>, protocol: Key, now: int) returns (spent: nat)
    ensures spent == ProtocolSpend(counters, protocol, now)
  {
    if now <= 0 {
      return 0;
    }
    var currentEpoch, i := now / T.EPOCH_DURATION, 0;
    while i < |counters|
      invariant 0 <= i <= |counters|
      invariant CounterOf(counters, protocol) == CounterOf(counters[i..], protocol)
    {
      if counters[i].protocol == protocol {
        return if currentEpoch - counters[i].windowStart < T.NUM_EPOCHS then counters[i].windowSpend else 0;
      }
      assert counters[i..][1..] == counters[i + 1..];
      i := i + 1;
    }
    return 0;
  }

  /** The protocols with a positive cap, in order, each with its own budget. */
  function ProtocolBudgets(protocols: seq<Key>, caps: seq<nat>, counters: seq<ProtocolCounter>, now: int): seq<ProtocolBudget> {
    if protocols == [] then []
    else
      var k := |protocols| - 1;
      ProtocolBudgets(protocols[..k], caps, counters, now) +
      if k >= |caps| || caps[k] == 0 then []
      else [ProtocolBudget(protocols[k], BudgetOf(ProtocolSpend(counters, protocols[k], now), caps[k]))]
  }

  method ResolveProtocols(policy: Policy, counters: Option<seq<ProtocolCounter>>, now: int) returns (budgets: seq<ProtocolBudget>)
    ensures budgets == if policy.hasProtocolCaps && counters.Some?
                       then ProtocolBudgets(policy.protocols, policy.protocolCaps, counters.value, now) else []
  {
    budgets := [];
    if policy.hasProtocolCaps && counters.Some? {
      for i := 0 to |policy.protocols|
        invariant budgets == ProtocolBudgets(policy.protocols[..i], policy.protocolCaps, counters.value, now)
      {
        assert policy.protocols[..i + 1][..i] == policy.protocols[..i];
        if i >= |policy.protocolCaps| || policy.protocolCaps[i] == 0 {
          continue;
        }
        var cap := policy.protocolCaps[i];
        var spent := GetProtocolSpend(counters.value, policy.protocols[i], now);
        budgets := budgets + [ProtocolBudget(policy.protocols[i], EffectiveBudget(spent, cap, if cap > spent then cap - spent else 0))];
      }
      assert policy.protocols[..|policy.protocols|] == policy.protocols;
    }
  }

  /** In seconds: a counter counts from its window's start for 144 epochs of 600 s, and then no more. */
  lemma ProtocolSpendExactly(counters: seq<ProtocolCounter>, protocol: Key, now: int, i: nat)
    requires i < |counters| && counters[i].protocol == protocol && forall j :: 0 <= j < i ==> counters[j].protocol != protocol
    ensures ProtocolSpend(counters, protocol, now) ==
            if 0 < now < (counters[i].windowStart + 144) * 600 then counters[i].windowSpend else 0
  {
    FirstCounter(counters, protocol, i);
  }

  lemma {:induction false} FirstCounter(counters: seq<ProtocolCounter>, protocol: Key, i: nat)
    requires i < |counters| && counters[i].protocol == protocol && forall j :: 0 <= j < i ==> counters[j].protocol != protocol
    ensures CounterOf(counters, protocol) == Some(counters[i])
  {
    if i > 0 {
      FirstCounter(counters[1..], protocol, i - 1);
    }
  }

  lemma NoCounterNoSpend(counters: seq<ProtocolCounter>, protocol: Key, now: int)
    requires forall i :: 0 <= i < |counters| ==> counters[i].protocol != protocol
    ensures ProtocolSpend(counters, protocol, now) == 0
  {
  }

  function Positives(caps: seq<nat>, n: nat): nat {
    if n == 0 then 0 else Positives(caps, n - 1) + if n <= |caps| && caps[n - 1] > 0 then 1 else 0
  }

  /** One budget for each protocol with a positive cap, at the place of that cap among the positive ones. */
  lemma {:induction false} ProtocolBudgetsExactly(protocols: seq<Key>, caps: seq<nat>, counters: seq<ProtocolCounter>, now: int, i: nat)
    requires i < |protocols| && i < |caps| && caps[i] > 0
    ensures |ProtocolBudgets(protocols, caps, counters, now)| == Positives(caps, |protocols|) > Positives(caps, i)
    ensures ProtocolBudgets(protocols, caps, counters, now)[Positives(caps, i)] ==
            ProtocolBudget(protocols[i], BudgetOf(ProtocolSpend(counters, protocols[i], now), caps[i]))
  {
    hide ProtocolSpend, BudgetOf;
    var k := |protocols| - 1;
    BudgetCount(protocols[..k], caps, counters, now);
    if i < k {
      ProtocolBudgetsExactly(protocols[..k], caps, counters, now, i);
    }
  }

  lemma {:induction false} BudgetCount(protocols: seq<Key>, caps: seq<nat>, counters: seq<ProtocolCounter>, now: int)
    ensures |ProtocolBudgets(protocols, caps, counters, now)| == Positives(caps, |protocols|)
  {
    hide ProtocolSpend, BudgetOf;
    if protocols != [] {
      BudgetCount(protocols[..|protocols| - 1], caps, counters, now);
    }
  }

  lemma {:induction false} NoCapsMissing(protocols: seq<Key>, caps: seq<nat>, counters: seq<ProtocolCounter>, now: int)
    requires |caps| >= |protocols|
    ensures |ProtocolBudgets(protocols, caps, counters, now)| <= |protocols|
    ensures (forall i :: 0 <= i < |protocols| ==> caps[i] > 0) ==>
              && |ProtocolBudgets(protocols, caps, counters, now)| == |protocols|
              && forall i :: 0 <= i < |protocols| ==>
                   ProtocolBudgets(protocols, caps, counters, now)[i] ==
                   ProtocolBudget(protocols[i], BudgetOf(ProtocolSpend(counters, protocols[i], now), caps[i]))
  {
    hide ProtocolSpend;
    if protocols != [] {
      NoCapsMissing(protocols[..|protocols| - 1], caps, counters, now);
    }
  }

  /** In every reachable state the policy's caps match its protocols, so when all are positive every
      protocol gets exactly one budget, in order. */
  lemma EveryProtocolIsBudgeted(chain: Chain, w: World, trace: seq<Event>, counters: seq<ProtocolCounter>, now: int, i: nat)
    requires Initial(w)
    requires var p := After(chain, w, trace).policy;
             p.hasProtocolCaps && i < |p.protocols| && forall c :: c in p.protocolCaps ==> c > 0
    ensures var p := After(chain, w, trace).policy;
            var budgets := ProtocolBudgets(p.protocols, p.protocolCaps, counters, now);
            && |budgets| == |p.protocols| == |p.protocolCaps|
            && budgets[i] == ProtocolBudget(p.protocols[i], BudgetOf(ProtocolSpend(counters, p.protocols[i], now), p.protocolCaps[i]))
  {
    hide After, ProtocolSpend, Initial, LawfulAgents, LegalUpdate;
    ReachableIsLawful(chain, w, trace);
    var p := After(chain, w, trace).policy;
    assert |p.protocols| == |p.protocolCaps|;
    hide LegalPolicy, Lawful, ProtocolBudgets;
    assert forall j :: 0 <= j < |p.protocols| ==> p.protocolCaps[j] in p.protocolCaps;
    NoCapsMissing(p.protocols, p.protocolCaps, counters, now);
  }

  /** The full resolver: the vault's budget, one pass over all agents, one over the protocols. */
  method ResolveAll(tracker: T.SpendTracker?, counters: seq<ProtocolCounter>, policy: Policy, agents: seq<AgentEntry>,
                    overlay: Option<O.Entries>, agent: Key, now: int)
    returns (globalBudget: EffectiveBudget, agentBudget: Option<EffectiveBudget>, all: map<Key, EffectiveBudget>,
             protocolBudgets: seq<ProtocolBudget>)
    requires tracker != null ==> tracker.Valid()
    requires overlay.Some? ==> forall i :: 0 <= i < |overlay.value| ==> O.WellFormed(overlay.value[i])
    ensures (globalBudget, agentBudget) == FullFigures(TrackerValue(tracker), policy.dailySpendingCapUsd, agents, overlay, agent, now)
    ensures protocolBudgets == if policy.hasProtocolCaps && tracker != null
                               then ProtocolBudgets(policy.protocols, policy.protocolCaps, counters, now) else []
    ensures forall key :: (key in all <==> LastLimit(agents, key) > 0)
                       && (key in all ==> Some(all[key]) == BudgetUnder(overlay, key, LastLimit(agents, key), now))
  {
    globalBudget := ResolveGlobal(tracker, policy.dailySpendingCapUsd, now);
    agentBudget, all := None, map[];
    for i := 0 to |agents|
      invariant agentBudget == BudgetUnder(overlay, agent, LastLimit(agents[..i], agent), now)
      invariant forall key :: (key in all <==> LastLimit(agents[..i], key) > 0)
                           && (key in all ==> Some(all[key]) == BudgetUnder(overlay, key, LastLimit(agents[..i], key), now))
    {
      var entry := agents[i];
      assert agents[..i + 1][..i] == agents[..i];
      if entry.spendingLimitUsd == 0 {
        continue;
      }
      var budget := EntryBudget(overlay, entry.pubkey, entry.spendingLimitUsd, now);
      all := all[entry.pubkey := budget];
      if entry.pubkey == agent {
        agentBudget := Some(budget);
      }
    }
    assert agents[..|agents|] == agents;
    protocolBudgets := ResolveProtocols(policy, if tracker != null then Some(counters) else None, now);
  }

  /** The budget-only resolver: the vault's budget, and the first entry with the agent's key. */
  method ResolveBudget(tracker: T.SpendTracker?, cap: nat, agents: seq<AgentEntry>, overlay: Option<O.Entries>, agent: Key, now: int)
    returns (globalBudget: EffectiveBudget, agentBudget: Option<EffectiveBudget>)
    requires tracker != null ==> tracker.Valid()
    requires overlay.Some? ==> forall i :: 0 <= i < |overlay.value| ==> O.WellFormed(overlay.value[i])
    ensures (globalBudget, agentBudget) == QuickFigures(TrackerValue(tracker), cap, agents, overlay, agent, now)
  {
    globalBudget := ResolveGlobal(tracker, cap, now);
    var entry := FindAgent(agents, agent);
    if entry.None? || entry.value.spendingLimitUsd == 0 {
      agentBudget := None;
      return;
    }
    var budget := EntryBudget(overlay, agent, entry.value.spendingLimitUsd, now);
    agentBudget := Some(budget);
  }

  type Figures = (EffectiveBudget, Option<EffectiveBudget>)

  function FullFigures(tracker: Option<T.Tracker>, cap: nat, agents: seq<AgentEntry>, overlay: Option<O.Entries>, agent: Key, now: int): Figures {
    (GlobalBudget(tracker, cap, now), BudgetUnder(overlay, agent, LastLimit(agents, agent), now))
  }

  function QuickFigures(tracker: Option<T.Tracker>, cap: nat, agents: seq<AgentEntry>, overlay: Option<O.Entries>, agent: Key, now: int): Figures {
    (GlobalBudget(tracker, cap, now), BudgetUnder(overlay, agent, FirstLimit(agents, agent), now))
  }

  /** Entry j is the agent's last one with a limit. */
  ghost predicate LastLimited(agents: seq<AgentEntry>, agent: Key, j: int) {
    && 0 <= j < |agents| && agents[j].pubkey == agent && agents[j].spendingLimitUsd > 0
    && forall l :: j < l < |agents| && agents[l].pubkey == agent ==> agents[l].spendingLimitUsd == 0
  }

  lemma {:induction false} LastLimitIsLast(agents: seq<AgentEntry>, agent: Key)
    ensures LastLimit(agents, agent) > 0 ==> exists j :: LastLimited(agents, agent, j)
    ensures forall j :: LastLimited(agents, agent, j) ==> LastLimit(agents, agent) == agents[j].spendingLimitUsd
    ensures LastLimit(agents, agent) == 0 ==> forall i :: 0 <= i < |agents| && agents[i].pubkey == agent ==> agents[i].spendingLimitUsd == 0
  {
    if agents != [] {
      var k := |agents| - 1;
      LastLimitIsLast(agents[..k], agent);
      if agents[k].pubkey == agent && agents[k].spendingLimitUsd > 0 {
        assert LastLimited(agents, agent, k);
      } else {
        forall j | 0 <= j < k
          ensures LastLimited(agents, agent, j) <==> LastLimited(agents[..k], agent, j)
        {
        }
      }
    }
  }

  /** The two resolvers report the same figures, whatever was spent, exactly when the agent's last
      entry with a limit, if any, has the limit of its first entry. */
  lemma ResolversAgreeExactly(tracker: Option<T.Tracker>, cap: nat, agents: seq<AgentEntry>, overlay: Option<O.Entries>, agent: Key, now: int)
    ensures FullFigures(tracker, cap, agents, overlay, agent, now) == QuickFigures(tracker, cap, agents, overlay, agent, now) <==>
            forall j :: LastLimited(agents, agent, j) ==> agents[j].spendingLimitUsd == FirstLimit(agents, agent)
  {
    LastLimitIsLast(agents, agent);
    hide FindAgent, LastLimit, SpentBy, GlobalBudget;
  }

  /** With distinct keys both see the same limit. */
  lemma {:induction false} DistinctKeysAgree(agents: seq<AgentEntry>, agent: Key)
    requires forall i, j :: 0 <= i < j < |agents| ==> agents[i].pubkey != agents[j].pubkey
    ensures FirstLimit(agents, agent) == LastLimit(agents, agent)
  {
    if agents != [] {
      var k := |agents| - 1;
      DistinctKeysAgree(agents[..k], agent);
      assert agents == agents[..k] + [agents[k]];
      assert FindAgent(agents[..k], agents[k].pubkey).None?;
      AppendedAgent(agents[..k], agents[k]);
    }
  }

  /** In every reachable state the two resolvers agree on every agent. */
  lemma ResolversAgreeWhenReachable(chain: Chain, w: World, trace: seq<Event>, agent: Key, now: int)
    requires Initial(w)
    ensures var s := After(chain, w, trace);
            FullFigures(Some(s.tracker), s.policy.dailySpendingCapUsd, s.vault.agents, Some(s.overlay), agent, now) ==
            QuickFigures(Some(s.tracker), s.policy.dailySpendingCapUsd, s.vault.agents, Some(s.overlay), agent, now)
  {
    ReachableSlots(chain, w, trace);
    hide After, Exec;
    DistinctKeysAgree(After(chain, w, trace).vault.agents, agent);
  }

  // ---- What the figures promise ----

  lemma RemainingIsRoom(reading: nat, usd: nat, cap: nat, exceeded: Error)
    requires usd > 0 && cap <= U64_MAX
    ensures WithinCap(reading, usd, cap, exceeded).Ok? <==> usd <= BudgetOf(reading, cap).remaining
  {
  }

  /** In a reachable state, no meter has been written after the last instruction. */
  lemma MetersAreNotAhead(chain: Chain, w: World, trace: seq<Event>, agent: Key, t: int)
    requires Initial(w) && Clocked(trace) && agent != DEFAULT_KEY && t > 0 && LastTime(trace) <= t
    ensures var s := After(chain, w, trace);
            && (forall i :: 0 <= i < T.NUM_EPOCHS ==> s.tracker.buckets[i].epochId <= EpochAt(t, T.EPOCH_DURATION))
            && (O.FindSlot(s.overlay, agent).Some? ==>
                  s.overlay[O.FindSlot(s.overlay, agent).value].lastWriteEpoch <= EpochAt(t, O.OVERLAY_EPOCH_DURATION))
  {
    MeteredRun(chain, w, trace);
    MeteredAgentRun(chain, w, trace, agent);
    var s, log, own := After(chain, w, trace), SpendsOf(chain, w, trace), AgentSpends(chain, w, trace, agent);
    hide After, SpendsOf, CapsOf, AgentSpends, AgentLimits, Admitted, AdmittedIfLimited, O.FindSlot;
    EpochMonotone(0, t, T.EPOCH_DURATION);
    EpochMonotone(0, t, O.OVERLAY_EPOCH_DURATION);
    if log != [] {
      EpochMonotone(log[|log| - 1].time, t, T.EPOCH_DURATION);
    }
    if own != [] {
      EpochMonotone(own[|own| - 1].time, t, O.OVERLAY_EPOCH_DURATION);
    }
    forall i | 0 <= i < T.NUM_EPOCHS
      ensures s.tracker.buckets[i].epochId <= EpochAt(t, T.EPOCH_DURATION)
    {
      assert T.SlotHolds(s.tracker.buckets[i], i, log);
    }
  }

  /** The program's two meter checks of a spend by this agent. */
  ghost predicate Admits(s: World, agent: Key, usd: nat, now: int) {
    && WithinCap(T.Reading(s.tracker, now), usd, s.policy.dailySpendingCapUsd, SpendingCapExceeded).Ok?
    && (FirstLimit(s.vault.agents, agent) > 0 ==>
          && O.FindSlot(s.overlay, agent).Some?
          && WithinCap(O.Reading(s.overlay[O.FindSlot(s.overlay, agent).value], now), usd, FirstLimit(s.vault.agents, agent),
                       AgentSpendLimitExceeded).Ok?)
  }

  /** A spend is within both remaining figures. */
  ghost predicate Affords(s: World, agent: Key, usd: nat, now: int) {
    var (vault, own) := QuickFigures(Some(s.tracker), s.policy.dailySpendingCapUsd, s.vault.agents, Some(s.overlay), agent, now);
    usd <= vault.remaining && (own.Some? ==> usd <= own.value.remaining)
  }

  lemma AffordsExactly(s: World, agent: Key, usd: nat, now: int)
    requires SlotsHeld(s.vault.agents, s.overlay) && usd > 0
    requires s.policy.dailySpendingCapUsd <= U64_MAX && FirstLimit(s.vault.agents, agent) <= U64_MAX
    ensures Affords(s, agent, usd, now) <==> Admits(s, agent, usd, now)
  {
    hide T.Reading, O.Reading, O.FindSlot, FindAgent, SlotsHeld, BudgetOf, WithinCap;
    var limit := FirstLimit(s.vault.agents, agent);
    RemainingIsRoom(T.Reading(s.tracker, now), usd, s.policy.dailySpendingCapUsd, SpendingCapExceeded);
    if limit > 0 {
      LimitedAgentsHaveSlots(s.vault.agents, s.overlay, agent);
      FirstSlot(s.overlay, agent);
      RemainingIsRoom(O.Reading(s.overlay[O.FindSlot(s.overlay, agent).value], now), usd, limit, AgentSpendLimitExceeded);
    }
  }

  /** Instructions that touch neither the meters, the caps nor the agents. */
  predicate Quiet(op: Op) {
    !op.AgentTransfer? && !ChangesAgents(op) && !ChangesPolicy(op)
  }

  lemma {:induction false} QuietRun(chain: Chain, w: World, trace: seq<Event>)
    requires forall i :: 0 <= i < |trace| && Succeeds(chain, w, trace, i) ==> Quiet(trace[i].op)
    ensures var s := After(chain, w, trace);
            && s.tracker == w.tracker && s.overlay == w.overlay && s.vault.agents == w.vault.agents
            && s.policy.dailySpendingCapUsd == w.policy.dailySpendingCapUsd
  {
    hide Exec;
    if trace != [] {
      var k := |trace| - 1;
      forall i | 0 <= i < k && Succeeds(chain, w, trace[..k], i)
        ensures Quiet(trace[..k][i].op)
      {
        assert trace[..k][..i] == trace[..i];
      }
      QuietRun(chain, w, trace[..k]);
      if Succeeds(chain, w, trace, k) {
        NonTransferFrames(chain, After(chain, w, trace[..k]), trace[k]);
      }
    }
  }

  /** What the client's figures promise. In any reachable state, and at any time since: a positive
      spend is within both remaining figures exactly when it passes both meter checks of the
      program then; and once it is, it passes them at every later time, whatever instructions
      that touch neither meters, caps nor agents come in between. */
  lemma RemainingPredictsAdmission(chain: Chain, w: World, trace: seq<Event>, rest: seq<Event>, agent: Key, usd: nat, t: int, later: int)
    requires Initial(w) && Clocked(trace) && LastTime(trace) <= t && 0 < t <= later && usd > 0
    requires FindAgent(After(chain, w, trace).vault.agents, agent).Some?
    requires var s := After(chain, w, trace);
             s.policy.dailySpendingCapUsd <= U64_MAX && FirstLimit(s.vault.agents, agent) <= U64_MAX
    requires forall i :: 0 <= i < |rest| && Succeeds(chain, After(chain, w, trace), rest, i) ==> Quiet(rest[i].op)
    ensures var s, s' := After(chain, w, trace), After(chain, After(chain, w, trace), rest);
            && (Affords(s, agent, usd, t) <==> Admits(s, agent, usd, t))
            && (Affords(s, agent, usd, t) ==> Admits(s', agent, usd, later))
  {
    ReachableSlots(chain, w, trace);
    var s := After(chain, w, trace);
    QuietRun(chain, s, rest);
    hide After, Succeeds, O.FindSlot, T.Reading, O.Reading, FindAgent, SlotsHeld, Affords;
    LimitedAgentsHaveSlots(s.vault.agents, s.overlay, agent);
    MetersAreNotAhead(chain, w, trace, agent, t);
    AffordsExactly(s, agent, usd, t);
    T.ReadingDecays(s.tracker, t, later);
    var slot := O.FindSlot(s.overlay, agent);
    if slot.Some? {
      O.ReadingDecays(s.overlay[slot.value], t, later);
    }
  }
}
