/** Caps and limits over whole runs of the program: every instruction may occur, in any order,
    and the policy, the agents and their limits may change on the way. */
module SpendingRuns {
  import opened Common
  import opened SpendLog
  import opened Metering
  import opened Program
  import opened Frames
  import opened OverlaySlots
  import T = SpendTracking
  import O = AgentOverlay

  predicate Spends(chain: Chain, w: World, ev: Event) {
    ev.op.AgentTransfer? && Exec(chain, w, ev).Ok?
  }

  /** The USD a successful transfer is metered at. */
  function SpendOf(chain: Chain, w: World, ev: Event): Spend
    requires Spends(chain, w, ev)
  {
    TransferUsd(chain, w, ev.op.transfer, ev.clock);
    Spend(ev.clock.unixTimestamp, TransferChecks(chain, w.vault, w.policy, ev.op.transfer).value)
  }

  lemma TransferUsd(chain: Chain, w: World, a: Transfer, clock: Clock)
    requires TransferStep(chain, w, a, clock).Ok?
    ensures TransferChecks(chain, w.vault, w.policy, a).Ok?
  {
  }

  function LastState(chain: Chain, w: World, trace: seq<Event>): World
    requires trace != []
  {
    After(chain, w, trace[..|trace| - 1])
  }

  /** Every spend of the run, and the daily cap each was admitted under. */
  ghost function SpendsOf(chain: Chain, w: World, trace: seq<Event>): seq<Spend> {
    if trace == [] then []
    else
      var before, ev := LastState(chain, w, trace), trace[|trace| - 1];
      SpendsOf(chain, w, trace[..|trace| - 1]) + if Spends(chain, before, ev) then [SpendOf(chain, before, ev)] else []
  }

  ghost function CapsOf(chain: Chain, w: World, trace: seq<Event>): seq<nat> {
    if trace == [] then []
    else
      var before, ev := LastState(chain, w, trace), trace[|trace| - 1];
      CapsOf(chain, w, trace[..|trace| - 1]) +
      if Spends(chain, before, ev) then [Min(before.policy.dailySpendingCapUsd, U64_MAX)] else []
  }

  // ---- The vault's meter ----

  lemma TransferMeters(chain: Chain, w: World, a: Transfer, clock: Clock)
    requires TransferStep(chain, w, a, clock).Ok?
    ensures TransferChecks(chain, w.vault, w.policy, a).Ok? && clock.unixTimestamp > 0
    ensures var usd := TransferChecks(chain, w.vault, w.policy, a).value;
            && T.Reading(w.tracker, clock.unixTimestamp) + usd <= Min(w.policy.dailySpendingCapUsd, U64_MAX)
            && TransferStep(chain, w, a, clock).value.tracker == T.Recorded(w.tracker, clock.unixTimestamp, usd)
  {
    hide T.Reading, T.Recorded, O.Reading, O.Recorded, O.Recordable, MoveFunds;
  }

  lemma OnlyTransfersMeter(chain: Chain, w: World, ev: Event)
    requires Exec(chain, w, ev).Ok? && !ev.op.AgentTransfer?
    ensures Exec(chain, w, ev).value.tracker == w.tracker
  {
    hide Exec;
    NonTransferFrames(chain, w, ev);
  }

  ghost predicate MeteredUpTo(w: World, log: seq<Spend>, caps: seq<nat>, time: int) {
    && T.Tracks(w.tracker, log)
    && Admitted(log, caps, T.EPOCH_DURATION, T.NUM_EPOCHS)
    && (log != [] ==> log[|log| - 1].time <= time)
  }

  lemma AdmittedAppend(log: seq<Spend>, caps: seq<nat>, s: Spend, cap: nat, d: int, n: int)
    requires d > 0 && Admitted(log, caps, d, n) && cap <= U64_MAX
    requires Min(Metered(log, d, n, s.time), U64_MAX) + s.usd <= cap
    ensures Admitted(log + [s], caps + [cap], d, n)
  {
    hide Metered;
    assert (log + [s])[..|log|] == log && (caps + [cap])[..|caps|] == caps;
  }

  /** One transfer: admitted against the abstract meter of the whole history, and recorded. */
  lemma MeteredTransfer(chain: Chain, w: World, ev: Event, log: seq<Spend>, caps: seq<nat>, time: int)
    requires Spends(chain, w, ev) && MeteredUpTo(w, log, caps, time) && time <= ev.clock.unixTimestamp
    ensures MeteredUpTo(Exec(chain, w, ev).value, log + [SpendOf(chain, w, ev)],
                        caps + [Min(w.policy.dailySpendingCapUsd, U64_MAX)], ev.clock.unixTimestamp)
  {
    var now, s := ev.clock.unixTimestamp, SpendOf(chain, w, ev);
    TransferMeters(chain, w, ev.op.transfer, ev.clock);
    hide TransferStep, TransferChecks, T.Reading, T.Recorded, Metered, T.Tracks;
    T.ReadingIsMetered(w.tracker, log, now);
    T.RecordedTracks(w.tracker, log, now, s.usd);
    AdmittedAppend(log, caps, s, Min(w.policy.dailySpendingCapUsd, U64_MAX), T.EPOCH_DURATION, T.NUM_EPOCHS);
  }

  ghost function LastTime(trace: seq<Event>): int {
    if trace == [] then 0 else trace[|trace| - 1].clock.unixTimestamp
  }

  lemma MeteredStep(chain: Chain, w: World, ev: Event, log: seq<Spend>, caps: seq<nat>, time: int)
    requires MeteredUpTo(w, log, caps, time) && time <= ev.clock.unixTimestamp
    ensures MeteredUpTo(Attempt(chain, w, ev),
                        log + (if Spends(chain, w, ev) then [SpendOf(chain, w, ev)] else []),
                        caps + (if Spends(chain, w, ev) then [Min(w.policy.dailySpendingCapUsd, U64_MAX)] else []),
                        ev.clock.unixTimestamp)
  {
    if Spends(chain, w, ev) {
      MeteredTransfer(chain, w, ev, log, caps, time);
    } else {
      if Exec(chain, w, ev).Ok? {
        OnlyTransfersMeter(chain, w, ev);
      }
      hide Exec, T.Tracks, Admitted;
      assert log + [] == log && caps + [] == caps;
    }
  }

  lemma {:induction false} MeteredRun(chain: Chain, w: World, trace: seq<Event>)
    requires Initial(w) && Clocked(trace)
    ensures MeteredUpTo(After(chain, w, trace), SpendsOf(chain, w, trace), CapsOf(chain, w, trace), LastTime(trace))
  {
    if trace == [] {
      T.EmptyTracks();
    } else {
      var k := |trace| - 1;
      var before, ev := LastState(chain, w, trace), trace[k];
      var log, caps := SpendsOf(chain, w, trace[..k]), CapsOf(chain, w, trace[..k]);
      MeteredRun(chain, w, trace[..k]);
      assert k > 0 ==> LastTime(trace[..k]) == trace[k - 1].clock.unixTimestamp <= ev.clock.unixTimestamp;
      assert MeteredUpTo(before, log, caps, ev.clock.unixTimestamp) by {
        hide Exec, T.Tracks, Admitted;
      }
      hide Exec, Spends, SpendOf, MeteredUpTo;
      MeteredStep(chain, before, ev, log, caps, ev.clock.unixTimestamp);
    }
  }

  /** In every run, what any 144 consecutive ten-minute epochs record never exceeds the daily
      cap in force at the latest spend among them. */
  lemma DailyCapHolds(chain: Chain, w: World, trace: seq<Event>, epoch: int)
    requires Initial(w) && Clocked(trace)
    ensures |CapsOf(chain, w, trace)| == |SpendsOf(chain, w, trace)|
    ensures var window := Epochs(epoch - T.NUM_EPOCHS + 1, epoch, T.EPOCH_DURATION);
            SpentIn(SpendsOf(chain, w, trace), window) <=
            CapInForce(SpendsOf(chain, w, trace), CapsOf(chain, w, trace), window)
  {
    MeteredRun(chain, w, trace);
    WindowWithinCap(SpendsOf(chain, w, trace), CapsOf(chain, w, trace), T.EPOCH_DURATION, T.NUM_EPOCHS, epoch);
  }

  /** Under caps that never exceed `cap`, no 23 h 50 min of a run record more than `cap`. */
  lemma DailyCapHoldsForSeconds(chain: Chain, w: World, trace: seq<Event>, cap: nat, first: int, span: int)
    requires Initial(w) && Clocked(trace) && span <= 85_800
    requires forall i :: 0 <= i < |CapsOf(chain, w, trace)| ==> CapsOf(chain, w, trace)[i] <= cap
    ensures SpentWithin(SpendsOf(chain, w, trace), first, span) <= cap
  {
    MeteredRun(chain, w, trace);
    ShortSpanWithinCap(SpendsOf(chain, w, trace), CapsOf(chain, w, trace), cap, T.EPOCH_DURATION, T.NUM_EPOCHS, first, span);
  }

  // ---- The agents' meters ----

  predicate SpendsBy(chain: Chain, w: World, ev: Event, agent: Key) {
    Spends(chain, w, ev) && ev.op.transfer.agent == agent
  }

  function LimitOf(w: World, agent: Key): nat {
    var entry := FindAgent(w.vault.agents, agent);
    if entry.Some? then entry.value.spendingLimitUsd else 0
  }

  /** What an agent has spent since it was given its slot; nothing while it has none. */
  ghost function AgentSpends(chain: Chain, w: World, trace: seq<Event>, agent: Key): seq<Spend> {
    if trace == [] || O.FindSlot(After(chain, w, trace).overlay, agent).None? then []
    else
      var before, ev := LastState(chain, w, trace), trace[|trace| - 1];
      AgentSpends(chain, w, trace[..|trace| - 1], agent) +
      if SpendsBy(chain, before, ev, agent) then [SpendOf(chain, before, ev)] else []
  }

  /** The agent's limit at each of those spends. */
  ghost function AgentLimits(chain: Chain, w: World, trace: seq<Event>, agent: Key): seq<nat> {
    if trace == [] || O.FindSlot(After(chain, w, trace).overlay, agent).None? then []
    else
      var before, ev := LastState(chain, w, trace), trace[|trace| - 1];
      AgentLimits(chain, w, trace[..|trace| - 1], agent) +
      if SpendsBy(chain, before, ev, agent) then [Min(LimitOf(before, agent), U64_MAX)] else []
  }

  ghost predicate AgentMeteredUpTo(w: World, agent: Key, log: seq<Spend>, limits: seq<nat>, time: int) {
    var slot := O.FindSlot(w.overlay, agent);
    && |limits| == |log|
    && (slot.Some? ==> O.Tracks(w.overlay[slot.value], log))
    && (slot.None? ==> log == [])
    && AdmittedIfLimited(log, limits, O.OVERLAY_EPOCH_DURATION, O.OVERLAY_NUM_EPOCHS)
    && (log != [] ==> log[|log| - 1].time <= time)
  }

  lemma TransferChargesAgent(chain: Chain, w: World, a: Transfer, clock: Clock)
    requires TransferStep(chain, w, a, clock).Ok?
    ensures TransferChecks(chain, w.vault, w.policy, a).Ok? && clock.unixTimestamp > 0
    ensures var slot, usd, limit := O.FindSlot(w.overlay, a.agent), TransferChecks(chain, w.vault, w.policy, a).value, LimitOf(w, a.agent);
            slot.Some? && limit > 0 ==>
              O.Reading(w.overlay[slot.value], clock.unixTimestamp) + usd <= Min(limit, U64_MAX)
  {
    hide T.Reading, T.Recorded, O.Reading, O.Recorded, O.Recordable, MoveFunds;
  }

  lemma MeteredAgentTransfer(chain: Chain, w: World, ev: Event, agent: Key, log: seq<Spend>, limits: seq<nat>, time: int)
    requires SpendsBy(chain, w, ev, agent) && AgentMeteredUpTo(w, agent, log, limits, time) && time <= ev.clock.unixTimestamp
    requires O.FindSlot(w.overlay, agent).Some? && agent != DEFAULT_KEY
    ensures O.FindSlot(Exec(chain, w, ev).value.overlay, agent) == O.FindSlot(w.overlay, agent)
    ensures AgentMeteredUpTo(Exec(chain, w, ev).value, agent, log + [SpendOf(chain, w, ev)],
                             limits + [Min(LimitOf(w, agent), U64_MAX)], ev.clock.unixTimestamp)
  {
    var now, s, slot := ev.clock.unixTimestamp, SpendOf(chain, w, ev), O.FindSlot(w.overlay, agent);
    var limit, w' := Min(LimitOf(w, agent), U64_MAX), Exec(chain, w, ev).value;
    TransferChargesAgent(chain, w, ev.op.transfer, ev.clock);
    TransferOverlay(chain, w, ev.op.transfer, ev.clock);
    FirstSlot(w.overlay, agent);
    hide TransferStep, TransferChecks, O.Reading, Metered, O.Tracks, AdmittedIfLimited, O.FindSlot, LimitOf;
    SameSlot(w.overlay, w'.overlay, agent);
    hide O.Recorded;
    O.ReadingIsMetered(w.overlay[slot.value], log, now);
    O.RecordedTracks(w.overlay[slot.value], log, now, s.usd);
    LimitedAppend(log, limits, s, limit, O.OVERLAY_EPOCH_DURATION, O.OVERLAY_NUM_EPOCHS);
  }

  lemma LimitedAppend(log: seq<Spend>, limits: seq<nat>, s: Spend, limit: nat, d: int, n: int)
    requires d > 0 && AdmittedIfLimited(log, limits, d, n) && limit <= U64_MAX
    requires limit > 0 ==> Min(Metered(log, d, n, s.time), U64_MAX) + s.usd <= limit
    ensures AdmittedIfLimited(log + [s], limits + [limit], d, n)
  {
    hide Metered;
    assert (log + [s])[..|log|] == log && (limits + [limit])[..|limits|] == limits;
  }

  /** The slot of one agent across an instruction that is not its own spend: gone, untouched,
      or newly given and empty. */
  ghost predicate SlotCarries(overlay: O.Entries, overlay': O.Entries, agent: Key) {
    var slot, slot' := O.FindSlot(overlay, agent), O.FindSlot(overlay', agent);
    || slot'.None?
    || (slot.Some? && overlay'[slot'.value] == overlay[slot.value])
    || (slot.None? && overlay'[slot'.value] == O.Fresh(agent))
  }

  lemma ClaimCarries(agents: seq<AgentEntry>, overlay: O.Entries, i: nat, claimer: Key, agent: Key)
    requires Occupancy(agents, overlay) && i < |overlay| && overlay[i].agent == DEFAULT_KEY
    requires agent != DEFAULT_KEY && O.FindSlot(overlay, claimer).None?
    ensures SlotCarries(overlay, overlay[i := overlay[i].(agent := claimer)], agent)
  {
    var overlay' := overlay[i := overlay[i].(agent := claimer)];
    FirstSlot(overlay, agent);
    FirstSlot(overlay', agent);
    hide O.FindSlot;
    assert overlay[i] == O.Fresh(DEFAULT_KEY);
    if claimer == agent {
      assert overlay'[i].agent == agent;
      assert forall j :: 0 <= j < |overlay| && j != i ==> overlay'[j].agent != agent;
    } else {
      SameSlot(overlay, overlay', agent);
    }
  }

  lemma ReleaseCarries(agents: seq<AgentEntry>, overlay: O.Entries, i: nat, agent: Key)
    requires Occupancy(agents, overlay) && i < |overlay| && agent != DEFAULT_KEY
    ensures SlotCarries(overlay, overlay[i := O.Fresh(DEFAULT_KEY)], agent)
  {
    var overlay' := overlay[i := O.Fresh(DEFAULT_KEY)];
    FirstSlot(overlay, agent);
    FirstSlot(overlay', agent);
    hide O.FindSlot;
    if overlay[i].agent == agent {
      assert forall j :: 0 <= j < |overlay| ==> overlay'[j].agent != agent;
    } else {
      SameSlot(overlay, overlay', agent);
    }
  }

  lemma RecordCarries(overlay: O.Entries, i: nat, entry: O.Entry, agent: Key)
    requires i < |overlay| && entry.agent == overlay[i].agent != agent
    ensures SlotCarries(overlay, overlay[i := entry], agent)
  {
    FirstSlot(overlay, agent);
    hide O.FindSlot;
    SameSlot(overlay, overlay[i := entry], agent);
  }

  /** The overlay as it was, with the first free slot claimed, or with the agent's slot released. */
  ghost predicate Rearranged(overlay: O.Entries, overlay': O.Entries, changed: Key) {
    var slot, free := O.FindSlot(overlay, changed), O.FindSlot(overlay, DEFAULT_KEY);
    || overlay' == overlay
    || (slot.None? && free.Some? && overlay' == overlay[free.value := overlay[free.value].(agent := changed)])
    || (slot.Some? && overlay' == overlay[slot.value := O.Fresh(DEFAULT_KEY)])
  }

  lemma RearrangedCarries(agents: seq<AgentEntry>, overlay: O.Entries, overlay': O.Entries, changed: Key, agent: Key)
    requires Occupancy(agents, overlay) && Rearranged(overlay, overlay', changed) && agent != DEFAULT_KEY
    ensures SlotCarries(overlay, overlay', agent)
  {
    hide O.FindSlot, Occupancy;
    var slot, free := O.FindSlot(overlay, changed), O.FindSlot(overlay, DEFAULT_KEY);
    FirstSlot(overlay, DEFAULT_KEY);
    FirstSlot(overlay, changed);
    FirstSlot(overlay, agent);
    if overlay' == overlay {
      assert SlotCarries(overlay, overlay, agent);
    } else if slot.None? {
      ClaimCarries(agents, overlay, free.value, changed, agent);
    } else {
      ReleaseCarries(agents, overlay, slot.value, agent);
    }
  }

  lemma MembershipRearranges(w: World, ev: Event)
    ensures ev.op.ApplyPerms? ==>
              var r := ApplyPermsStep(w, ev.op.agent, ev.clock); r.Ok? ==> Rearranged(w.overlay, r.value.overlay, ev.op.agent)
    ensures ev.op.Register? ==>
              var r := RegisterStep(w, ev.op.agent, ev.op.capability, ev.op.limit);
              r.Ok? ==> Rearranged(w.overlay, r.value.overlay, ev.op.agent)
    ensures ev.op.Revoke? ==>
              var r := RevokeStep(w, ev.op.agent); r.Ok? ==> Rearranged(w.overlay, r.value.overlay, ev.op.agent)
  {
    hide UpdateAgent, RemoveAgent, FindAgent, Due, Bumped;
  }

  lemma MembershipCarries(w: World, ev: Event, agent: Key)
    requires SlotsHeld(w.vault.agents, w.overlay) && agent != DEFAULT_KEY
    ensures ev.op.ApplyPerms? ==>
              var r := ApplyPermsStep(w, ev.op.agent, ev.clock); r.Ok? ==> SlotCarries(w.overlay, r.value.overlay, agent)
    ensures ev.op.Register? ==>
              var r := RegisterStep(w, ev.op.agent, ev.op.capability, ev.op.limit);
              r.Ok? ==> SlotCarries(w.overlay, r.value.overlay, agent)
    ensures ev.op.Revoke? ==>
              var r := RevokeStep(w, ev.op.agent); r.Ok? ==> SlotCarries(w.overlay, r.value.overlay, agent)
  {
    hide ApplyPermsStep, RegisterStep, RevokeStep, SlotCarries, Rearranged, Occupancy, Roster, LimitsAreMetered;
    MembershipRearranges(w, ev);
    if ev.op.ApplyPerms? {
      var r := ApplyPermsStep(w, ev.op.agent, ev.clock);
      if r.Ok? {
        RearrangedCarries(w.vault.agents, w.overlay, r.value.overlay, ev.op.agent, agent);
      }
    } else if ev.op.Register? {
      var r := RegisterStep(w, ev.op.agent, ev.op.capability, ev.op.limit);
      if r.Ok? {
        RearrangedCarries(w.vault.agents, w.overlay, r.value.overlay, ev.op.agent, agent);
      }
    } else if ev.op.Revoke? {
      var r := RevokeStep(w, ev.op.agent);
      if r.Ok? {
        RearrangedCarries(w.vault.agents, w.overlay, r.value.overlay, ev.op.agent, agent);
      }
    }
  }

  lemma CarriedSlot(chain: Chain, w: World, ev: Event, agent: Key)
    requires SlotsHeld(w.vault.agents, w.overlay) && agent != DEFAULT_KEY
    requires Exec(chain, w, ev).Ok? && !SpendsBy(chain, w, ev, agent)
    ensures SlotCarries(w.overlay, Exec(chain, w, ev).value.overlay, agent)
  {
    hide SlotsHeld, TransferStep, ApplyPermsStep, RegisterStep, RevokeStep, O.FindSlot, FindAgent;
    FirstSlot(w.overlay, agent);
    assert SlotCarries(w.overlay, w.overlay, agent);
    hide SlotCarries;
    MembershipCarries(w, ev, agent);
    if ev.op.AgentTransfer? {
      TransferOverlay(chain, w, ev.op.transfer, ev.clock);
      FirstSlot(w.overlay, ev.op.transfer.agent);
      var slot := O.FindSlot(w.overlay, ev.op.transfer.agent);
      if slot.Some? {
        RecordCarries(w.overlay, slot.value, Exec(chain, w, ev).value.overlay[slot.value], agent);
      }
    }
  }

  lemma SpendingNeedsSlot(chain: Chain, w: World, ev: Event, agent: Key)
    requires SpendsBy(chain, w, ev, agent) && O.FindSlot(w.overlay, agent).None?
    ensures Exec(chain, w, ev).value.overlay == w.overlay
  {
    TransferOverlay(chain, w, ev.op.transfer, ev.clock);
  }

  lemma CarriedMeter(w: World, w': World, agent: Key, log: seq<Spend>, limits: seq<nat>, time: int, later: int)
    requires AgentMeteredUpTo(w, agent, log, limits, time) && time <= later
    requires SlotCarries(w.overlay, w'.overlay, agent)
    ensures if O.FindSlot(w'.overlay, agent).None? then AgentMeteredUpTo(w', agent, [], [], later)
            else AgentMeteredUpTo(w', agent, log, limits, later)
  {
    O.FreshTracks(agent);
    FirstSlot(w.overlay, agent);
    FirstSlot(w'.overlay, agent);
    hide O.Tracks, O.FindSlot;
  }

  ghost predicate AgentAdvances(chain: Chain, w: World, ev: Event, agent: Key, log: seq<Spend>, limits: seq<nat>) {
    var w', spent := Attempt(chain, w, ev), SpendsBy(chain, w, ev, agent);
    if O.FindSlot(w'.overlay, agent).None? then AgentMeteredUpTo(w', agent, [], [], ev.clock.unixTimestamp)
    else AgentMeteredUpTo(w', agent,
                          log + (if spent then [SpendOf(chain, w, ev)] else []),
                          limits + (if spent then [Min(LimitOf(w, agent), U64_MAX)] else []),
                          ev.clock.unixTimestamp)
  }

  lemma AgentStep(chain: Chain, w: World, ev: Event, agent: Key, log: seq<Spend>, limits: seq<nat>, time: int)
    requires SlotsHeld(w.vault.agents, w.overlay) && agent != DEFAULT_KEY
    requires AgentMeteredUpTo(w, agent, log, limits, time) && time <= ev.clock.unixTimestamp
    ensures AgentAdvances(chain, w, ev, agent, log, limits)
  {
    assert SlotCarries(w.overlay, w.overlay, agent) by {
      FirstSlot(w.overlay, agent);
    }
    hide SlotsHeld, Exec, O.FindSlot;
    if !SpendsBy(chain, w, ev, agent) {
      if Exec(chain, w, ev).Ok? {
        CarriedSlot(chain, w, ev, agent);
      }
      CarriedMeter(w, Attempt(chain, w, ev), agent, log, limits, time, ev.clock.unixTimestamp);
      assert log + [] == log && limits + [] == limits;
      hide SlotCarries, AgentMeteredUpTo;
    } else if O.FindSlot(w.overlay, agent).None? {
      SpendingNeedsSlot(chain, w, ev, agent);
    } else {
      MeteredAgentTransfer(chain, w, ev, agent, log, limits, time);
      hide AgentMeteredUpTo;
    }
  }

  lemma {:induction false} MeteredAgentRun(chain: Chain, w: World, trace: seq<Event>, agent: Key)
    requires Initial(w) && Clocked(trace) && agent != DEFAULT_KEY
    ensures AgentMeteredUpTo(After(chain, w, trace), agent, AgentSpends(chain, w, trace, agent),
                             AgentLimits(chain, w, trace, agent), LastTime(trace))
  {
    if trace == [] {
      FirstSlot(w.overlay, agent);
    } else {
      var k := |trace| - 1;
      var before, ev := LastState(chain, w, trace), trace[k];
      MeteredAgentRun(chain, w, trace[..k], agent);
      ReachableSlots(chain, w, trace[..k]);
      hide Exec, AgentMeteredUpTo, O.FindSlot, SpendOf, SpendsBy, LimitOf, SlotsHeld;
      assert k > 0 ==> LastTime(trace[..k]) == trace[k - 1].clock.unixTimestamp <= ev.clock.unixTimestamp;
      LaterIsFine(before, agent, AgentSpends(chain, w, trace[..k], agent), AgentLimits(chain, w, trace[..k], agent),
        LastTime(trace[..k]), ev.clock.unixTimestamp, k == 0);
      AgentStep(chain, before, ev, agent, AgentSpends(chain, w, trace[..k], agent),
        AgentLimits(chain, w, trace[..k], agent), ev.clock.unixTimestamp);
    }
  }

  lemma LaterIsFine(w: World, agent: Key, log: seq<Spend>, limits: seq<nat>, time: int, later: int, start: bool)
    requires AgentMeteredUpTo(w, agent, log, limits, time) && (time <= later || (start && log == []))
    ensures AgentMeteredUpTo(w, agent, log, limits, later)
  {
  }

  /** An agent's spends are among the vault's. */
  lemma {:induction false} AgentSpendsAreSpends(chain: Chain, w: World, trace: seq<Event>, agent: Key, times: iset<int>)
    ensures SpentIn(AgentSpends(chain, w, trace, agent), times) <= SpentIn(SpendsOf(chain, w, trace), times)
  {
    hide Exec, SpendOf, O.FindSlot;
    if trace != [] {
      var k := |trace| - 1;
      var before, ev := LastState(chain, w, trace), trace[k];
      var own, all := AgentSpends(chain, w, trace[..k], agent), SpendsOf(chain, w, trace[..k]);
      AgentSpendsAreSpends(chain, w, trace[..k], agent, times);
      assert own + [] == own && all + [] == all;
      if Spends(chain, before, ev) {
        SpentInAppend(own, SpendOf(chain, before, ev), times);
        SpentInAppend(all, SpendOf(chain, before, ev), times);
      }
    }
  }

  /** A window of 24 hours is one of 144 ten-minute epochs. */
  lemma HoursAreEpochs(hour: int)
    ensures Epochs(hour - O.OVERLAY_NUM_EPOCHS + 1, hour, O.OVERLAY_EPOCH_DURATION) ==
            Epochs(6 * hour + 5 - T.NUM_EPOCHS + 1, 6 * hour + 5, T.EPOCH_DURATION)
  {
  }

  /** So the daily cap keeps every agent's hourly windows clear of the 64-bit clamp. */
  lemma AgentWindowsFit64(chain: Chain, w: World, trace: seq<Event>, agent: Key)
    requires Initial(w) && Clocked(trace)
    ensures WindowsFit64(AgentSpends(chain, w, trace, agent), O.OVERLAY_EPOCH_DURATION, O.OVERLAY_NUM_EPOCHS)
  {
    MeteredRun(chain, w, trace);
    hide Exec, AgentSpends, SpendsOf, CapsOf, SpentIn;
    var log, caps := SpendsOf(chain, w, trace), CapsOf(chain, w, trace);
    forall hour: int
      ensures SpentUpTo(AgentSpends(chain, w, trace, agent), O.OVERLAY_EPOCH_DURATION, O.OVERLAY_NUM_EPOCHS, hour) <= U64_MAX
    {
      var window := Epochs(hour - O.OVERLAY_NUM_EPOCHS + 1, hour, O.OVERLAY_EPOCH_DURATION);
      HoursAreEpochs(hour);
      AgentSpendsAreSpends(chain, w, trace, agent, window);
      WindowWithinCap(log, caps, T.EPOCH_DURATION, T.NUM_EPOCHS, 6 * hour + 5);
      AdmittedCapsAreU64(log, caps, T.EPOCH_DURATION, T.NUM_EPOCHS, window);
    }
  }

  /** In every run: any 24 consecutive hours whose latest spend by an agent was made under a
      positive limit record no more of its spends, since it got its slot, than that limit. Limits
      may come, change and go on the way, and spends made without one count. */
  lemma AgentLimitHolds(chain: Chain, w: World, trace: seq<Event>, agent: Key, epoch: int)
    requires Initial(w) && Clocked(trace) && agent != DEFAULT_KEY
    ensures |AgentLimits(chain, w, trace, agent)| == |AgentSpends(chain, w, trace, agent)|
    ensures var window := Epochs(epoch - O.OVERLAY_NUM_EPOCHS + 1, epoch, O.OVERLAY_EPOCH_DURATION);
            var limit := CapInForce(AgentSpends(chain, w, trace, agent), AgentLimits(chain, w, trace, agent), window);
            limit > 0 ==> SpentIn(AgentSpends(chain, w, trace, agent), window) <= limit
  {
    MeteredAgentRun(chain, w, trace, agent);
    AgentWindowsFit64(chain, w, trace, agent);
    hide Exec;
    var log, limits := AgentSpends(chain, w, trace, agent), AgentLimits(chain, w, trace, agent);
    if O.FindSlot(After(chain, w, trace).overlay, agent).Some? {
      LimitedWindow(log, limits, O.OVERLAY_EPOCH_DURATION, O.OVERLAY_NUM_EPOCHS, epoch);
    }
  }

  // ---- All of an agent's spends ----

  /** Everything an agent has spent in a run, with a slot or without. */
  ghost function OwnSpends(chain: Chain, w: World, trace: seq<Event>, agent: Key): seq<Spend> {
    if trace == [] then []
    else
      var before, ev := LastState(chain, w, trace), trace[|trace| - 1];
      OwnSpends(chain, w, trace[..|trace| - 1], agent) +
      if SpendsBy(chain, before, ev, agent) then [SpendOf(chain, before, ev)] else []
  }

  ghost function OwnLimits(chain: Chain, w: World, trace: seq<Event>, agent: Key): seq<nat> {
    if trace == [] then []
    else
      var before, ev := LastState(chain, w, trace), trace[|trace| - 1];
      OwnLimits(chain, w, trace[..|trace| - 1], agent) +
      if SpendsBy(chain, before, ev, agent) then [Min(LimitOf(before, agent), U64_MAX)] else []
  }

  /** From its first spend on the agent holds a slot. */
  ghost predicate HoldsSlot(chain: Chain, w: World, trace: seq<Event>, agent: Key) {
    forall i :: 0 <= i <= |trace| && OwnSpends(chain, w, trace[..i], agent) != [] ==>
      O.FindSlot(After(chain, w, trace[..i]).overlay, agent).Some?
  }

  /** From its first spend on the agent is registered under a positive limit. */
  ghost predicate StaysLimited(chain: Chain, w: World, trace: seq<Event>, agent: Key) {
    forall i :: 0 <= i <= |trace| && OwnSpends(chain, w, trace[..i], agent) != [] ==>
      LimitOf(After(chain, w, trace[..i]), agent) > 0
  }

  /** The meter then forgets none of them. */
  lemma {:induction false} NothingForgotten(chain: Chain, w: World, trace: seq<Event>, agent: Key)
    requires HoldsSlot(chain, w, trace, agent)
    ensures AgentSpends(chain, w, trace, agent) == OwnSpends(chain, w, trace, agent)
    ensures AgentLimits(chain, w, trace, agent) == OwnLimits(chain, w, trace, agent)
  {
    hide Exec, SpendOf, SpendsBy, LimitOf, O.FindSlot;
    if trace != [] {
      var k := |trace| - 1;
      forall i | 0 <= i <= k && OwnSpends(chain, w, trace[..k][..i], agent) != []
        ensures O.FindSlot(After(chain, w, trace[..k][..i]).overlay, agent).Some?
      {
        assert trace[..k][..i] == trace[..i];
      }
      NothingForgotten(chain, w, trace[..k], agent);
      assert trace[..|trace|] == trace;
      OwnLengths(chain, w, trace, agent);
    }
  }

  lemma {:induction false} SomethingForgotten(chain: Chain, w: World, trace: seq<Event>, agent: Key)
    requires !HoldsSlot(chain, w, trace, agent)
    ensures |AgentSpends(chain, w, trace, agent)| < |OwnSpends(chain, w, trace, agent)|
  {
    hide Exec, SpendOf, SpendsBy, O.FindSlot;
    var i :| 0 <= i <= |trace| && OwnSpends(chain, w, trace[..i], agent) != [] &&
             O.FindSlot(After(chain, w, trace[..i]).overlay, agent).None?;
    if i == |trace| {
      assert trace[..i] == trace;
    } else {
      var k := |trace| - 1;
      assert trace[..k][..i] == trace[..i];
      SomethingForgotten(chain, w, trace[..k], agent);
    }
  }

  /** An agent's meter has seen all its spends exactly when it held a slot from its first one on. */
  lemma MeterForgetsExactly(chain: Chain, w: World, trace: seq<Event>, agent: Key)
    ensures AgentSpends(chain, w, trace, agent) == OwnSpends(chain, w, trace, agent) <==> HoldsSlot(chain, w, trace, agent)
  {
    hide HoldsSlot, AgentSpends, OwnSpends;
    if HoldsSlot(chain, w, trace, agent) {
      NothingForgotten(chain, w, trace, agent);
    } else {
      SomethingForgotten(chain, w, trace, agent);
    }
  }

  lemma {:induction false} OwnLengths(chain: Chain, w: World, trace: seq<Event>, agent: Key)
    ensures |OwnLimits(chain, w, trace, agent)| == |OwnSpends(chain, w, trace, agent)|
  {
    hide Exec, SpendOf, SpendsBy, LimitOf;
    if trace != [] {
      OwnLengths(chain, w, trace[..|trace| - 1], agent);
    }
  }

  lemma LimitedHoldsSlot(chain: Chain, w: World, trace: seq<Event>, agent: Key)
    requires Initial(w) && StaysLimited(chain, w, trace, agent)
    ensures HoldsSlot(chain, w, trace, agent)
  {
    forall i | 0 <= i <= |trace| && OwnSpends(chain, w, trace[..i], agent) != []
      ensures O.FindSlot(After(chain, w, trace[..i]).overlay, agent).Some?
    {
      ReachableSlots(chain, w, trace[..i]);
      hide After, Exec, OwnSpends, O.FindSlot;
      var agents := After(chain, w, trace[..i]).vault.agents;
      var entry := FindAgent(agents, agent).value;
      var j :| 0 <= j < |agents| && agents[j] == entry;
    }
  }

  /** An agent that stays under a positive limit from its first spend on never records more than
      the limit in force at the latest spend in any 24 consecutive hours: all its spends count. */
  lemma LimitedAgentIsHeld(chain: Chain, w: World, trace: seq<Event>, agent: Key, epoch: int)
    requires Initial(w) && Clocked(trace) && agent != DEFAULT_KEY && StaysLimited(chain, w, trace, agent)
    ensures |OwnLimits(chain, w, trace, agent)| == |OwnSpends(chain, w, trace, agent)|
    ensures var window := Epochs(epoch - O.OVERLAY_NUM_EPOCHS + 1, epoch, O.OVERLAY_EPOCH_DURATION);
            var limit := CapInForce(OwnSpends(chain, w, trace, agent), OwnLimits(chain, w, trace, agent), window);
            limit > 0 ==> SpentIn(OwnSpends(chain, w, trace, agent), window) <= limit
  {
    hide StaysLimited, HoldsSlot, After, Exec;
    LimitedHoldsSlot(chain, w, trace, agent);
    NothingForgotten(chain, w, trace, agent);
    AgentLimitHolds(chain, w, trace, agent, epoch);
  }

  /** Under limits that were all positive and never above `limit`, no 23 hours of the spends since
      an agent got its slot record more than `limit`. */
  lemma AgentLimitHoldsForSeconds(chain: Chain, w: World, trace: seq<Event>, agent: Key, limit: nat, first: int, span: int)
    requires Initial(w) && Clocked(trace) && agent != DEFAULT_KEY && span <= 82_800
    requires forall i :: 0 <= i < |AgentLimits(chain, w, trace, agent)| ==> 0 < AgentLimits(chain, w, trace, agent)[i] <= limit
    ensures SpentWithin(AgentSpends(chain, w, trace, agent), first, span) <= limit
  {
    MeteredAgentRun(chain, w, trace, agent);
    hide Exec, After, AgentSpends, AgentLimits;
    var log, limits := AgentSpends(chain, w, trace, agent), AgentLimits(chain, w, trace, agent);
    if O.FindSlot(After(chain, w, trace).overlay, agent).Some? {
      AllLimited(log, limits, O.OVERLAY_EPOCH_DURATION, O.OVERLAY_NUM_EPOCHS);
      ShortSpanWithinCap(log, limits, limit, O.OVERLAY_EPOCH_DURATION, O.OVERLAY_NUM_EPOCHS, first, span);
    }
  }

  lemma {:induction false} AllLimited(log: seq<Spend>, limits: seq<nat>, d: int, n: int)
    requires d > 0 && AdmittedIfLimited(log, limits, d, n) && forall i :: 0 <= i < |limits| ==> limits[i] > 0
    ensures Admitted(log, limits, d, n)
  {
    if log != [] {
      AllLimited(log[..|log| - 1], limits[..|log| - 1], d, n);
    }
  }
}
