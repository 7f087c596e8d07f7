/** The owner's instructions, each by itself: exactly when it succeeds, and what it leaves behind;
    and exactly when a queued change may be applied. */
module Instructions {
  import opened Common
  import opened SpendLog
  import opened Program
  import opened Governance
  import opened OverlaySlots
  import O = AgentOverlay

  predicate Registered(agents: seq<AgentEntry>, key: Key) {
    exists i :: 0 <= i < |agents| && agents[i].pubkey == key
  }

  lemma FoundIfRegistered(agents: seq<AgentEntry>, key: Key)
    ensures FindAgent(agents, key).Some? <==> Registered(agents, key)
  {
    hide FindAgent;
    if FindAgent(agents, key).Some? {
      var e := FindAgent(agents, key).value;
      var i :| 0 <= i < |agents| && agents[i] == e;
    }
  }

  // ---- Agents ----

  /** Registering: capability 0, 1 or 2, a new key that is neither the default one nor the owner's,
      room among ten, and a slot if there is a limit. The agent comes last, awake, with a slot
      whenever one was free. */
  lemma RegisterExactly(w: World, agent: Key, capability: nat, limit: nat)
    ensures var r := RegisterStep(w, agent, capability, limit);
            && (r.Ok? <==>
                  && w.vault.status != Closed && capability <= 2 && !Registered(w.vault.agents, agent) && |w.vault.agents| < 10
                  && agent != 0 && agent != w.vault.owner
                  && (limit > 0 ==> O.FindSlot(w.overlay, agent).Some? || O.FindSlot(w.overlay, DEFAULT_KEY).Some?))
            && (r.Ok? ==>
                  && r.value == w.(vault := w.vault.(agents := w.vault.agents + [AgentEntry(agent, capability, limit, false)]),
                                   overlay := r.value.overlay)
                  && (O.FindSlot(r.value.overlay, agent).Some? <==>
                        O.FindSlot(w.overlay, agent).Some? || O.FindSlot(w.overlay, DEFAULT_KEY).Some?)
                  && forall j :: 0 <= j < |w.overlay| ==>
                       || r.value.overlay[j] == w.overlay[j]
                       || (w.overlay[j].agent == DEFAULT_KEY && r.value.overlay[j] == w.overlay[j].(agent := agent)))
  {
    FoundIfRegistered(w.vault.agents, agent);
    hide FindAgent, O.FindSlot;
    FirstSlot(w.overlay, agent);
    FirstSlot(w.overlay, DEFAULT_KEY);
    var r := RegisterStep(w, agent, capability, limit);
    if r.Ok? {
      FirstSlot(r.value.overlay, agent);
      var free := O.FindSlot(w.overlay, DEFAULT_KEY);
      if O.FindSlot(w.overlay, agent).None? && free.Some? {
        assert r.value.overlay[free.value].agent == agent;
      }
    }
  }

  /** Revoking: exactly the entries with that key go, the others stay in order, the agent's slot is
      emptied, and a vault without agents freezes. */
  lemma RevokeExactly(w: World, agent: Key)
    ensures var r, slot := RevokeStep(w, agent), O.FindSlot(w.overlay, agent);
            && (r.Ok? <==> w.vault.status != Closed && Registered(w.vault.agents, agent))
            && (r.Ok? ==>
                  && (forall e :: e in r.value.vault.agents <==> e in w.vault.agents && e.pubkey != agent)
                  && r.value == w.(vault := w.vault.(agents := r.value.vault.agents, status := r.value.vault.status), overlay := r.value.overlay)
                  && (r.value.vault.status == if r.value.vault.agents == [] then Frozen else w.vault.status)
                  && (slot.None? ==> r.value.overlay == w.overlay)
                  && (slot.Some? ==> r.value.overlay[slot.value] == O.Fresh(DEFAULT_KEY))
                  && forall j :: 0 <= j < |w.overlay| && slot != Some(j) ==> r.value.overlay[j] == w.overlay[j])
  {
    FoundIfRegistered(w.vault.agents, agent);
    hide FindAgent, O.FindSlot, RemoveAgent;
    FirstSlot(w.overlay, agent);
  }

  /** Removing goes through the agents in order, one by one. */
  lemma {:induction false} RemovalKeepsOrder(a: seq<AgentEntry>, b: seq<AgentEntry>, key: Key)
    ensures RemoveAgent(a + b, key) == RemoveAgent(a, key) + RemoveAgent(b, key)
  {
    if a == [] {
      assert a + b == b;
    } else {
      assert (a + b)[1..] == a[1..] + b;
      RemovalKeepsOrder(a[1..], b, key);
    }
  }

  lemma RemovalOfOne(e: AgentEntry, key: Key)
    ensures RemoveAgent([e], key) == if e.pubkey == key then [] else [e]
  {
    assert [e][1..] == [];
  }

  /** Pausing and unpausing: a registered agent that is not so already; nothing else changes. */
  lemma PauseExactly(w: World, agent: Key, paused: bool)
    ensures var r, entry := PauseStep(w, agent, paused), FindAgent(w.vault.agents, agent);
            && (r.Ok? <==> w.vault.status != Closed && entry.Some? && entry.value.paused != paused)
            && (r.Ok? ==>
                  && r.value == w.(vault := w.vault.(agents := r.value.vault.agents)) && |r.value.vault.agents| == |w.vault.agents|
                  && FindAgent(r.value.vault.agents, agent) == Some(entry.value.(paused := paused))
                  && forall i :: 0 <= i < |w.vault.agents| && w.vault.agents[i].pubkey != agent ==> r.value.vault.agents[i] == w.vault.agents[i])
  {
    if FindAgent(w.vault.agents, agent).Some? {
      UpdateKeepsOthers(w.vault.agents, agent, FindAgent(w.vault.agents, agent).value.(paused := paused));
    }
    hide FindAgent, UpdateAgent;
  }

  lemma FreezeExactly(w: World)
    ensures FreezeStep(w).Ok? <==> w.vault.status == Active
    ensures FreezeStep(w).Ok? ==> FreezeStep(w).value == w.(vault := w.vault.(status := Frozen))
  {
  }

  /** Reactivating: a frozen vault with an agent, or with a new one that could be registered; the new
      one comes without a limit and without a slot. */
  lemma ReactivateExactly(w: World, newAgent: Option<(Key, nat)>)
    ensures var r := ReactivateStep(w, newAgent);
            && (r.Ok? <==>
                  && w.vault.status == Frozen && (newAgent.None? ==> w.vault.agents != [])
                  && (newAgent.Some? ==>
                        && newAgent.value.0 != 0 && newAgent.value.0 != w.vault.owner && newAgent.value.1 <= 2
                        && |w.vault.agents| < 10 && !Registered(w.vault.agents, newAgent.value.0)))
            && (r.Ok? ==> r.value == w.(vault := w.vault.(status := Active,
                            agents := if newAgent.None? then w.vault.agents
                                      else w.vault.agents + [AgentEntry(newAgent.value.0, newAgent.value.1, 0, false)])))
  {
    if newAgent.Some? {
      FoundIfRegistered(w.vault.agents, newAgent.value.0);
    }
    hide FindAgent;
  }

  /** New rights and the agent's slot, in a state that holds its slots: after an update the agent has
      a slot if its limit is positive, has none if a positive limit was dropped, and keeps what it
      had, history included, otherwise. */
  lemma SlotFollowsLimit(w: World, agent: Key, clock: Clock)
    requires SlotsHeld(w.vault.agents, w.overlay) && ApplyPermsStep(w, agent, clock).Ok?
    ensures var w', was, next := ApplyPermsStep(w, agent, clock).value, FindAgent(w.vault.agents, agent), w.pending.perms[agent].spendingLimitUsd;
            var slot, slot' := O.FindSlot(w.overlay, agent), O.FindSlot(w'.overlay, agent);
            && was.Some?
            && (next > 0 ==> slot'.Some?)
            && (next == 0 && was.value.spendingLimitUsd > 0 ==> slot'.None?)
            && (slot.Some? && (next > 0 || was.value.spendingLimitUsd == 0) ==> slot' == slot && w'.overlay == w.overlay)
            && (slot.None? && next == 0 ==> w'.overlay == w.overlay)
            && (slot.None? && next > 0 ==> w'.overlay[slot'.value] == O.Fresh(agent))
  {
    hide FindAgent, UpdateAgent, O.FindSlot, Due;
    LimitedAgentsHaveSlots(w.vault.agents, w.overlay, agent);
    var entry, pending := FindAgent(w.vault.agents, agent).value, w.pending.perms[agent];
    RearrangedExactly(w.vault.agents, w.overlay, agent, entry.spendingLimitUsd, pending.spendingLimitUsd);
    hide RearrangeSlots, SlotsHeld;
  }

  lemma RearrangedExactly(agents: seq<AgentEntry>, overlay: O.Entries, agent: Key, was: nat, next: nat)
    requires Occupancy(agents, overlay) && agent != DEFAULT_KEY && RearrangeSlots(overlay, agent, was, next).Ok?
    ensures var overlay' := RearrangeSlots(overlay, agent, was, next).value;
            var slot, slot' := O.FindSlot(overlay, agent), O.FindSlot(overlay', agent);
            && (next > 0 ==> slot'.Some?)
            && (next == 0 && was > 0 ==> slot'.None?)
            && (slot.Some? && (next > 0 || was == 0) ==> overlay' == overlay)
            && (slot.None? && next == 0 ==> overlay' == overlay)
            && (slot.None? && next > 0 ==> overlay'[slot'.value] == O.Fresh(agent))
  {
    hide O.FindSlot;
    var free, slot, overlay' := O.FindSlot(overlay, DEFAULT_KEY), O.FindSlot(overlay, agent), RearrangeSlots(overlay, agent, was, next).value;
    FirstSlot(overlay, agent);
    FirstSlot(overlay, DEFAULT_KEY);
    FirstSlot(overlay', agent);
    if slot.None? && next > 0 {
      assert overlay'[free.value].agent == agent;
      assert forall j :: 0 <= j < |overlay| && j != free.value ==> overlay'[j].agent != agent;
    } else if slot.Some? && next == 0 && was > 0 {
      assert forall j :: 0 <= j < |overlay| ==> overlay'[j].agent != agent;
    }
  }

  // ---- Constraints and post-assertions ----

  lemma CreateConstraintsExactly(w: World, c: Constraints)
    ensures var r := CreateConstraintsStep(w, c);
            && (r.Ok? <==> w.constraints.None? && c.vault == w.vault.key)
            && (r.Ok? ==> r.value == w.(constraints := Some(c), policy := w.policy.(hasConstraints := true)))
  {
  }

  lemma PostAssertionsExactly(w: World, exist: bool)
    ensures var r := PostAssertionsStep(w, exist);
            && (r.Ok? <==> w.policy.hasPostAssertions != exist)
            && (r.Ok? ==> r.value == w.(policy := w.policy.(hasPostAssertions := exist)))
  {
  }

  // ---- Queueing ----

  /** A duration as the program adds it: 64 bits read as signed. */
  function SignedDuration(d: nat): int {
    if d < 0x8000_0000_0000_0000 then d else d - 0x1_0000_0000_0000_0000
  }

  /** When the sum of clock and timelock exists. */
  predicate CanSchedule(p: Policy, clock: Clock) {
    p.timelockDuration != 0 &&
    -0x8000_0000_0000_0000 <= clock.unixTimestamp + SignedDuration(p.timelockDuration) < 0x8000_0000_0000_0000
  }

  lemma ScheduleExactly(p: Policy, clock: Clock)
    requires p.timelockDuration <= U64_MAX
    ensures ScheduleFrom(p, clock).Ok? <==> CanSchedule(p, clock)
    ensures ScheduleFrom(p, clock).Ok? ==>
              ScheduleFrom(p, clock).value ==
              Schedule(clock.unixTimestamp, clock.unixTimestamp + SignedDuration(p.timelockDuration), clock.slot)
  {
  }

  /** A policy update that may be queued: known modes, lists of at most ten, rates and timelock
      within bounds, an expiry of 0 or 5 to 90 s, and per-protocol caps only under an allowlist
      and one for each protocol, counted as the policy would then stand. */
  ghost predicate MayQueue(p: Policy, u: PolicyUpdate) {
    && (u.protocolMode.Some? ==> u.protocolMode.value <= 2) && (u.destinationMode.Some? ==> u.destinationMode.value <= 1)
    && (u.protocols.Some? ==> |u.protocols.value| <= 10) && (u.allowedDestinations.Some? ==> |u.allowedDestinations.value| <= 10)
    && (u.developerFeeRate.Some? ==> u.developerFeeRate.value <= 500) && (u.maxSlippageBps.Some? ==> u.maxSlippageBps.value <= 5000)
    && (u.timelockDuration.Some? ==> u.timelockDuration.value >= 1800)
    && (u.sessionExpirySeconds.Some? ==> u.sessionExpirySeconds.value == 0 || 5 <= u.sessionExpirySeconds.value <= 90)
    && forall after: Policy :: FieldsFollow(p, after, u) && after.hasProtocolCaps ==>
         after.protocolMode == 1 && |after.protocolCaps| == |after.protocols|
  }

  lemma MayQueueExactly(p: Policy, u: PolicyUpdate)
    ensures LegalUpdate(p, u) <==> MayQueue(p, u)
  {
    var after := Overlaid(p, u);
    assert FieldsFollow(p, after, u);
    if LegalUpdate(p, u) {
      forall q: Policy | FieldsFollow(p, q, u) && q.hasProtocolCaps
        ensures q.protocolMode == 1 && |q.protocolCaps| == |q.protocols|
      {
      }
    }
  }

  lemma QueuePolicyExactly(w: World, u: PolicyUpdate, clock: Clock)
    requires w.policy.timelockDuration <= U64_MAX
    ensures var r := QueuePolicyStep(w, u, clock);
            && (r.Ok? <==> w.pending.policy.None? && w.vault.status != Closed && MayQueue(w.policy, u) && CanSchedule(w.policy, clock))
            && (r.Ok? ==>
                  && r.value.pending.policy.Some? && r.value.pending.policy.value.update == u
                  && r.value == w.(pending := w.pending.(policy := r.value.pending.policy), policy := w.policy.(hasPendingPolicy := true)))
  {
    MayQueueExactly(w.policy, u);
    ScheduleExactly(w.policy, clock);
    hide LegalUpdate, MayQueue, ScheduleFrom, CanSchedule;
  }

  lemma QueuePermsExactly(w: World, agent: Key, capability: nat, limit: nat, clock: Clock)
    requires w.policy.timelockDuration <= U64_MAX
    ensures var r := QueuePermsStep(w, agent, capability, limit, clock);
            && (r.Ok? <==>
                  && agent !in w.pending.perms && w.vault.status != Closed && Registered(w.vault.agents, agent) && capability <= 2
                  && CanSchedule(w.policy, clock))
            && (r.Ok? ==>
                  && agent in r.value.pending.perms && r.value.pending.perms - {agent} == w.pending.perms
                  && r.value.pending.perms[agent].newCapability == capability && r.value.pending.perms[agent].spendingLimitUsd == limit
                  && r.value == w.(pending := w.pending.(perms := r.value.pending.perms)))
  {
    FoundIfRegistered(w.vault.agents, agent);
    ScheduleExactly(w.policy, clock);
    hide FindAgent, ScheduleFrom, CanSchedule, Registered;
    var r := QueuePermsStep(w, agent, capability, limit, clock);
    if r.Ok? {
      assert r.value.pending.perms - {agent} == w.pending.perms;
    }
  }

  lemma QueueConstraintsExactly(w: World, c: Constraints, clock: Clock)
    requires w.policy.timelockDuration <= U64_MAX
    ensures var r := QueueConstraintsStep(w, c, clock);
            && (r.Ok? <==>
                  && w.constraints.Some? && w.constraints.value.vault == w.vault.key && w.pending.constraints.None?
                  && c.vault == w.vault.key && CanSchedule(w.policy, clock))
            && (r.Ok? ==>
                  && r.value.pending.constraints.Some? && r.value.pending.constraints.value.content == c
                  && r.value == w.(pending := w.pending.(constraints := r.value.pending.constraints)))
  {
    ScheduleExactly(w.policy, clock);
    hide ScheduleFrom, CanSchedule;
  }

  lemma QueueCloseExactly(w: World, clock: Clock)
    requires w.policy.timelockDuration <= U64_MAX
    ensures var r := QueueCloseStep(w, clock);
            && (r.Ok? <==>
                  && w.pending.close.None? && w.constraints.Some? && w.constraints.value.vault == w.vault.key
                  && w.vault.status != Closed && CanSchedule(w.policy, clock))
            && (r.Ok? ==> r.value.pending.close.Some? && r.value == w.(pending := w.pending.(close := r.value.pending.close)))
  {
    ScheduleExactly(w.policy, clock);
    hide ScheduleFrom, CanSchedule;
  }

  /** Cancelling: there is something to cancel, and only that goes. */
  lemma CancelExactly(w: World, agent: Key)
    ensures CancelPolicyStep(w).Ok? <==> w.pending.policy.Some?
    ensures CancelPolicyStep(w).Ok? ==>
              CancelPolicyStep(w).value == w.(pending := w.pending.(policy := None), policy := w.policy.(hasPendingPolicy := false))
    ensures CancelPermsStep(w, agent).Ok? <==> agent in w.pending.perms
    ensures CancelPermsStep(w, agent).Ok? ==>
              var w' := CancelPermsStep(w, agent).value;
              && w' == w.(pending := w.pending.(perms := w'.pending.perms)) && w'.pending.perms.Keys == w.pending.perms.Keys - {agent}
              && forall k :: k in w'.pending.perms ==> w'.pending.perms[k] == w.pending.perms[k]
    ensures CancelConstraintsStep(w).Ok? <==>
            w.pending.constraints.Some? && w.pending.constraints.value.content.vault == w.vault.key
    ensures CancelConstraintsStep(w).Ok? ==> CancelConstraintsStep(w).value == w.(pending := w.pending.(constraints := None))
    ensures CancelCloseStep(w).Ok? <==> w.pending.close.Some?
    ensures CancelCloseStep(w).Ok? ==> CancelCloseStep(w).value == w.(pending := w.pending.(close := None))
  {
  }

  // ---- Applying ----

  /** The timelock has run out and fewer than 216,000 slots have passed. */
  predicate Ripe(s: Schedule, clock: Clock) {
    clock.unixTimestamp >= s.executesAt && clock.slot < s.queuedAtSlot + 216_000
  }

  lemma DueExactly(s: Schedule, clock: Clock)
    ensures Due(s, clock).Ok? <==> Ripe(s, clock)
    ensures clock.unixTimestamp < s.executesAt ==> Due(s, clock) == Err(TimelockNotExpired)
    ensures clock.unixTimestamp >= s.executesAt && !Ripe(s, clock) ==> Due(s, clock) == Err(QueuedUpdateExpired)
  {
  }

  lemma ApplyPolicyExactly(w: World, clock: Clock)
    ensures ApplyPolicyStep(w, clock).Ok? <==>
            && w.pending.policy.Some? && Ripe(w.pending.policy.value.schedule, clock) && w.policy.policyVersion < U64_MAX
            && var u := w.pending.policy.value.update;
               && (u.timelockDuration.Some? ==> u.timelockDuration.value >= 1800)
               && (u.destinationMode.Some? ==> u.destinationMode.value <= 1)
    ensures w.pending.policy.Some? ==>
              var r, s, u := ApplyPolicyStep(w, clock), w.pending.policy.value.schedule, w.pending.policy.value.update;
              var longEnough := u.timelockDuration.Some? ==> u.timelockDuration.value >= 1800;
              && (clock.unixTimestamp < s.executesAt ==> r == Err(TimelockNotExpired))
              && (clock.unixTimestamp >= s.executesAt && !Ripe(s, clock) ==> r == Err(QueuedUpdateExpired))
              && (Ripe(s, clock) && !longEnough ==> r == Err(TimelockTooShort))
              && (Ripe(s, clock) && longEnough && u.destinationMode.Some? && u.destinationMode.value > 1 ==> r == Err(InvalidDestinationMode))
  {
  }

  lemma ApplyPermsExactly(w: World, agent: Key, clock: Clock)
    requires SlotsHeld(w.vault.agents, w.overlay)
    ensures ApplyPermsStep(w, agent, clock).Ok? <==>
            && agent in w.pending.perms && Ripe(w.pending.perms[agent].schedule, clock) && Registered(w.vault.agents, agent)
            && w.policy.policyVersion < U64_MAX
    ensures agent in w.pending.perms ==>
              var r, s := ApplyPermsStep(w, agent, clock), w.pending.perms[agent].schedule;
              && (clock.unixTimestamp < s.executesAt ==> r == Err(TimelockNotExpired))
              && (clock.unixTimestamp >= s.executesAt && !Ripe(s, clock) ==> r == Err(QueuedUpdateExpired))
              && (Ripe(s, clock) && !Registered(w.vault.agents, agent) ==> r == Err(UnauthorizedAgent))
  {
    FoundIfRegistered(w.vault.agents, agent);
    var entry := FindAgent(w.vault.agents, agent);
    if agent in w.pending.perms && entry.Some? {
      var pending := w.pending.perms[agent];
      RearrangedSlots(w.vault.agents, w.overlay,
        entry.value.(capability := pending.newCapability, spendingLimitUsd := pending.spendingLimitUsd));
    }
    hide FindAgent, UpdateAgent, RearrangeSlots, Registered, SlotsHeld;
  }

  lemma ApplyConstraintsExactly(w: World, clock: Clock)
    ensures ApplyConstraintsStep(w, clock).Ok? <==>
            && w.constraints.Some? && w.pending.constraints.Some? && Ripe(w.pending.constraints.value.schedule, clock)
            && w.pending.constraints.value.content.vault == w.vault.key && w.constraints.value.vault == w.vault.key
            && w.policy.policyVersion < U64_MAX
  {
  }

  lemma ApplyCloseExactly(w: World, withPending: bool, clock: Clock)
    ensures ApplyCloseStep(w, withPending, clock).Ok? <==>
            && w.constraints.Some? && w.pending.close.Some? && Ripe(w.pending.close.value, clock)
            && w.constraints.value.vault == w.vault.key && w.policy.policyVersion < U64_MAX
    ensures ApplyCloseStep(w, withPending, clock).Ok? ==>
              var w' := ApplyCloseStep(w, withPending, clock).value;
              w'.pending.close.None? && w'.pending.constraints == if withPending then None else w.pending.constraints
  {
  }

  function ApplyOp(ch: Change): Op {
    match ch
    case PolicyChange => ApplyPolicy
    case PermsChange(agent) => ApplyPerms(agent)
    case ConstraintsChange => ApplyConstraints
    case CloseChange => ApplyClose(true)
  }

  /** What a change applies to is still there. */
  predicate TargetExists(w: World, ch: Change) {
    match ch
    case PolicyChange => true
    case PermsChange(agent) => Registered(w.vault.agents, agent)
    case _ => w.constraints.Some?
  }

  lemma RipeChangeApplies(chain: Chain, w: World, ch: Change, clock: Clock)
    requires Lawful(w) && SlotsHeld(w.vault.agents, w.overlay) && PendingOf(w, ch).Some?
    ensures Exec(chain, w, Event(ApplyOp(ch), clock)).Ok? <==>
            Ripe(PendingOf(w, ch).value.schedule, clock) && TargetExists(w, ch) && w.policy.policyVersion < U64_MAX
  {
    hide ApplyPolicyStep, ApplyPermsStep, ApplyConstraintsStep, ApplyCloseStep, Registered, SlotsHeld, Ripe;
    match ch
    case PolicyChange => ApplyPolicyExactly(w, clock);
    case PermsChange(agent) => ApplyPermsExactly(w, agent, clock);
    case ConstraintsChange => ApplyConstraintsExactly(w, clock);
    case CloseChange => ApplyCloseExactly(w, true, clock);
  }

  /** Exactly when a queued change may land. In a run from a new vault, a change queued by
      instruction i and not touched until n can be applied at a given clock if and only if its
      timelock as of then has run out, fewer than 216,000 slots have passed, what it applies to is
      still there, and the version counter is not exhausted. */
  lemma QueuedChangeAppliesExactly(chain: Chain, w: World, trace: seq<Event>, i: nat, n: nat, ch: Change, clock: Clock)
    requires Initial(w) && i < n <= |trace| && QueuedAt(chain, w, trace, i, n, ch)
    requires After(chain, w, trace[..i]).policy.timelockDuration <= U64_MAX
    ensures var s := After(chain, w, trace[..n]);
            Exec(chain, s, Event(ApplyOp(ch), clock)).Ok? <==>
            && clock.unixTimestamp >=
                 trace[i].clock.unixTimestamp + SignedDuration(After(chain, w, trace[..i]).policy.timelockDuration)
            && clock.slot < trace[i].clock.slot + 216_000
            && TargetExists(s, ch) && s.policy.policyVersion < U64_MAX
  {
    hide Exec, After, Lawful, SlotsHeld, Initial, ScheduleFrom, TargetExists, PendingOf, Queues, Clears;
    ReachableIsLawful(chain, w, trace[..n]);
    ReachableSlots(chain, w, trace[..n]);
    ScheduleExactly(After(chain, w, trace[..i]).policy, trace[i].clock);
    RipeChangeApplies(chain, After(chain, w, trace[..n]), ch, clock);
  }
}
