/** Who holds the ten per-agent slots, over whole runs of the program. */
module OverlaySlots {
  import opened Common
  import opened Fees
  import opened Program
  import opened Governance
  import T = SpendTracking
  import O = AgentOverlay

  /** At most ten agents, with distinct non-default keys. */
  ghost predicate Roster(agents: seq<AgentEntry>) {
    && |agents| <= MAX_AGENTS_PER_VAULT
    && (forall i :: 0 <= i < |agents| ==> agents[i].pubkey != DEFAULT_KEY)
    && (forall i, j :: 0 <= i < j < |agents| ==> agents[i].pubkey != agents[j].pubkey)
  }

  /** Occupied slots belong to distinct registered agents; empty ones hold no history. */
  ghost predicate Occupancy(agents: seq<AgentEntry>, overlay: O.Entries) {
    && (forall i :: 0 <= i < |overlay| && overlay[i].agent == DEFAULT_KEY ==> overlay[i] == O.Fresh(DEFAULT_KEY))
    && (forall i :: 0 <= i < |overlay| && overlay[i].agent != DEFAULT_KEY ==> FindAgent(agents, overlay[i].agent).Some?)
    && (forall i, j :: 0 <= i < j < |overlay| && overlay[i].agent != DEFAULT_KEY ==> overlay[i].agent != overlay[j].agent)
  }

  /** Every agent with a limit has a slot. */
  ghost predicate LimitsAreMetered(agents: seq<AgentEntry>, overlay: O.Entries) {
    forall i :: 0 <= i < |agents| && agents[i].spendingLimitUsd > 0 ==> O.FindSlot(overlay, agents[i].pubkey).Some?
  }

  ghost predicate SlotsHeld(agents: seq<AgentEntry>, overlay: O.Entries) {
    Roster(agents) && Occupancy(agents, overlay) && LimitsAreMetered(agents, overlay)
  }

  // ---- A free slot is always there ----

  function KeysOf(agents: seq<AgentEntry>): set<Key> {
    set i | 0 <= i < |agents| :: agents[i].pubkey
  }

  lemma {:induction false} FewKeys(agents: seq<AgentEntry>)
    ensures |KeysOf(agents)| <= |agents|
  {
    if agents != [] {
      var k := |agents| - 1;
      FewKeys(agents[..k]);
      assert KeysOf(agents) == KeysOf(agents[..k]) + {agents[k].pubkey};
    }
  }

  lemma {:induction false} ManyHolders(overlay: seq<O.Entry>) returns (holders: set<Key>)
    requires forall i, j :: 0 <= i < j < |overlay| ==> overlay[i].agent != overlay[j].agent
    ensures holders == (set i | 0 <= i < |overlay| :: overlay[i].agent) && |holders| == |overlay|
  {
    if overlay == [] {
      holders := {};
    } else {
      var k := |overlay| - 1;
      var fewer := ManyHolders(overlay[..k]);
      holders := fewer + {overlay[k].agent};
      assert holders == set i | 0 <= i < |overlay| :: overlay[i].agent;
    }
  }

  /** When the slot holders come from fewer than ten agents, some slot is empty. */
  lemma {:induction false} FreeSlot(agents: seq<AgentEntry>, overlay: O.Entries, agent: Key)
    requires Occupancy(agents, overlay) && O.FindSlot(overlay, agent).None?
    requires |agents| < MAX_AGENTS_PER_VAULT || (FindAgent(agents, agent).Some? && |agents| == MAX_AGENTS_PER_VAULT)
    ensures O.FindSlot(overlay, DEFAULT_KEY).Some?
  {
    FewKeys(agents);
    if FindAgent(agents, agent).Some? {
      var j :| 0 <= j < |agents| && agents[j].pubkey == agent;
      assert agent in KeysOf(agents);
    }
    if O.FindSlot(overlay, DEFAULT_KEY).None? {
      var holders := ManyHolders(overlay);
      forall k | k in holders
        ensures k in KeysOf(agents) - {agent}
      {
        var i :| 0 <= i < |overlay| && overlay[i].agent == k;
        var entry := FindAgent(agents, k).value;
        var j :| 0 <= j < |agents| && agents[j] == entry;
      }
      SubsetIsSmaller(holders, KeysOf(agents) - {agent});
      assert false;
    }
  }

  lemma {:induction false} SubsetIsSmaller(a: set<Key>, b: set<Key>)
    requires a <= b
    ensures |a| <= |b|
  {
    if a != {} {
      var x :| x in a;
      SubsetIsSmaller(a - {x}, b - {x});
    }
  }

  // ---- Looking slots up after a change ----

  lemma SameSlot(overlay: O.Entries, overlay': O.Entries, key: Key)
    requires forall j :: 0 <= j < |overlay| ==> (overlay[j].agent == key <==> overlay'[j].agent == key)
    ensures O.FindSlot(overlay', key) == O.FindSlot(overlay, key)
  {
    FirstSlot(overlay, key);
    FirstSlot(overlay', key);
  }

  lemma FirstSlot(overlay: O.Entries, key: Key)
    ensures var r := O.FindSlot(overlay, key);
            if r.Some? then r.value < |overlay| && overlay[r.value].agent == key &&
                            forall j :: 0 <= j < r.value ==> overlay[j].agent != key
            else forall j :: 0 <= j < |overlay| ==> overlay[j].agent != key
  {
  }

  // ---- Every instruction keeps the slots ----

  /** Keying an empty slot to an agent without one. */
  lemma ClaimKeepsSlots(agents: seq<AgentEntry>, overlay: O.Entries, i: nat, agent: Key)
    requires Roster(agents) && Occupancy(agents, overlay)
    requires i < |overlay| && overlay[i].agent == DEFAULT_KEY
    requires FindAgent(agents, agent).Some? && O.FindSlot(overlay, agent).None?
    ensures Occupancy(agents, overlay[i := overlay[i].(agent := agent)])
    ensures O.FindSlot(overlay[i := overlay[i].(agent := agent)], agent) == Some(i)
    ensures forall key :: key != agent && key != DEFAULT_KEY ==>
              O.FindSlot(overlay[i := overlay[i].(agent := agent)], key) == O.FindSlot(overlay, key)
  {
    hide O.FindSlot, FindAgent;
    var claimed := overlay[i := overlay[i].(agent := agent)];
    FirstSlot(overlay, agent);
    FirstSlot(claimed, agent);
    assert claimed[i].agent == agent;
    assert forall j :: 0 <= j < |claimed| && j != i ==> claimed[j].agent != agent;
    forall key | key != agent && key != DEFAULT_KEY
      ensures O.FindSlot(claimed, key) == O.FindSlot(overlay, key)
    {
      SameSlot(overlay, claimed, key);
    }
  }

  /** Emptying the slot of an agent. */
  lemma ReleaseKeepsSlots(agents: seq<AgentEntry>, agents': seq<AgentEntry>, overlay: O.Entries, i: nat)
    requires Occupancy(agents, overlay) && i < |overlay|
    requires forall key :: key != overlay[i].agent && FindAgent(agents, key).Some? ==> FindAgent(agents', key).Some?
    ensures Occupancy(agents', overlay[i := O.Fresh(DEFAULT_KEY)])
    ensures forall key :: key != overlay[i].agent && key != DEFAULT_KEY ==>
              O.FindSlot(overlay[i := O.Fresh(DEFAULT_KEY)], key) == O.FindSlot(overlay, key)
  {
    var released := overlay[i := O.Fresh(DEFAULT_KEY)];
    forall key | key != overlay[i].agent && key != DEFAULT_KEY
      ensures O.FindSlot(released, key) == O.FindSlot(overlay, key)
    {
      SameSlot(overlay, released, key);
    }
  }

  lemma NewcomersHaveNoSlot(agents: seq<AgentEntry>, overlay: O.Entries, agent: Key)
    requires Occupancy(agents, overlay) && FindAgent(agents, agent).None? && agent != DEFAULT_KEY
    ensures O.FindSlot(overlay, agent).None?
  {
    FirstSlot(overlay, agent);
  }

  lemma OccupancyGrows(agents: seq<AgentEntry>, agents': seq<AgentEntry>, overlay: O.Entries)
    requires Occupancy(agents, overlay)
    requires forall key :: FindAgent(agents, key).Some? ==> FindAgent(agents', key).Some?
    ensures Occupancy(agents', overlay)
  {
  }

  lemma NewcomerSlots(agents: seq<AgentEntry>, overlay: O.Entries, entry: AgentEntry)
    requires SlotsHeld(agents, overlay) && |agents| < MAX_AGENTS_PER_VAULT
    requires FindAgent(agents, entry.pubkey).None? && entry.pubkey != DEFAULT_KEY
    ensures Roster(agents + [entry]) && Occupancy(agents + [entry], overlay)
    ensures O.FindSlot(overlay, entry.pubkey).None? && O.FindSlot(overlay, DEFAULT_KEY).Some?
    ensures var i := O.FindSlot(overlay, DEFAULT_KEY).value;
            SlotsHeld(agents + [entry], overlay[i := overlay[i].(agent := entry.pubkey)])
  {
    hide O.FindSlot, FindAgent;
    NewcomersHaveNoSlot(agents, overlay, entry.pubkey);
    FreeSlot(agents, overlay, entry.pubkey);
    FirstSlot(overlay, DEFAULT_KEY);
    AppendedAgent(agents, entry);
    OccupancyGrows(agents, agents + [entry], overlay);
    ClaimKeepsSlots(agents + [entry], overlay, O.FindSlot(overlay, DEFAULT_KEY).value, entry.pubkey);
  }

  lemma RegisterKeepsSlots(w: World, agent: Key, capability: nat, limit: nat)
    requires SlotsHeld(w.vault.agents, w.overlay)
    ensures var r := RegisterStep(w, agent, capability, limit);
            && r != Err(OverlaySlotExhausted) && r != Err(AgentSlotNotFound)
            && (r.Ok? ==> SlotsHeld(r.value.vault.agents, r.value.overlay))
  {
    hide SlotsHeld;
    if |w.vault.agents| < MAX_AGENTS_PER_VAULT && FindAgent(w.vault.agents, agent).None? && agent != DEFAULT_KEY {
      NewcomerSlots(w.vault.agents, w.overlay, AgentEntry(agent, capability, limit, false));
    }
  }

  lemma {:induction false} AppendedAgent(agents: seq<AgentEntry>, entry: AgentEntry)
    requires FindAgent(agents, entry.pubkey).None?
    ensures FindAgent(agents + [entry], entry.pubkey) == Some(entry)
    ensures forall key :: key != entry.pubkey ==> FindAgent(agents + [entry], key) == FindAgent(agents, key)
  {
    if agents != [] {
      assert (agents + [entry])[1..] == agents[1..] + [entry];
      assert FindAgent(agents[1..], entry.pubkey).None? by {
        forall i | 0 <= i < |agents[1..]|
          ensures agents[1..][i].pubkey != entry.pubkey
        {
          assert agents[1..][i] == agents[i + 1];
        }
      }
      AppendedAgent(agents[1..], entry);
    }
  }

  lemma {:induction false} RemovedFind(agents: seq<AgentEntry>, key: Key, other: Key)
    ensures FindAgent(RemoveAgent(agents, key), other) == if other == key then None else FindAgent(agents, other)
  {
    if agents != [] {
      RemovedFind(agents[1..], key, other);
      var rest := RemoveAgent(agents[1..], key);
      assert ([agents[0]] + rest)[1..] == rest;
    }
  }

  lemma TailRoster(agents: seq<AgentEntry>)
    requires Roster(agents) && agents != []
    ensures Roster(agents[1..]) && forall e :: e in agents[1..] ==> e.pubkey != agents[0].pubkey
  {
  }

  lemma LongerRoster(e: AgentEntry, rest: seq<AgentEntry>)
    requires Roster(rest) && |rest| < MAX_AGENTS_PER_VAULT && e.pubkey != DEFAULT_KEY && forall x :: x in rest ==> x.pubkey != e.pubkey
    ensures Roster([e] + rest)
  {
  }

  lemma {:induction false} RemovedRoster(agents: seq<AgentEntry>, key: Key)
    requires Roster(agents)
    ensures Roster(RemoveAgent(agents, key))
  {
    if agents != [] {
      TailRoster(agents);
      RemovedRoster(agents[1..], key);
      assert agents[0].pubkey != DEFAULT_KEY && |agents| <= MAX_AGENTS_PER_VAULT;
      hide Roster;
      if agents[0].pubkey != key {
        LongerRoster(agents[0], RemoveAgent(agents[1..], key));
      }
    }
  }

  lemma RemovedAgent(agents: seq<AgentEntry>, key: Key)
    requires Roster(agents)
    ensures Roster(RemoveAgent(agents, key))
    ensures forall other :: FindAgent(RemoveAgent(agents, key), other) ==
              if other == key then None else FindAgent(agents, other)
  {
    hide FindAgent, RemoveAgent;
    RemovedRoster(agents, key);
    forall other: Key
      ensures FindAgent(RemoveAgent(agents, key), other) == if other == key then None else FindAgent(agents, other)
    {
      RemovedFind(agents, key, other);
    }
  }

  lemma RevokedSlots(agents: seq<AgentEntry>, overlay: O.Entries, agent: Key)
    requires SlotsHeld(agents, overlay) && FindAgent(agents, agent).Some?
    ensures var slot, rest := O.FindSlot(overlay, agent), RemoveAgent(agents, agent);
            SlotsHeld(rest, if slot.Some? then overlay[slot.value := O.Fresh(DEFAULT_KEY)] else overlay)
  {
    var rest, slot := RemoveAgent(agents, agent), O.FindSlot(overlay, agent);
    RemovedAgent(agents, agent);
    FirstSlot(overlay, agent);
    RestAreMetered(agents, overlay, agent);
    hide O.FindSlot, RemoveAgent, FindAgent, LimitsAreMetered;
    if slot.None? {
      assert Occupancy(rest, overlay);
    } else {
      ReleaseKeepsSlots(agents, rest, overlay, slot.value);
      StillMetered(rest, overlay, overlay[slot.value := O.Fresh(DEFAULT_KEY)], agent);
    }
  }

  lemma RestAreMetered(agents: seq<AgentEntry>, overlay: O.Entries, agent: Key)
    requires LimitsAreMetered(agents, overlay)
    ensures LimitsAreMetered(RemoveAgent(agents, agent), overlay)
    ensures forall i :: 0 <= i < |RemoveAgent(agents, agent)| ==> RemoveAgent(agents, agent)[i].pubkey != agent
  {
    hide O.FindSlot;
    var rest := RemoveAgent(agents, agent);
    forall i | 0 <= i < |rest|
      ensures rest[i].pubkey != agent
      ensures rest[i].spendingLimitUsd > 0 ==> O.FindSlot(overlay, rest[i].pubkey).Some?
    {
      assert rest[i] in rest;
    }
  }

  lemma StillMetered(agents: seq<AgentEntry>, overlay: O.Entries, overlay': O.Entries, except: Key)
    requires LimitsAreMetered(agents, overlay)
    requires forall i :: 0 <= i < |agents| ==> agents[i].pubkey != except && agents[i].pubkey != DEFAULT_KEY
    requires forall key :: key != except && key != DEFAULT_KEY ==> O.FindSlot(overlay', key) == O.FindSlot(overlay, key)
    ensures LimitsAreMetered(agents, overlay')
  {
    hide O.FindSlot;
  }

  lemma RevokeKeepsSlots(w: World, agent: Key)
    requires SlotsHeld(w.vault.agents, w.overlay)
    ensures var r := RevokeStep(w, agent);
            && r != Err(OverlaySlotExhausted) && r != Err(AgentSlotNotFound)
            && (r.Ok? ==> SlotsHeld(r.value.vault.agents, r.value.overlay))
  {
    hide SlotsHeld;
    if FindAgent(w.vault.agents, agent).Some? {
      RevokedSlots(w.vault.agents, w.overlay, agent);
    }
  }

  lemma {:induction false} UpdatedRoster(agents: seq<AgentEntry>, key: Key, entry: AgentEntry)
    requires Roster(agents) && FindAgent(agents, key).Some? && entry.pubkey == key
    ensures Roster(UpdateAgent(agents, key, entry))
    ensures forall other :: FindAgent(UpdateAgent(agents, key, entry), other).Some? == FindAgent(agents, other).Some?
    ensures forall i :: 0 <= i < |agents| && agents[i].pubkey != key ==> UpdateAgent(agents, key, entry)[i] == agents[i]
    ensures forall i :: 0 <= i < |agents| && agents[i].pubkey == key ==> UpdateAgent(agents, key, entry)[i] == entry
  {
    UpdateKeepsOthers(agents, key, entry);
    var r := UpdateAgent(agents, key, entry);
    forall i | 0 <= i < |agents|
      ensures r[i] == if agents[i].pubkey == key then entry else agents[i]
    {
      UpdatedAt(agents, key, entry, i);
    }
  }

  lemma {:induction false} UpdatedAt(agents: seq<AgentEntry>, key: Key, entry: AgentEntry, i: nat)
    requires Roster(agents) && i < |agents|
    ensures UpdateAgent(agents, key, entry)[i] == if agents[i].pubkey == key then entry else agents[i]
  {
    if agents[0].pubkey != key && i > 0 {
      UpdatedAt(agents[1..], key, entry, i - 1);
    }
  }

  lemma PauseKeepsSlots(w: World, agent: Key, paused: bool)
    requires SlotsHeld(w.vault.agents, w.overlay)
    ensures var r := PauseStep(w, agent, paused);
            && r != Err(OverlaySlotExhausted) && r != Err(AgentSlotNotFound)
            && (r.Ok? ==> SlotsHeld(r.value.vault.agents, r.value.overlay))
  {
    var found := FindAgent(w.vault.agents, agent);
    if found.Some? {
      UpdatedSlots(w.vault.agents, w.overlay, found.value.(paused := paused));
      hide SlotsHeld;
    }
  }

  /** New rights for a registered agent, whose slot already suits them. */
  lemma UpdatedSlots(agents: seq<AgentEntry>, overlay: O.Entries, entry: AgentEntry)
    requires Roster(agents) && Occupancy(agents, overlay) && FindAgent(agents, entry.pubkey).Some?
    requires forall i :: 0 <= i < |agents| && agents[i].pubkey != entry.pubkey && agents[i].spendingLimitUsd > 0 ==>
               O.FindSlot(overlay, agents[i].pubkey).Some?
    requires entry.spendingLimitUsd > 0 ==> O.FindSlot(overlay, entry.pubkey).Some?
    ensures SlotsHeld(UpdateAgent(agents, entry.pubkey, entry), overlay)
  {
    UpdatedRoster(agents, entry.pubkey, entry);
    OccupancyGrows(agents, UpdateAgent(agents, entry.pubkey, entry), overlay);
  }

  /** Claiming or releasing as the limit changes always succeeds and keeps the slots. */
  lemma RearrangedSlots(agents: seq<AgentEntry>, overlay: O.Entries, entry: AgentEntry)
    requires SlotsHeld(agents, overlay) && FindAgent(agents, entry.pubkey).Some?
    ensures var r := RearrangeSlots(overlay, entry.pubkey, FindAgent(agents, entry.pubkey).value.spendingLimitUsd, entry.spendingLimitUsd);
            r.Ok? && SlotsHeld(UpdateAgent(agents, entry.pubkey, entry), r.value)
  {
    hide O.FindSlot, UpdateAgent, FindAgent;
    var agent, oldLimit := entry.pubkey, FindAgent(agents, entry.pubkey).value.spendingLimitUsd;
    var slot := O.FindSlot(overlay, agent);
    FirstSlot(overlay, agent);
    FirstSlot(overlay, DEFAULT_KEY);
    if entry.spendingLimitUsd > 0 && slot.None? {
      FreeSlot(agents, overlay, agent);
      var i := O.FindSlot(overlay, DEFAULT_KEY).value;
      ClaimKeepsSlots(agents, overlay, i, agent);
      UpdatedSlots(agents, overlay[i := overlay[i].(agent := agent)], entry);
    } else if entry.spendingLimitUsd == 0 && oldLimit > 0 && slot.Some? {
      ReleaseKeepsSlots(agents, agents, overlay, slot.value);
      UpdatedSlots(agents, overlay[slot.value := O.Fresh(DEFAULT_KEY)], entry);
    } else {
      UpdatedSlots(agents, overlay, entry);
    }
  }

  /** A permissions update keeps the slots and never finds them exhausted. */
  lemma PermsKeepSlots(w: World, agent: Key, clock: Clock)
    requires SlotsHeld(w.vault.agents, w.overlay)
    ensures var r := ApplyPermsStep(w, agent, clock);
            && r != Err(OverlaySlotExhausted) && r != Err(AgentSlotNotFound)
            && (r.Ok? ==> SlotsHeld(r.value.vault.agents, r.value.overlay))
  {
    hide SlotsHeld;
    var found := FindAgent(w.vault.agents, agent);
    if agent in w.pending.perms && found.Some? {
      var pending := w.pending.perms[agent];
      RearrangedSlots(w.vault.agents, w.overlay,
        found.value.(capability := pending.newCapability, spendingLimitUsd := pending.spendingLimitUsd));
      hide RearrangeSlots, UpdateAgent;
    }
  }

  lemma ReactivateKeepsSlots(w: World, newAgent: Option<(Key, nat)>)
    requires SlotsHeld(w.vault.agents, w.overlay)
    ensures var r := ReactivateStep(w, newAgent);
            && r != Err(OverlaySlotExhausted) && r != Err(AgentSlotNotFound)
            && (r.Ok? ==> SlotsHeld(r.value.vault.agents, r.value.overlay))
  {
    if newAgent.Some? && ReactivateStep(w, newAgent).Ok? {
      NewcomerSlots(w.vault.agents, w.overlay, AgentEntry(newAgent.value.0, newAgent.value.1, 0, false));
      hide Roster, Occupancy;
    }
  }

  /** What a transfer does to the slots: it records in the agent's own, if there is one. */
  lemma TransferOverlay(chain: Chain, w: World, a: Transfer, clock: Clock)
    requires TransferStep(chain, w, a, clock).Ok?
    ensures var w', slot := TransferStep(chain, w, a, clock).value, O.FindSlot(w.overlay, a.agent);
            && TransferChecks(chain, w.vault, w.policy, a).Ok?
            && w'.overlay == if slot.None? then w.overlay
                             else w.overlay[slot.value := O.Recorded(w.overlay[slot.value], clock.unixTimestamp, TransferChecks(chain, w.vault, w.policy, a).value)]
  {
  }

  lemma RecordedSlots(agents: seq<AgentEntry>, overlay: O.Entries, i: nat, entry: O.Entry)
    requires SlotsHeld(agents, overlay) && i < |overlay| && overlay[i].agent != DEFAULT_KEY
    requires entry.agent == overlay[i].agent
    ensures SlotsHeld(agents, overlay[i := entry])
  {
    forall key: Key
      ensures O.FindSlot(overlay[i := entry], key) == O.FindSlot(overlay, key)
    {
      SameSlot(overlay, overlay[i := entry], key);
    }
  }

  lemma LimitedAgentsHaveSlots(agents: seq<AgentEntry>, overlay: O.Entries, agent: Key)
    requires SlotsHeld(agents, overlay) && FindAgent(agents, agent).Some?
    ensures agent != DEFAULT_KEY
    ensures FindAgent(agents, agent).value.spendingLimitUsd > 0 ==> O.FindSlot(overlay, agent).Some?
  {
    var j :| 0 <= j < |agents| && agents[j] == FindAgent(agents, agent).value;
  }

  predicate IsSlotError(e: Error) {
    e == AgentSlotNotFound || e == OverlaySlotExhausted
  }

  lemma OtherErrors(chain: Chain, w: World, a: Transfer, p: nat, d: nat)
    requires p + d <= a.amount
    ensures var r := TransferChecks(chain, w.vault, w.policy, a); r.Err? ==> !IsSlotError(r.error)
    ensures var r := MoveFunds(chain, w.vault, w.balances, a, p, d); r.Err? ==> !IsSlotError(r.error)
  {
    hide FindAgent, StablecoinToUsd;
  }

  lemma CheckedAgentExists(chain: Chain, w: World, a: Transfer)
    requires TransferChecks(chain, w.vault, w.policy, a).Ok?
    ensures FindAgent(w.vault.agents, a.agent).Some?
  {
    hide FindAgent, StablecoinToUsd;
  }

  lemma ChargeErrors(overlay: O.Entries, agent: Key, limit: nat, now: int, usd: nat)
    requires limit > 0 ==> O.FindSlot(overlay, agent).Some?
    ensures var r := ChargeAgent(overlay, agent, limit, now, usd); r.Err? ==> !IsSlotError(r.error)
  {
    hide O.FindSlot, O.Reading, O.Recordable, O.Recorded;
  }

  lemma TransferErrors(chain: Chain, w: World, a: Transfer, clock: Clock)
    requires var agent := FindAgent(w.vault.agents, a.agent);
             agent.Some? && agent.value.spendingLimitUsd > 0 ==> O.FindSlot(w.overlay, a.agent).Some?
    ensures var r := TransferStep(chain, w, a, clock); r.Err? ==> !IsSlotError(r.error)
  {
    hide TransferChecks, ChargeAgent, MoveFunds, T.Reading, T.Recorded, T.Recordable, CeilFee, O.FindSlot, FindAgent;
    var checked := TransferChecks(chain, w.vault, w.policy, a);
    OtherErrors(chain, w, a, 0, 0);
    if checked.Ok? {
      CheckedAgentExists(chain, w, a);
      ChargeErrors(w.overlay, a.agent, FindAgent(w.vault.agents, a.agent).value.spendingLimitUsd, clock.unixTimestamp, checked.value);
      var protocolFee, developerFee := CeilFee(a.amount, PROTOCOL_FEE_RATE), CeilFee(a.amount, w.policy.developerFeeRate);
      if protocolFee.Some? && developerFee.Some? && protocolFee.value + developerFee.value <= a.amount {
        OtherErrors(chain, w, a, protocolFee.value, developerFee.value);
      }
    }
  }

  lemma TransferKeepsSlots(chain: Chain, w: World, a: Transfer, clock: Clock)
    requires SlotsHeld(w.vault.agents, w.overlay)
    ensures var r := TransferStep(chain, w, a, clock);
            && r != Err(AgentSlotNotFound) && r != Err(OverlaySlotExhausted)
            && (r.Ok? ==> SlotsHeld(r.value.vault.agents, r.value.overlay))
  {
    hide SlotsHeld, O.FindSlot, FindAgent, TransferStep, TransferChecks;
    if FindAgent(w.vault.agents, a.agent).Some? {
      LimitedAgentsHaveSlots(w.vault.agents, w.overlay, a.agent);
    }
    TransferErrors(chain, w, a, clock);
    if TransferStep(chain, w, a, clock).Ok? {
      TransferKeepsConfiguration(chain, w, a, clock);
      TransferOverlay(chain, w, a, clock);
      CheckedAgentExists(chain, w, a);
      var slot := O.FindSlot(w.overlay, a.agent);
      if slot.Some? {
        FirstSlot(w.overlay, a.agent);
        RecordedSlots(w.vault.agents, w.overlay, slot.value,
          O.Recorded(w.overlay[slot.value], clock.unixTimestamp, TransferChecks(chain, w.vault, w.policy, a).value));
      }
    }
  }

  /** Every instruction keeps the slots, and none fails for want of one. */
  lemma SlotStep(chain: Chain, w: World, ev: Event)
    requires SlotsHeld(w.vault.agents, w.overlay)
    ensures var r := Exec(chain, w, ev);
            && r != Err(AgentSlotNotFound) && r != Err(OverlaySlotExhausted)
            && (r.Ok? ==> SlotsHeld(r.value.vault.agents, r.value.overlay))
  {
    hide TransferStep, ApplyPermsStep, RegisterStep, RevokeStep, PauseStep, ReactivateStep, SlotsHeld;
    match ev.op
    case AgentTransfer(a) => TransferKeepsSlots(chain, w, a, ev.clock);
    case ApplyPerms(agent) => PermsKeepSlots(w, agent, ev.clock);
    case Register(agent, capability, limit) => RegisterKeepsSlots(w, agent, capability, limit);
    case Revoke(agent) => RevokeKeepsSlots(w, agent);
    case Pause(agent, paused) => PauseKeepsSlots(w, agent, paused);
    case Reactivate(newAgent) => ReactivateKeepsSlots(w, newAgent);
    case _ =>
  }

  /** In every reachable state the slots are held, so no instruction ever fails with
      OverlaySlotExhausted or AgentSlotNotFound. */
  lemma {:induction false} ReachableSlots(chain: Chain, w: World, trace: seq<Event>)
    requires Initial(w)
    ensures SlotsHeld(After(chain, w, trace).vault.agents, After(chain, w, trace).overlay)
    ensures forall ev :: Exec(chain, After(chain, w, trace), ev) != Err(AgentSlotNotFound)
                      && Exec(chain, After(chain, w, trace), ev) != Err(OverlaySlotExhausted)
  {
    hide Exec;
    if trace != [] {
      var before := After(chain, w, trace[..|trace| - 1]);
      ReachableSlots(chain, w, trace[..|trace| - 1]);
      SlotStep(chain, before, trace[|trace| - 1]);
    }
    forall ev: Event
      ensures Exec(chain, After(chain, w, trace), ev) != Err(AgentSlotNotFound)
      ensures Exec(chain, After(chain, w, trace), ev) != Err(OverlaySlotExhausted)
    {
      SlotStep(chain, After(chain, w, trace), ev);
    }
  }
}
