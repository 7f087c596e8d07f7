/** The five core instruction handlers as they run: accounts are objects changed in place, and
    the runtime restores them when a handler fails. Each is proved against its step in Program. */
module Accounts {
  import opened Common
  import opened SpendLog
  import opened Fees
  import opened Program
  import T = SpendTracking
  import O = AgentOverlay

  class SigilAccounts {
    const chain: Chain
    const tracker: T.SpendTracker
    const overlay: O.AgentSpendOverlay
    var vault: Vault
    var policy: Policy
    var constraints: Option<Constraints>
    var pending: Pending
    var balances: map<Key, nat>

    ghost predicate Valid()
      reads this, tracker, tracker.buckets, overlay, overlay.entries
    {
      tracker.Valid() && overlay.Valid()
    }

    ghost function Contents(): World
      requires Valid()
      reads this, tracker, tracker.buckets, overlay, overlay.entries
    {
      World(vault, policy, tracker.Value(), overlay.entries[..], constraints, pending, balances)
    }

    /** initialize_vault's accounts around a given vault and policy. */
    constructor (chain: Chain, vault: Vault, policy: Policy)
      ensures Valid() && fresh(tracker) && fresh(tracker.buckets) && fresh(overlay) && fresh(overlay.entries)
      ensures this.chain == chain && this.vault == vault && this.policy == policy
      ensures tracker.Value() == T.Empty() && pending == Pending(None, map[], None, None)
    {
      this.chain, this.vault, this.policy := chain, vault, policy;
      constraints, pending, balances := None, Pending(None, map[], None, None), map[];
      tracker := new T.SpendTracker();
      overlay := new O.AgentSpendOverlay();
    }

    // ---- agent_transfer ----

    /** Steps 9 on: the meters. On an error the accounts may be half changed. */
    method ChargeMeters(agent: Key, limit: nat, now: int, usd: nat) returns (r: Result<()>)
      requires Valid() && now <= I64_MAX
      modifies tracker`lastWriteEpoch, tracker.buckets, overlay.entries
      ensures r.Ok? ==> Valid()
      ensures var w := old(Contents());
              var capOk := WithinCap(T.Reading(w.tracker, now), usd, w.policy.dailySpendingCapUsd, SpendingCapExceeded);
              var charged := ChargeAgent(w.overlay, agent, limit, now, usd);
              if capOk.Err? then r == capOk
              else if charged.Err? then r == Err(charged.error)
              else if !T.Recordable(w.tracker, now, usd) then r == Err(Overflow)
              else r == Ok(()) && overlay.entries[..] == charged.value && tracker.Value() == T.Recorded(w.tracker, now, usd)
    {
      var rolling := tracker.GetRolling24hUsd(now);
      var capOk := WithinCap(rolling, usd, policy.dailySpendingCapUsd, SpendingCapExceeded);
      if capOk.Err? {
        return capOk;
      }
      var slot := overlay.FindAgentSlot(agent);
      if slot.Some? {
        if limit > 0 {
          var agentRolling := overlay.GetAgentRolling24hUsd(now, slot.value);
          var fits := WithinCap(agentRolling, usd, limit, AgentSpendLimitExceeded);
          if fits.Err? {
            return fits;
          }
        }
        var recorded := overlay.RecordAgentContribution(now, slot.value, usd);
        if !recorded {
          return Err(Overflow);
        }
      } else if limit > 0 {
        return Err(AgentSlotNotFound);
      }
      var ok := tracker.RecordSpend(now, usd);
      return if ok then Ok(()) else Err(Overflow);
    }

    /** The three token transfers, one after the other. */
    method PayOut(a: Transfer, protocolFee: nat, developerFee: nat) returns (r: Result<()>)
      requires protocolFee + developerFee <= a.amount
      modifies this`balances
      ensures var moved := MoveFunds(chain, vault, old(balances), a, protocolFee, developerFee);
              if moved.Ok? then r == Ok(()) && balances == moved.value else r == Err(moved.error)
    {
      hide Move;
      var from := a.vaultToken.address;
      var net := Move(balances, from, a.destination.address, a.amount - protocolFee - developerFee);
      if net.Err? {
        return Err(net.error);
      }
      balances := net.value;
      if protocolFee > 0 {
        if a.treasury.None? || a.treasury.value.owner != chain.treasury || a.treasury.value.mint != a.mint {
          return Err(InvalidProtocolTreasury);
        }
        var paid := Move(balances, from, a.treasury.value.address, protocolFee);
        if paid.Err? {
          return Err(paid.error);
        }
        balances := paid.value;
      }
      if developerFee > 0 {
        if a.feeDestination.None? || a.feeDestination.value.owner != vault.feeDestination
           || a.feeDestination.value.mint != a.mint {
          return Err(InvalidFeeDestination);
        }
        var paid := Move(balances, from, a.feeDestination.value.address, developerFee);
        if paid.Err? {
          return Err(paid.error);
        }
        balances := paid.value;
      }
      return Ok(());
    }

    /** The vault's three counters, one after the other. */
    method UpdateStats(amount: nat, developerFee: nat) returns (ok: bool)
      modifies this`vault
      ensures var v := old(vault);
              && ok == !(v.totalTransactions + 1 > U64_MAX || v.totalVolume + amount > U64_MAX
                         || (developerFee > 0 && v.totalFeesCollected + developerFee > U64_MAX))
              && (ok ==> vault == v.(totalTransactions := v.totalTransactions + 1, totalVolume := v.totalVolume + amount,
                                     totalFeesCollected := v.totalFeesCollected + developerFee))
    {
      if vault.totalTransactions + 1 > U64_MAX {
        return false;
      }
      vault := vault.(totalTransactions := vault.totalTransactions + 1);
      if vault.totalVolume + amount > U64_MAX {
        return false;
      }
      vault := vault.(totalVolume := vault.totalVolume + amount);
      if developerFee > 0 {
        if vault.totalFeesCollected + developerFee > U64_MAX {
          return false;
        }
        vault := vault.(totalFeesCollected := vault.totalFeesCollected + developerFee);
      }
      return true;
    }

    /** The handler proper: on an error it leaves whatever it had already written. */
    method AgentTransferHandler(a: Transfer, clock: Clock) returns (r: Result<()>)
      requires Valid() && clock.unixTimestamp <= I64_MAX
      modifies this`balances, this`vault, tracker`lastWriteEpoch, tracker.buckets, overlay.entries
      ensures r.Ok? ==> Valid()
      ensures var s := TransferStep(chain, old(Contents()), a, clock);
              if s.Ok? then r == Ok(()) && Contents() == s.value else r == Err(s.error)
    {
      hide ChargeAgent, MoveFunds, WithinCap, T.Reading, T.Recorded, T.Recordable, CeilFee, FindAgent, StablecoinToUsd;
      var checked := TransferChecks(chain, vault, policy, a);
      if checked.Err? {
        return Err(checked.error);
      }
      var usd, limit := checked.value, FindAgent(vault.agents, a.agent).value.spendingLimitUsd;
      var charged := ChargeMeters(a.agent, limit, clock.unixTimestamp, usd);
      if charged.Err? {
        return charged;
      }
      var protocolFee := CeilFee(a.amount, PROTOCOL_FEE_RATE);
      if protocolFee.None? {
        return Err(Overflow);
      }
      var developerFee := CeilFee(a.amount, policy.developerFeeRate);
      if developerFee.None? || protocolFee.value + developerFee.value > a.amount {
        return Err(Overflow);
      }
      var paid := PayOut(a, protocolFee.value, developerFee.value);
      if paid.Err? {
        return paid;
      }
      var counted := UpdateStats(a.amount, developerFee.value);
      return if counted then Ok(()) else Err(Overflow);
    }

    /** The transaction: all of the handler's effects or none. */
    method AgentTransfer(a: Transfer, clock: Clock) returns (r: Result<()>)
      requires Valid() && clock.unixTimestamp <= I64_MAX
      modifies this`balances, this`vault, tracker`lastWriteEpoch, tracker.buckets, overlay.entries
      ensures Valid()
      ensures var s := TransferStep(chain, old(Contents()), a, clock);
              if s.Ok? then r == Ok(()) && Contents() == s.value else r == Err(s.error) && Contents() == old(Contents())
    {
      var savedVault, savedBalances := vault, balances;
      var savedTracker, savedEntries := T.Tracker(tracker.buckets[..], tracker.lastWriteEpoch), overlay.entries[..];
      r := AgentTransferHandler(a, clock);
      if r.Err? {
        vault, balances := savedVault, savedBalances;
        tracker.Restore(savedTracker);
        overlay.Restore(savedEntries);
      }
    }

    // ---- apply_pending_policy ----

    /** Overlays the update's fields one by one, checking the two that are checked again. */
    static method OverlayFields(policy: Policy, u: PolicyUpdate) returns (r: Result<Policy>)
      ensures r.Err? ==> r.error == if u.timelockDuration.Some? && u.timelockDuration.value < MIN_TIMELOCK_DURATION
                                    then TimelockTooShort else InvalidDestinationMode
      ensures r.Ok? <==> (u.timelockDuration.Some? ==> u.timelockDuration.value >= MIN_TIMELOCK_DURATION)
                         && (u.destinationMode.Some? ==> u.destinationMode.value <= DESTINATION_MODE_OPEN_WITH_CAP)
      ensures r.Ok? ==> FieldsFollow(policy, r.value, u) && SameFlags(policy, r.value)
                        && r.value.hasPendingPolicy == policy.hasPendingPolicy && r.value.policyVersion == policy.policyVersion
    {
      hide LimitsFollow, RulesFollow;
      var limited := OverlayLimits(policy, u);
      if u.timelockDuration.Some? && u.timelockDuration.value < MIN_TIMELOCK_DURATION {
        return Err(TimelockTooShort);
      }
      if u.destinationMode.Some? && u.destinationMode.value > DESTINATION_MODE_OPEN_WITH_CAP {
        return Err(InvalidDestinationMode);
      }
      var ruled := OverlayRules(policy, limited, u);
      return Ok(ruled);
    }

    /** The first six fields: caps, protocols, fee and slippage. */
    static method OverlayLimits(policy: Policy, u: PolicyUpdate) returns (q: Policy)
      ensures LimitsFollow(policy, q, u) && SameFlags(policy, q)
              && q.hasPendingPolicy == policy.hasPendingPolicy && q.policyVersion == policy.policyVersion
    {
      var cap := Assign(policy.dailySpendingCapUsd, u.dailySpendingCapUsd);
      var maxTx := Assign(policy.maxTransactionSizeUsd, u.maxTransactionAmountUsd);
      var mode := Assign(policy.protocolMode, u.protocolMode);
      var protocols := Assign(policy.protocols, u.protocols);
      var feeRate := Assign(policy.developerFeeRate, u.developerFeeRate);
      var slippage := Assign(policy.maxSlippageBps, u.maxSlippageBps);
      q := policy.(dailySpendingCapUsd := cap, maxTransactionSizeUsd := maxTx, protocolMode := mode,
                   protocols := protocols, developerFeeRate := feeRate, maxSlippageBps := slippage);
    }

    /** The other six, on a policy that has the first six. */
    static method OverlayRules(policy: Policy, limited: Policy, u: PolicyUpdate) returns (q: Policy)
      requires LimitsFollow(policy, limited, u)
      ensures LimitsFollow(policy, q, u) && RulesFollow(policy, q, u) && SameFlags(limited, q)
              && q.hasPendingPolicy == limited.hasPendingPolicy && q.policyVersion == limited.policyVersion
    {
      hide Takes;
      var timelock := Assign(policy.timelockDuration, u.timelockDuration);
      var destinations := Assign(policy.allowedDestinations, u.allowedDestinations);
      var expiry := Assign(policy.sessionExpirySeconds, u.sessionExpirySeconds);
      var hasCaps := Assign(policy.hasProtocolCaps, u.hasProtocolCaps);
      var caps := Assign(policy.protocolCaps, u.protocolCaps);
      var destinationMode := Assign(policy.destinationMode, u.destinationMode);
      q := limited.(timelockDuration := timelock, allowedDestinations := destinations, sessionExpirySeconds := expiry,
                    hasProtocolCaps := hasCaps, protocolCaps := caps, destinationMode := destinationMode);
    }

    /** Assigns one field, if the update carries it. */
    static method Assign<T(==)>(before: T, carried: Option<T>) returns (after: T)
      ensures Takes(after, before, carried)
    {
      after := before;
      if carried.Some? {
        after := carried.value;
      }
    }

    /** The policy is changed in memory and written back only if the handler succeeds. */
    method ApplyPendingPolicy(clock: Clock) returns (r: Result<()>)
      requires Valid()
      modifies this`policy, this`pending
      ensures Valid()
      ensures var s := ApplyPolicyStep(old(Contents()), clock);
              if s.Ok? then r == Ok(()) && Contents() == s.value else r == Err(s.error) && Contents() == old(Contents())
    {
      if pending.policy.None? {
        return Err(AccountMissing);
      }
      var u := pending.policy.value.update;
      var due := Due(pending.policy.value.schedule, clock);
      if due.Err? {
        return due;
      }
      var overlaid := OverlayFields(policy, u);
      if overlaid.Err? {
        return Err(overlaid.error);
      }
      FollowsIsOverlaid(policy, overlaid.value, u);
      hide Overlaid, FieldsFollow, Due;
      var p := overlaid.value.(hasPendingPolicy := false);
      if p.policyVersion + 1 > U64_MAX {
        return Err(Overflow);
      }
      policy := p.(policyVersion := p.policyVersion + 1);
      pending := pending.(policy := None);
      return Ok(());
    }

    // ---- apply_agent_permissions_update ----

    /** Claims a slot for a new limit, releases it for a dropped one. */
    method RearrangeOverlay(agent: Key, oldLimit: nat, newLimit: nat) returns (ok: bool)
      requires overlay.Valid()
      modifies overlay.entries
      ensures overlay.Valid()
      ensures var s := RearrangeSlots(old(overlay.entries[..]), agent, oldLimit, newLimit);
              ok == s.Ok? && overlay.entries[..] == if ok then s.value else old(overlay.entries[..])
      ensures !ok ==> RearrangeSlots(old(overlay.entries[..]), agent, oldLimit, newLimit) == Err(OverlaySlotExhausted)
    {
      hide O.FindSlot;
      var slot := overlay.FindAgentSlot(agent);
      if newLimit > 0 && slot.None? {
        var claimed := overlay.ClaimSlot(agent);
        return claimed.Some?;
      }
      if newLimit == 0 && oldLimit > 0 && slot.Some? {
        overlay.ReleaseSlot(slot.value);
      }
      return true;
    }

    method ApplyAgentPermissionsUpdate(agent: Key, clock: Clock) returns (r: Result<()>)
      requires Valid()
      modifies this`policy, this`pending, this`vault, overlay.entries
      ensures Valid()
      ensures var s := ApplyPermsStep(old(Contents()), agent, clock);
              if s.Ok? then r == Ok(()) && Contents() == s.value else r == Err(s.error) && Contents() == old(Contents())
    {
      hide FindAgent, UpdateAgent, Due, RearrangeSlots;
      if agent !in pending.perms {
        return Err(AccountMissing);
      }
      var change := pending.perms[agent];
      var due := Due(change.schedule, clock);
      if due.Err? {
        return due;
      }
      var entry := FindAgent(vault.agents, agent);
      if entry.None? {
        return Err(UnauthorizedAgent);
      }
      var saved, limit := overlay.entries[..], change.spendingLimitUsd;
      var changed := entry.value.(capability := change.newCapability, spendingLimitUsd := limit);
      var rearranged := RearrangeOverlay(agent, entry.value.spendingLimitUsd, limit);
      if !rearranged {
        return Err(OverlaySlotExhausted);
      }
      if policy.policyVersion + 1 > U64_MAX {
        overlay.Restore(saved);
        return Err(Overflow);
      }
      vault := vault.(agents := UpdateAgent(vault.agents, agent, changed));
      policy := policy.(policyVersion := policy.policyVersion + 1);
      pending := pending.(perms := pending.perms - {agent});
      return Ok(());
    }

    // ---- apply_constraints_update ----

    method ApplyConstraintsUpdate(clock: Clock) returns (r: Result<()>)
      requires Valid()
      modifies this`policy, this`pending, this`constraints
      ensures Valid()
      ensures var s := ApplyConstraintsStep(old(Contents()), clock);
              if s.Ok? then r == Ok(()) && Contents() == s.value else r == Err(s.error) && Contents() == old(Contents())
    {
      if constraints.None? || pending.constraints.None? {
        return Err(AccountMissing);
      }
      var saved, change := constraints, pending.constraints.value;
      if change.content.vault != vault.key {
        return Err(InvalidPendingConstraintsPda);
      }
      var due := Due(change.schedule, clock);
      if due.Err? {
        return due;
      }
      // The bytes are copied before the target's owner is checked; a failure undoes the copy.
      constraints := Some(constraints.value.(entries := change.content.entries));
      if constraints.value.vault != vault.key {
        constraints := saved;
        return Err(InvalidConstraintsPda);
      }
      constraints := Some(constraints.value.(entryCount := change.content.entryCount));
      constraints := Some(constraints.value.(strictMode := change.content.strictMode));
      if policy.policyVersion + 1 > U64_MAX {
        constraints := saved;
        return Err(Overflow);
      }
      policy := policy.(policyVersion := policy.policyVersion + 1);
      pending := pending.(constraints := None);
      return Ok(());
    }

    // ---- apply_close_constraints ----

    method ApplyCloseConstraints(withPending: bool, clock: Clock) returns (r: Result<()>)
      requires Valid()
      modifies this`policy, this`pending, this`constraints
      ensures Valid()
      ensures var s := ApplyCloseStep(old(Contents()), withPending, clock);
              if s.Ok? then r == Ok(()) && Contents() == s.value else r == Err(s.error) && Contents() == old(Contents())
    {
      if constraints.None? || pending.close.None? {
        return Err(AccountMissing);
      }
      if constraints.value.vault != vault.key {
        return Err(InvalidConstraintsPda);
      }
      var due := Due(pending.close.value, clock);
      if due.Err? {
        return due;
      }
      var p := policy.(hasConstraints := false);
      if p.policyVersion + 1 > U64_MAX {
        return Err(Overflow);
      }
      policy := p.(policyVersion := p.policyVersion + 1);
      constraints := None;
      pending := pending.(close := None);
      if withPending && pending.constraints.Some? {
        pending := pending.(constraints := None);
      }
      return Ok(());
    }
  }

  /** The fields one by one leave no room for another policy. */
  lemma FollowsIsOverlaid(p: Policy, q: Policy, u: PolicyUpdate)
    requires FieldsFollow(p, q, u) && SameFlags(p, q)
    requires q.hasPendingPolicy == p.hasPendingPolicy && q.policyVersion == p.policyVersion
    ensures q == Overlaid(p, u)
  {
  }
}
