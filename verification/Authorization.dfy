/** Who may move the vault's money: exactly when a transfer succeeds, which error it gives
    otherwise, and what that means for frozen vaults and paused agents over whole runs. */
module Authorization {
  import opened Common
  import opened SpendLog
  import opened Fees
  import opened Program
  import opened Frames
  import opened Governance
  import opened OverlaySlots
  import T = SpendTracking
  import O = AgentOverlay

  /** Entry i is the first one with this key. */
  ghost predicate FirstEntry(agents: seq<AgentEntry>, key: Key, i: int) {
    0 <= i < |agents| && agents[i].pubkey == key && forall j :: 0 <= j < i ==> agents[j].pubkey != key
  }

  lemma {:induction false} FoundIsFirst(agents: seq<AgentEntry>, key: Key)
    ensures FindAgent(agents, key).Some? ==> exists i :: FirstEntry(agents, key, i) && agents[i] == FindAgent(agents, key).value
    ensures forall i :: FirstEntry(agents, key, i) ==> FindAgent(agents, key) == Some(agents[i])
  {
    if agents != [] && agents[0].pubkey != key {
      FoundIsFirst(agents[1..], key);
      if FindAgent(agents, key).Some? {
        var i :| FirstEntry(agents[1..], key, i) && agents[1..][i] == FindAgent(agents, key).value;
        assert FirstEntry(agents, key, i + 1);
      }
      forall i | FirstEntry(agents, key, i)
        ensures FindAgent(agents, key) == Some(agents[i])
      {
        assert FirstEntry(agents[1..], key, i - 1);
      }
    } else if agents != [] {
      assert FirstEntry(agents, key, 0);
    }
  }

  // ---- What the checks before the meters ask ----

  /** The agent is registered, not paused, and may spend. */
  ghost predicate AgentMaySpend(agents: seq<AgentEntry>, agent: Key) {
    exists i :: FirstEntry(agents, agent, i) && !agents[i].paused && agents[i].capability >= 2
  }

  predicate DestinationOpen(p: Policy, destinationOwner: Key) {
    p.destinationMode == 1 || (p.destinationMode == 0 && destinationOwner in p.allowedDestinations)
  }

  /** Everything the program asks of a transfer before it looks at the meters. */
  ghost predicate Entitled(chain: Chain, vault: Vault, policy: Policy, a: Transfer) {
    && AgentMaySpend(vault.agents, a.agent)
    && vault.status == Active
    && a.expectedPolicyVersion == policy.policyVersion
    && a.amount > 0 && a.mint in chain.stablecoins
    && a.vaultToken.owner == vault.key && a.vaultToken.mint == a.mint && a.destination.mint == a.mint
    && DestinationOpen(policy, a.destination.owner)
    && UsdFits(a.amount, a.decimals) && FloorUsd(a.amount, a.decimals) <= policy.maxTransactionSizeUsd
  }

  lemma ChecksAreEntitlement(chain: Chain, vault: Vault, policy: Policy, a: Transfer)
    ensures TransferChecks(chain, vault, policy, a).Ok? <==> Entitled(chain, vault, policy, a)
    ensures TransferChecks(chain, vault, policy, a).Ok? ==>
              TransferChecks(chain, vault, policy, a).value == FloorUsd(a.amount, a.decimals)
  {
    FoundIsFirst(vault.agents, a.agent);
    UsdIsFloor(a.amount, a.decimals);
    hide FindAgent, StablecoinToUsd, FloorUsd, UsdFits;
    var found := FindAgent(vault.agents, a.agent);
    assert AgentMaySpend(vault.agents, a.agent) <==> found.Some? && !found.value.paused && found.value.capability >= 2;
  }

  /** The error is that of the first check that fails, in the program's order. */
  lemma ChecksInOrder(chain: Chain, vault: Vault, policy: Policy, a: Transfer, i: int)
    requires FirstEntry(vault.agents, a.agent, i)
    ensures var r, agent := TransferChecks(chain, vault, policy, a), vault.agents[i];
            var own := a.vaultToken.owner == vault.key && a.vaultToken.mint == a.mint;
            var version := own && policy.policyVersion == a.expectedPolicyVersion;
            var active := version && vault.status == Active;
            var awake := active && !agent.paused;
            var capable := awake && agent.capability >= 2;
            var positive := capable && a.amount > 0;
            var stable := positive && a.mint in chain.stablecoins;
            var open := stable && DestinationOpen(policy, a.destination.owner);
            var same := open && a.destination.mint == a.mint;
            var fits := same && UsdFits(a.amount, a.decimals);
            && (!own ==> r == Err(InvalidTokenAccount))
            && (own && !version ==> r == Err(PolicyVersionMismatch))
            && (version && !active ==> r == Err(VaultNotActive))
            && (active && !awake ==> r == Err(AgentPaused))
            && (awake && !capable ==> r == Err(InsufficientPermissions))
            && (capable && !positive ==> r == Err(TransactionTooLarge))
            && (positive && !stable ==> r == Err(UnsupportedToken))
            && (stable && !open ==> r == Err(DestinationNotAllowed))
            && (open && !same ==> r == Err(InvalidTokenAccount))
            && (same && !fits ==> r == Err(Overflow))
            && (fits && FloorUsd(a.amount, a.decimals) > policy.maxTransactionSizeUsd ==> r == Err(TransactionTooLarge))
  {
    FoundIsFirst(vault.agents, a.agent);
    UsdIsFloor(a.amount, a.decimals);
    hide FindAgent, StablecoinToUsd, FloorUsd, UsdFits;
  }

  lemma StrangersAreRefused(chain: Chain, vault: Vault, policy: Policy, a: Transfer)
    requires forall i :: 0 <= i < |vault.agents| ==> vault.agents[i].pubkey != a.agent
    ensures TransferChecks(chain, vault, policy, a) == Err(UnauthorizedAgent)
  {
  }

  // ---- The meters, the fees, the money and the counters ----

  /** The spend fits the vault's cap and, for a limited agent, its limit, and both records fit. */
  ghost predicate Room(w: World, agent: Key, usd: nat, now: int) {
    && T.Reading(w.tracker, now) + usd <= w.policy.dailySpendingCapUsd && T.Reading(w.tracker, now) + usd <= U64_MAX
    && T.Recordable(w.tracker, now, usd)
    && forall i :: FirstEntry(w.vault.agents, agent, i) ==>
         var slot, limit := O.FindSlot(w.overlay, agent), w.vault.agents[i].spendingLimitUsd;
         && (limit > 0 ==> slot.Some?)
         && (slot.Some? ==>
               && O.Recordable(w.overlay[slot.value], now, usd)
               && (limit > 0 ==>
                     && O.Reading(w.overlay[slot.value], now) + usd <= limit
                     && O.Reading(w.overlay[slot.value], now) + usd <= U64_MAX))
  }

  /** Both fees exist in 64 bits and leave something or nothing, but no debt. */
  predicate FeesFit(w: World, a: Transfer) {
    && a.amount * PROTOCOL_FEE_RATE + FEE_RATE_DENOMINATOR - 1 <= U64_MAX
    && a.amount * w.policy.developerFeeRate + FEE_RATE_DENOMINATOR - 1 <= U64_MAX
    && ClientCeilFee(a.amount, PROTOCOL_FEE_RATE) + ClientCeilFee(a.amount, w.policy.developerFeeRate) <= a.amount
  }

  predicate FeeAccountFits(account: Option<TokenAccount>, owner: Key, mint: Key) {
    account.Some? && account.value.owner == owner && account.value.mint == mint
  }

  /** Fee accounts are there and right when a fee is due, and the vault's account can pay the net
      amount, the protocol fee and the developer fee in that order; what it pays to itself comes
      back. */
  predicate Funded(chain: Chain, w: World, a: Transfer) {
    var p, d := ClientCeilFee(a.amount, PROTOCOL_FEE_RATE), ClientCeilFee(a.amount, w.policy.developerFeeRate);
    var purse, from := Balance(w.balances, a.vaultToken.address), a.vaultToken.address;
    var second := purse - if a.destination.address == from then 0 else a.amount - p - d;
    && purse >= a.amount - p - d
    && (p > 0 ==> FeeAccountFits(a.treasury, chain.treasury, a.mint) && second >= p)
    && (d > 0 ==> FeeAccountFits(a.feeDestination, w.vault.feeDestination, a.mint) &&
                  second - (if p > 0 && a.treasury.Some? && a.treasury.value.address != from then p else 0) >= d)
  }

  predicate Countable(w: World, a: Transfer) {
    && w.vault.totalTransactions + 1 <= U64_MAX && w.vault.totalVolume + a.amount <= U64_MAX
    && (ClientCeilFee(a.amount, w.policy.developerFeeRate) > 0 ==>
          w.vault.totalFeesCollected + ClientCeilFee(a.amount, w.policy.developerFeeRate) <= U64_MAX)
  }

  lemma ChargeExactly(w: World, agent: Key, i: int, now: int, usd: nat)
    requires FirstEntry(w.vault.agents, agent, i)
    ensures Room(w, agent, usd, now) <==>
            && WithinCap(T.Reading(w.tracker, now), usd, w.policy.dailySpendingCapUsd, SpendingCapExceeded).Ok?
            && ChargeAgent(w.overlay, agent, w.vault.agents[i].spendingLimitUsd, now, usd).Ok?
            && T.Recordable(w.tracker, now, usd)
  {
    hide T.Reading, T.Recordable, O.Reading, O.Recordable, O.Recorded, O.FindSlot;
    assert forall j :: FirstEntry(w.vault.agents, agent, j) ==> j == i;
  }

  lemma FundsExactly(chain: Chain, w: World, a: Transfer)
    requires FeesFit(w, a)
    ensures var p, d := ClientCeilFee(a.amount, PROTOCOL_FEE_RATE), ClientCeilFee(a.amount, w.policy.developerFeeRate);
            Funded(chain, w, a) <==> MoveFunds(chain, w.vault, w.balances, a, p, d).Ok?
  {
    hide ClientCeilFee;
  }

  /** A transfer succeeds exactly when it is entitled, has room in both meters, its fees fit, the
      accounts can pay them, and no counter overflows. */
  lemma TransferSucceedsExactly(chain: Chain, w: World, a: Transfer, clock: Clock)
    ensures TransferStep(chain, w, a, clock).Ok? <==>
            && Entitled(chain, w.vault, w.policy, a)
            && Room(w, a.agent, FloorUsd(a.amount, a.decimals), clock.unixTimestamp)
            && FeesFit(w, a) && Funded(chain, w, a) && Countable(w, a)
  {
    ChecksAreEntitlement(chain, w.vault, w.policy, a);
    hide TransferChecks, FloorUsd, UsdFits;
    if Entitled(chain, w.vault, w.policy, a) {
      var i :| FirstEntry(w.vault.agents, a.agent, i) && !w.vault.agents[i].paused && w.vault.agents[i].capability >= 2;
      FoundIsFirst(w.vault.agents, a.agent);
      ChargeExactly(w, a.agent, i, clock.unixTimestamp, FloorUsd(a.amount, a.decimals));
      ClientFeeAgrees(a.amount, PROTOCOL_FEE_RATE);
      ClientFeeAgrees(a.amount, w.policy.developerFeeRate);
      if FeesFit(w, a) {
        FundsExactly(chain, w, a);
      }
      hide FindAgent, WithinCap, ChargeAgent, T.Recordable, T.Recorded, T.Reading, MoveFunds, CeilFee, ClientCeilFee, Room, Funded, FirstEntry;
    }
  }

  /** With enough in the vault's account and right fee accounts, no aliasing can starve it. */
  lemma EnoughIsFunded(chain: Chain, w: World, a: Transfer)
    requires FeesFit(w, a) && Balance(w.balances, a.vaultToken.address) >= a.amount
    requires FeeAccountFits(a.treasury, chain.treasury, a.mint) && FeeAccountFits(a.feeDestination, w.vault.feeDestination, a.mint)
    ensures Funded(chain, w, a)
  {
    hide ClientCeilFee;
  }

  /** In every run from any state, whatever came before: a transfer that succeeds was entitled to in
      the state it found. */
  lemma SuccessfulTransfersWereEntitled(chain: Chain, w: World, trace: seq<Event>, i: nat)
    requires i < |trace| && trace[i].op.AgentTransfer? && Succeeds(chain, w, trace, i)
    ensures var s := After(chain, w, trace[..i]); Entitled(chain, s.vault, s.policy, trace[i].op.transfer)
  {
    hide After, Entitled, TransferStep;
    TransferSucceedsExactly(chain, After(chain, w, trace[..i]), trace[i].op.transfer, trace[i].clock);
  }

  /** The error of an entitled transfer, in the program's order: the vault's cap, the agent's slot
      and limit, the records, the fees, the money, the counters. */
  lemma EffectsInOrder(chain: Chain, w: World, a: Transfer, clock: Clock, i: int)
    requires Entitled(chain, w.vault, w.policy, a) && FirstEntry(w.vault.agents, a.agent, i)
    ensures var r, now, usd := TransferStep(chain, w, a, clock), clock.unixTimestamp, FloorUsd(a.amount, a.decimals);
            var reading, slot, limit := T.Reading(w.tracker, now), O.FindSlot(w.overlay, a.agent), w.vault.agents[i].spendingLimitUsd;
            var vaultOk := reading + usd <= U64_MAX && reading + usd <= w.policy.dailySpendingCapUsd;
            var slotOk := vaultOk && (limit > 0 ==> slot.Some?);
            var agentOk := slotOk && (slot.Some? && limit > 0 ==>
                             O.Reading(w.overlay[slot.value], now) + usd <= U64_MAX && O.Reading(w.overlay[slot.value], now) + usd <= limit);
            var recordsOk := agentOk && (slot.Some? ==> O.Recordable(w.overlay[slot.value], now, usd)) && T.Recordable(w.tracker, now, usd);
            var feesOk := recordsOk && FeesFit(w, a);
            && (reading + usd > U64_MAX ==> r == Err(Overflow))
            && (reading + usd <= U64_MAX && !vaultOk ==> r == Err(SpendingCapExceeded))
            && (vaultOk && !slotOk ==> r == Err(AgentSlotNotFound))
            && (slotOk && !agentOk ==>
                  r == Err(if O.Reading(w.overlay[slot.value], now) + usd > U64_MAX then Overflow else AgentSpendLimitExceeded))
            && (agentOk && !feesOk ==> r == Err(Overflow))
            && (feesOk && !Funded(chain, w, a) ==>
                  r == Err(InsufficientFunds) || r == Err(InvalidProtocolTreasury) || r == Err(InvalidFeeDestination))
            && (feesOk && Funded(chain, w, a) && !Countable(w, a) ==> r == Err(Overflow))
  {
    ChecksAreEntitlement(chain, w.vault, w.policy, a);
    FoundIsFirst(w.vault.agents, a.agent);
    ClientFeeAgrees(a.amount, PROTOCOL_FEE_RATE);
    ClientFeeAgrees(a.amount, w.policy.developerFeeRate);
    if FeesFit(w, a) {
      FundsExactly(chain, w, a);
      FundsErrors(chain, w, a);
    }
    hide TransferChecks, FloorUsd, UsdFits, FindAgent, T.Recordable, T.Recorded, T.Reading, O.Reading, O.Recordable, O.Recorded, O.FindSlot;
    hide MoveFunds, CeilFee, ClientCeilFee, Funded, FirstEntry, Entitled;
  }

  /** The net amount first, then the protocol's fee, then the developer's. */
  lemma FundsErrors(chain: Chain, w: World, a: Transfer)
    requires FeesFit(w, a)
    ensures var p, d := ClientCeilFee(a.amount, PROTOCOL_FEE_RATE), ClientCeilFee(a.amount, w.policy.developerFeeRate);
            var r, purse := MoveFunds(chain, w.vault, w.balances, a, p, d), Balance(w.balances, a.vaultToken.address);
            && (r.Err? ==> r.error == InsufficientFunds || r.error == InvalidProtocolTreasury || r.error == InvalidFeeDestination)
            && (purse < a.amount - p - d ==> r == Err(InsufficientFunds))
            && (purse >= a.amount && p > 0 && !FeeAccountFits(a.treasury, chain.treasury, a.mint) ==> r == Err(InvalidProtocolTreasury))
            && ((&& purse >= a.amount && (p > 0 ==> FeeAccountFits(a.treasury, chain.treasury, a.mint))
                 && d > 0 && !FeeAccountFits(a.feeDestination, w.vault.feeDestination, a.mint)) ==> r == Err(InvalidFeeDestination))
  {
    hide ClientCeilFee;
  }

  // ---- A frozen vault ----

  /** How an instruction moves the vault's status: freezing freezes, reactivating activates,
      revoking the last agent freezes, and nothing else touches it. */
  ghost predicate StatusMoves(w: World, ev: Event, r: Result<World>) {
    r.Ok? ==>
      r.value.vault.status ==
        if ev.op.Freeze? then Frozen
        else if ev.op.Reactivate? then Active
        else if ev.op.Revoke? && r.value.vault.agents == [] then Frozen
        else w.vault.status
  }

  lemma QueueStatus(w: World, ev: Event)
    ensures ev.op.QueuePolicy? ==> StatusMoves(w, ev, QueuePolicyStep(w, ev.op.update, ev.clock))
    ensures ev.op.QueuePerms? ==> StatusMoves(w, ev, QueuePermsStep(w, ev.op.agent, ev.op.capability, ev.op.limit, ev.clock))
    ensures ev.op.QueueConstraints? ==> StatusMoves(w, ev, QueueConstraintsStep(w, ev.op.content, ev.clock))
    ensures ev.op.QueueClose? ==> StatusMoves(w, ev, QueueCloseStep(w, ev.clock))
    ensures ev.op.CancelPolicy? ==> StatusMoves(w, ev, CancelPolicyStep(w))
    ensures ev.op.CancelPerms? ==> StatusMoves(w, ev, CancelPermsStep(w, ev.op.agent))
    ensures ev.op.CancelConstraints? ==> StatusMoves(w, ev, CancelConstraintsStep(w))
    ensures ev.op.CancelClose? ==> StatusMoves(w, ev, CancelCloseStep(w))
  {
    hide ScheduleFrom, LegalUpdate, FindAgent;
  }

  lemma ApplyStatus(w: World, ev: Event)
    ensures ev.op.ApplyPolicy? ==> StatusMoves(w, ev, ApplyPolicyStep(w, ev.clock))
    ensures ev.op.ApplyPerms? ==> StatusMoves(w, ev, ApplyPermsStep(w, ev.op.agent, ev.clock))
    ensures ev.op.ApplyConstraints? ==> StatusMoves(w, ev, ApplyConstraintsStep(w, ev.clock))
    ensures ev.op.ApplyClose? ==> StatusMoves(w, ev, ApplyCloseStep(w, ev.op.withPending, ev.clock))
  {
    hide Due, Bumped, Overlaid, FindAgent, UpdateAgent, RearrangeSlots;
  }

  lemma OwnerStatus(w: World, ev: Event)
    ensures ev.op.Register? ==> StatusMoves(w, ev, RegisterStep(w, ev.op.agent, ev.op.capability, ev.op.limit))
    ensures ev.op.Revoke? ==> StatusMoves(w, ev, RevokeStep(w, ev.op.agent))
    ensures ev.op.Pause? ==> StatusMoves(w, ev, PauseStep(w, ev.op.agent, ev.op.paused))
    ensures ev.op.Freeze? ==> StatusMoves(w, ev, FreezeStep(w))
    ensures ev.op.Reactivate? ==> StatusMoves(w, ev, ReactivateStep(w, ev.op.newAgent))
    ensures ev.op.CreateConstraints? ==> StatusMoves(w, ev, CreateConstraintsStep(w, ev.op.content))
    ensures ev.op.PostAssertions? ==> StatusMoves(w, ev, PostAssertionsStep(w, ev.op.exist))
  {
    hide FindAgent, UpdateAgent, RemoveAgent, O.FindSlot;
  }

  lemma TransferStatus(chain: Chain, w: World, a: Transfer, clock: Clock)
    requires TransferStep(chain, w, a, clock).Ok?
    ensures TransferStep(chain, w, a, clock).value.vault.status == w.vault.status
  {
    hide TransferChecks, ChargeAgent, MoveFunds, CeilFee, T.Reading, T.Recorded, T.Recordable, WithinCap, FindAgent;
  }

  lemma StatusStep(chain: Chain, w: World, ev: Event)
    ensures StatusMoves(w, ev, Exec(chain, w, ev))
  {
    hide TransferStep, QueuePolicyStep, ApplyPolicyStep, CancelPolicyStep, QueuePermsStep, ApplyPermsStep, CancelPermsStep;
    hide QueueConstraintsStep, ApplyConstraintsStep, CancelConstraintsStep, QueueCloseStep, ApplyCloseStep, CancelCloseStep;
    hide RegisterStep, RevokeStep, PauseStep, FreezeStep, ReactivateStep, CreateConstraintsStep, PostAssertionsStep;
    QueueStatus(w, ev);
    ApplyStatus(w, ev);
    OwnerStatus(w, ev);
    if ev.op.AgentTransfer? && TransferStep(chain, w, ev.op.transfer, ev.clock).Ok? {
      TransferStatus(chain, w, ev.op.transfer, ev.clock);
    }
  }

  /** In between, nothing reactivated the vault. */
  ghost predicate NotReactivated(chain: Chain, w: World, trace: seq<Event>, i: nat, j: nat) {
    forall k :: i <= k < j && k < |trace| && trace[k].op.Reactivate? ==> !Succeeds(chain, w, trace, k)
  }

  lemma {:induction false} StaysInactive(chain: Chain, w: World, trace: seq<Event>, i: nat, j: nat)
    requires i <= j <= |trace| && After(chain, w, trace[..i]).vault.status != Active && NotReactivated(chain, w, trace, i, j)
    ensures After(chain, w, trace[..j]).vault.status != Active
    decreases j - i
  {
    hide Exec;
    if i < j {
      StaysInactive(chain, w, trace, i, j - 1);
      AfterStep(chain, w, trace, j - 1);
      StatusStep(chain, After(chain, w, trace[..j - 1]), trace[j - 1]);
    }
  }

  /** From a successful freeze to the next successful reactivation no transfer succeeds. */
  lemma FrozenVaultPaysNobody(chain: Chain, w: World, trace: seq<Event>, i: nat, j: nat)
    requires i < j < |trace| && trace[i].op.Freeze? && Succeeds(chain, w, trace, i) && NotReactivated(chain, w, trace, i + 1, j)
    ensures trace[j].op.AgentTransfer? ==> !Succeeds(chain, w, trace, j)
  {
    hide Exec, Entitled;
    AfterStep(chain, w, trace, i);
    StatusStep(chain, After(chain, w, trace[..i]), trace[i]);
    StaysInactive(chain, w, trace, i + 1, j);
    if trace[j].op.AgentTransfer? && Succeeds(chain, w, trace, j) {
      SuccessfulTransfersWereEntitled(chain, w, trace, j);
      InactiveIsNotEntitled(chain, After(chain, w, trace[..j]), trace[j].op.transfer);
    }
  }

  lemma InactiveIsNotEntitled(chain: Chain, w: World, a: Transfer)
    requires w.vault.status != Active
    ensures !Entitled(chain, w.vault, w.policy, a)
  {
  }

  // ---- A paused agent ----

  predicate IsPaused(w: World, agent: Key) {
    FindAgent(w.vault.agents, agent).Some? && FindAgent(w.vault.agents, agent).value.paused
  }

  /** The two instructions that can wake an agent: its own unpausing, and its revocation, after
      which it may be registered anew. */
  predicate Wakes(op: Op, agent: Key) {
    (op.Pause? && op.agent == agent && !op.paused) || (op.Revoke? && op.agent == agent)
  }

  lemma PauseStepKeeps(w: World, ev: Event, agent: Key)
    requires ev.op.Pause? && IsPaused(w, agent) && !Wakes(ev.op, agent) && PauseStep(w, ev.op.agent, ev.op.paused).Ok?
    ensures IsPaused(PauseStep(w, ev.op.agent, ev.op.paused).value, agent)
  {
    UpdateKeepsOthers(w.vault.agents, ev.op.agent, FindAgent(w.vault.agents, ev.op.agent).value.(paused := ev.op.paused));
    hide FindAgent, UpdateAgent;
  }

  lemma MembersKeepPaused(w: World, ev: Event, agent: Key)
    requires IsPaused(w, agent) && !Wakes(ev.op, agent)
    ensures ev.op.Register? ==>
              var r := RegisterStep(w, ev.op.agent, ev.op.capability, ev.op.limit); r.Ok? ==> IsPaused(r.value, agent)
    ensures ev.op.Reactivate? ==> var r := ReactivateStep(w, ev.op.newAgent); r.Ok? ==> IsPaused(r.value, agent)
    ensures ev.op.Revoke? ==> var r := RevokeStep(w, ev.op.agent); r.Ok? ==> IsPaused(r.value, agent)
  {
    hide O.FindSlot, UpdateAgent, FindAgent, RemoveAgent;
    if ev.op.Register? && FindAgent(w.vault.agents, ev.op.agent).None? {
      AppendedAgent(w.vault.agents, AgentEntry(ev.op.agent, ev.op.capability, ev.op.limit, false));
    } else if ev.op.Reactivate? && ev.op.newAgent.Some? && FindAgent(w.vault.agents, ev.op.newAgent.value.0).None? {
      AppendedAgent(w.vault.agents, AgentEntry(ev.op.newAgent.value.0, ev.op.newAgent.value.1, 0, false));
    } else if ev.op.Revoke? {
      RemovedFind(w.vault.agents, ev.op.agent, agent);
    }
  }

  lemma PermsKeepPaused(w: World, key: Key, clock: Clock, agent: Key)
    requires IsPaused(w, agent) && ApplyPermsStep(w, key, clock).Ok?
    ensures IsPaused(ApplyPermsStep(w, key, clock).value, agent)
  {
    var pending, entry := w.pending.perms[key], FindAgent(w.vault.agents, key).value;
    UpdateKeepsOthers(w.vault.agents, key, entry.(capability := pending.newCapability, spendingLimitUsd := pending.spendingLimitUsd));
    hide FindAgent, UpdateAgent, RearrangeSlots, Due;
  }

  lemma StaysPausedStep(chain: Chain, w: World, ev: Event, agent: Key)
    requires IsPaused(w, agent) && !Wakes(ev.op, agent) && Exec(chain, w, ev).Ok?
    ensures IsPaused(Exec(chain, w, ev).value, agent)
  {
    hide TransferStep, QueuePolicyStep, ApplyPolicyStep, CancelPolicyStep, QueuePermsStep, ApplyPermsStep, CancelPermsStep;
    hide QueueConstraintsStep, ApplyConstraintsStep, CancelConstraintsStep, QueueCloseStep, ApplyCloseStep, CancelCloseStep;
    hide RegisterStep, RevokeStep, PauseStep, FreezeStep, ReactivateStep, CreateConstraintsStep, PostAssertionsStep, FindAgent;
    match ev.op
    case AgentTransfer(a) => TransferKeepsConfiguration(chain, w, a, ev.clock);
    case ApplyPerms(key) => PermsKeepPaused(w, key, ev.clock, agent);
    case Pause(_, _) => PauseStepKeeps(w, ev, agent);
    case _ =>
      MembersKeepPaused(w, ev, agent);
      NonTransferFrames(chain, w, ev);
  }

  ghost predicate NotWoken(chain: Chain, w: World, trace: seq<Event>, agent: Key, i: nat, j: nat) {
    forall k :: i <= k < j && k < |trace| && Wakes(trace[k].op, agent) ==> !Succeeds(chain, w, trace, k)
  }

  lemma {:induction false} StaysPaused(chain: Chain, w: World, trace: seq<Event>, agent: Key, i: nat, j: nat)
    requires i <= j <= |trace| && IsPaused(After(chain, w, trace[..i]), agent) && NotWoken(chain, w, trace, agent, i, j)
    ensures IsPaused(After(chain, w, trace[..j]), agent)
    decreases j - i
  {
    hide Exec, IsPaused, Wakes;
    if i < j {
      StaysPaused(chain, w, trace, agent, i, j - 1);
      AfterStep(chain, w, trace, j - 1);
      if Succeeds(chain, w, trace, j - 1) {
        StaysPausedStep(chain, After(chain, w, trace[..j - 1]), trace[j - 1], agent);
      }
    }
  }

  lemma PauseTakesEffect(w: World, agent: Key, paused: bool)
    requires PauseStep(w, agent, paused).Ok?
    ensures IsPaused(PauseStep(w, agent, paused).value, agent) <==> paused
  {
    UpdateKeepsOthers(w.vault.agents, agent, FindAgent(w.vault.agents, agent).value.(paused := paused));
    hide FindAgent, UpdateAgent;
  }

  lemma PausedIsNotEntitled(chain: Chain, w: World, a: Transfer)
    requires IsPaused(w, a.agent)
    ensures !Entitled(chain, w.vault, w.policy, a)
  {
    FoundIsFirst(w.vault.agents, a.agent);
    hide FindAgent;
  }

  /** From a successful pause of an agent to its next successful unpausing or revocation none of its
      transfers succeeds. */
  lemma PausedAgentPaysNobody(chain: Chain, w: World, trace: seq<Event>, agent: Key, i: nat, j: nat)
    requires i < j < |trace| && trace[i].op == Pause(agent, true) && Succeeds(chain, w, trace, i)
    requires NotWoken(chain, w, trace, agent, i + 1, j)
    ensures trace[j].op.AgentTransfer? && trace[j].op.transfer.agent == agent ==> !Succeeds(chain, w, trace, j)
  {
    hide Exec, Entitled, IsPaused, PauseStep;
    AfterStep(chain, w, trace, i);
    assert Exec(chain, After(chain, w, trace[..i]), trace[i]) == PauseStep(After(chain, w, trace[..i]), agent, true) by {
      ExecIsPause(chain, After(chain, w, trace[..i]), trace[i]);
    }
    PauseTakesEffect(After(chain, w, trace[..i]), agent, true);
    StaysPaused(chain, w, trace, agent, i + 1, j);
    if trace[j].op.AgentTransfer? && trace[j].op.transfer.agent == agent && Succeeds(chain, w, trace, j) {
      SuccessfulTransfersWereEntitled(chain, w, trace, j);
      PausedIsNotEntitled(chain, After(chain, w, trace[..j]), trace[j].op.transfer);
    }
  }

  lemma ExecIsPause(chain: Chain, w: World, ev: Event)
    requires ev.op.Pause?
    ensures Exec(chain, w, ev) == PauseStep(w, ev.op.agent, ev.op.paused)
  {
    hide PauseStep;
  }
}
