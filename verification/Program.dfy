/** The on-chain program's instructions as functions on account contents. An instruction either
    yields the new contents or an error; on an error the runtime keeps the old contents. */
module Program {
  import opened Common
  import opened SpendLog
  import opened Fees
  import T = SpendTracking
  import O = AgentOverlay

  const MAX_AGENTS_PER_VAULT := 10
  const MAX_LIST := 10
  const MAX_SLIPPAGE_BPS := 5000
  const MIN_TIMELOCK_DURATION := 1800
  const MAX_APPLY_AGE_SLOTS := 216_000
  const CAPABILITY_OPERATOR := 2
  const PROTOCOL_MODE_ALLOWLIST := 1
  const PROTOCOL_MODE_DENYLIST := 2
  const DESTINATION_MODE_RESTRICTED := 0
  const DESTINATION_MODE_OPEN_WITH_CAP := 1
  const MIN_SESSION_SECONDS := 5
  const MAX_SESSION_SECONDS := 90

  // ---- Accounts ----

  datatype VaultStatus = Active | Frozen | Closed

  datatype AgentEntry = AgentEntry(pubkey: Key, capability: nat, spendingLimitUsd: nat, paused: bool)

  datatype Vault = Vault(
    key: Key,
    owner: Key,
    status: VaultStatus,
    agents: seq<AgentEntry>,
    feeDestination: Key,
    totalTransactions: nat,
    totalVolume: nat,
    totalFeesCollected: nat)

  datatype Policy = Policy(
    dailySpendingCapUsd: nat,
    maxTransactionSizeUsd: nat,
    protocolMode: nat,
    protocols: seq<Key>,
    developerFeeRate: nat,
    maxSlippageBps: nat,
    timelockDuration: nat,
    allowedDestinations: seq<Key>,
    hasConstraints: bool,
    hasPendingPolicy: bool,
    hasProtocolCaps: bool,
    protocolCaps: seq<nat>,
    sessionExpirySeconds: nat,
    policyVersion: nat,
    hasPostAssertions: bool,
    destinationMode: nat)

  datatype PolicyUpdate = PolicyUpdate(
    dailySpendingCapUsd: Option<nat>,
    maxTransactionAmountUsd: Option<nat>,
    protocolMode: Option<nat>,
    protocols: Option<seq<Key>>,
    developerFeeRate: Option<nat>,
    maxSlippageBps: Option<nat>,
    timelockDuration: Option<nat>,
    allowedDestinations: Option<seq<Key>>,
    sessionExpirySeconds: Option<nat>,
    hasProtocolCaps: Option<bool>,
    protocolCaps: Option<seq<nat>>,
    destinationMode: Option<nat>)

  datatype Clock = Clock(unixTimestamp: int, slot: nat)

  datatype Schedule = Schedule(queuedAt: int, executesAt: int, queuedAtSlot: nat)

  /** A constraints account: its entries as raw bytes, and the scalars after them. */
  datatype Constraints = Constraints(vault: Key, entries: seq<bv8>, entryCount: nat, strictMode: bool)

  datatype PendingPerms = PendingPerms(schedule: Schedule, newCapability: nat, spendingLimitUsd: nat)
  datatype PendingPolicy = PendingPolicy(schedule: Schedule, update: PolicyUpdate)
  datatype PendingConstraints = PendingConstraints(schedule: Schedule, content: Constraints)

  datatype Pending = Pending(
    policy: Option<PendingPolicy>,
    perms: map<Key, PendingPerms>,
    constraints: Option<PendingConstraints>,
    close: Option<Schedule>)

  datatype World = World(
    vault: Vault,
    policy: Policy,
    tracker: T.Tracker,
    overlay: O.Entries,
    constraints: Option<Constraints>,
    pending: Pending,
    balances: map<Key, nat>)

  /** Deployment constants: the recognised stablecoin mints and the treasury's owner key. */
  datatype Chain = Chain(stablecoins: set<Key>, treasury: Key)

  datatype TokenAccount = TokenAccount(address: Key, owner: Key, mint: Key)

  datatype Transfer = Transfer(
    agent: Key,
    amount: nat,
    expectedPolicyVersion: nat,
    vaultToken: TokenAccount,
    mint: Key,
    decimals: nat,
    destination: TokenAccount,
    treasury: Option<TokenAccount>,
    feeDestination: Option<TokenAccount>)

  datatype Error =
    | UnauthorizedAgent | InvalidTokenAccount | PolicyVersionMismatch | VaultNotActive | AgentPaused
    | InsufficientPermissions | TransactionTooLarge | UnsupportedToken | DestinationNotAllowed
    | Overflow | SpendingCapExceeded | AgentSpendLimitExceeded | AgentSlotNotFound
    | InsufficientFunds | InvalidProtocolTreasury | InvalidFeeDestination
    | AccountMissing | AccountExists | TimelockNotExpired | QueuedUpdateExpired | TimelockTooShort
    | InvalidDestinationMode | InvalidConstraintsPda | InvalidPendingConstraintsPda | OverlaySlotExhausted | VaultAlreadyClosed
    | NoTimelockConfigured | InvalidUpdate | InvalidPermissions | AgentAlreadyRegistered
    | MaxAgentsReached | InvalidAgentKey | AgentAlreadyPaused | AgentNotPaused | VaultNotFrozen
    | NoAgentRegistered

  datatype Result<+R> = Ok(value: R) | Err(error: Error) {
    predicate IsFailure() { Err? }
    function PropagateFailure<U>(): Result<U> requires Err? { Err(error) }
    function Extract(): R requires Ok? { value }
  }

  function Need(condition: bool, error: Error): Result<()> {
    if condition then Ok(()) else Err(error)
  }

  // ---- Lookups ----

  function FindAgent(agents: seq<AgentEntry>, key: Key): (r: Option<AgentEntry>)
    ensures r.Some? ==> r.value in agents && r.value.pubkey == key
    ensures r.None? <==> forall i :: 0 <= i < |agents| ==> agents[i].pubkey != key
  {
    if agents == [] then None
    else if agents[0].pubkey == key then Some(agents[0])
    else FindAgent(agents[1..], key)
  }

  /** Rewrites the first entry of this agent, as iter_mut().find() does. */
  function UpdateAgent(agents: seq<AgentEntry>, key: Key, entry: AgentEntry): (r: seq<AgentEntry>)
    ensures |r| == |agents|
  {
    if agents == [] then []
    else if agents[0].pubkey == key then [entry] + agents[1..]
    else [agents[0]] + UpdateAgent(agents[1..], key, entry)
  }

  function RemoveAgent(agents: seq<AgentEntry>, key: Key): (r: seq<AgentEntry>)
    ensures |r| <= |agents|
    ensures forall e :: e in r <==> e in agents && e.pubkey != key
  {
    if agents == [] then []
    else if agents[0].pubkey == key then RemoveAgent(agents[1..], key)
    else [agents[0]] + RemoveAgent(agents[1..], key)
  }

  predicate DestinationAllowed(p: Policy, destinationOwner: Key) {
    if p.destinationMode == DESTINATION_MODE_OPEN_WITH_CAP then true
    else if p.destinationMode == DESTINATION_MODE_RESTRICTED then destinationOwner in p.allowedDestinations
    else false
  }

  function Balance(balances: map<Key, nat>, account: Key): nat {
    if account in balances then balances[account] else 0
  }

  function Move(balances: map<Key, nat>, from: Key, to: Key, amount: nat): Result<map<Key, nat>> {
    if Balance(balances, from) < amount then Err(InsufficientFunds)
    else
      var debited := balances[from := Balance(balances, from) - amount];
      Ok(debited[to := Balance(debited, to) + amount])
  }

  // ---- agent_transfer ----

  /** The account constraints and checks 0 to 8: everything before the meters. */
  function TransferChecks(chain: Chain, vault: Vault, policy: Policy, a: Transfer): Result<nat> {
    var agent := FindAgent(vault.agents, a.agent);
    if agent.None? then Err(UnauthorizedAgent)
    else if a.vaultToken.owner != vault.key || a.mint != a.vaultToken.mint then Err(InvalidTokenAccount)
    else if policy.policyVersion != a.expectedPolicyVersion then Err(PolicyVersionMismatch)
    else if vault.status != Active then Err(VaultNotActive)
    else if agent.value.paused then Err(AgentPaused)
    else if agent.value.capability < CAPABILITY_OPERATOR then Err(InsufficientPermissions)
    else if a.amount == 0 then Err(TransactionTooLarge)
    else if a.mint !in chain.stablecoins then Err(UnsupportedToken)
    else if !DestinationAllowed(policy, a.destination.owner) then Err(DestinationNotAllowed)
    else if a.destination.mint != a.mint then Err(InvalidTokenAccount)
    else
      var usd := StablecoinToUsd(a.amount, a.decimals);
      if usd.None? then Err(Overflow)
      else if usd.value > policy.maxTransactionSizeUsd then Err(TransactionTooLarge)
      else Ok(usd.value)
  }

  /** A spend against one meter: the reading plus the spend must fit 64 bits and the cap. */
  function WithinCap(reading: nat, usd: nat, cap: nat, exceeded: Error): Result<()> {
    if reading + usd > U64_MAX then Err(Overflow)
    else if reading + usd > cap then Err(exceeded)
    else Ok(())
  }

  /** The agent's slot after the spend; agents without one may spend only if unlimited. */
  function ChargeAgent(overlay: O.Entries, agent: Key, limit: nat, now: int, usd: nat): Result<O.Entries> {
    var slot := O.FindSlot(overlay, agent);
    if slot.None? then
      if limit > 0 then Err(AgentSlotNotFound) else Ok(overlay)
    else
      var entry := overlay[slot.value];
      var fits := if limit > 0 then WithinCap(O.Reading(entry, now), usd, limit, AgentSpendLimitExceeded) else Ok(());
      if fits.Err? then Err(fits.error)
      else if !O.Recordable(entry, now, usd) then Err(Overflow)
      else Ok(overlay[slot.value := O.Recorded(entry, now, usd)])
  }

  /** Net amount, protocol fee and developer fee, in that order, out of the vault's account. */
  function MoveFunds(chain: Chain, vault: Vault, balances: map<Key, nat>, a: Transfer, protocolFee: nat, developerFee: nat): Result<map<Key, nat>>
    requires protocolFee + developerFee <= a.amount
  {
    var from := a.vaultToken.address;
    var net := Move(balances, from, a.destination.address, a.amount - protocolFee - developerFee);
    if net.Err? then net
    else
      var afterProtocol :=
        if protocolFee == 0 then net
        else if a.treasury.None? || a.treasury.value.owner != chain.treasury || a.treasury.value.mint != a.mint
        then Err(InvalidProtocolTreasury)
        else Move(net.value, from, a.treasury.value.address, protocolFee);
      if afterProtocol.Err? || developerFee == 0 then afterProtocol
      else if a.feeDestination.None? || a.feeDestination.value.owner != vault.feeDestination
              || a.feeDestination.value.mint != a.mint
      then Err(InvalidFeeDestination)
      else Move(afterProtocol.value, from, a.feeDestination.value.address, developerFee)
  }

  /** What a transfer that passed its checks charges, moves and counts. */
  function TransferEffects(chain: Chain, w: World, a: Transfer, now: int, usd: nat): Result<World>
    requires FindAgent(w.vault.agents, a.agent).Some?
  {
    var limit := FindAgent(w.vault.agents, a.agent).value.spendingLimitUsd;
    var capOk := WithinCap(T.Reading(w.tracker, now), usd, w.policy.dailySpendingCapUsd, SpendingCapExceeded);
    if capOk.Err? then Err(capOk.error)
    else
      var overlay := ChargeAgent(w.overlay, a.agent, limit, now, usd);
      if overlay.Err? then Err(overlay.error)
      else if !T.Recordable(w.tracker, now, usd) then Err(Overflow)
      else
        var protocolFee := CeilFee(a.amount, PROTOCOL_FEE_RATE);
        var developerFee := CeilFee(a.amount, w.policy.developerFeeRate);
        if protocolFee.None? || developerFee.None? || protocolFee.value + developerFee.value > a.amount then Err(Overflow)
        else
          var balances := MoveFunds(chain, w.vault, w.balances, a, protocolFee.value, developerFee.value);
          if balances.Err? then Err(balances.error)
          else if w.vault.totalTransactions + 1 > U64_MAX || w.vault.totalVolume + a.amount > U64_MAX
                  || (developerFee.value > 0 && w.vault.totalFeesCollected + developerFee.value > U64_MAX)
          then Err(Overflow)
          else Ok(w.(
            overlay := overlay.value,
            tracker := T.Recorded(w.tracker, now, usd),
            balances := balances.value,
            vault := w.vault.(
              totalTransactions := w.vault.totalTransactions + 1,
              totalVolume := w.vault.totalVolume + a.amount,
              totalFeesCollected := w.vault.totalFeesCollected + developerFee.value)))
  }

  function TransferStep(chain: Chain, w: World, a: Transfer, clock: Clock): Result<World> {
    var usd := TransferChecks(chain, w.vault, w.policy, a);
    if usd.Err? then Err(usd.error) else TransferEffects(chain, w, a, clock.unixTimestamp, usd.value)
  }

  // ---- Queueing ----

  /** A u64 read as i64: from 2^63 on it is negative. */
  function AsI64(x: nat): int {
    if x <= I64_MAX then x else x - U64_MAX - 1
  }

  /** When a change queued now becomes executable, in checked 64-bit arithmetic. */
  function ScheduleFrom(p: Policy, clock: Clock): Result<Schedule> {
    var executesAt := clock.unixTimestamp + AsI64(p.timelockDuration);
    if p.timelockDuration == 0 then Err(NoTimelockConfigured)
    else if !(T.I64_MIN <= executesAt <= I64_MAX) then Err(Overflow)
    else Ok(Schedule(clock.unixTimestamp, executesAt, clock.slot))
  }

  predicate LegalUpdate(p: Policy, u: PolicyUpdate) {
    && (u.protocolMode.Some? ==> u.protocolMode.value <= PROTOCOL_MODE_DENYLIST)
    && (u.destinationMode.Some? ==> u.destinationMode.value <= DESTINATION_MODE_OPEN_WITH_CAP)
    && (u.protocols.Some? ==> |u.protocols.value| <= MAX_LIST)
    && (u.developerFeeRate.Some? ==> u.developerFeeRate.value <= MAX_DEVELOPER_FEE_RATE)
    && (u.maxSlippageBps.Some? ==> u.maxSlippageBps.value <= MAX_SLIPPAGE_BPS)
    && (u.allowedDestinations.Some? ==> |u.allowedDestinations.value| <= MAX_LIST)
    && (u.timelockDuration.Some? ==> u.timelockDuration.value >= MIN_TIMELOCK_DURATION)
    && (u.sessionExpirySeconds.Some? && u.sessionExpirySeconds.value > 0 ==>
          MIN_SESSION_SECONDS <= u.sessionExpirySeconds.value <= MAX_SESSION_SECONDS)
    && (u.hasProtocolCaps.GetOr(p.hasProtocolCaps) ==>
          && u.protocolMode.GetOr(p.protocolMode) == PROTOCOL_MODE_ALLOWLIST
          && |u.protocolCaps.GetOr(p.protocolCaps)| == |u.protocols.GetOr(p.protocols)|)
  }

  function QueuePolicyStep(w: World, u: PolicyUpdate, clock: Clock): Result<World> {
    if w.pending.policy.Some? then Err(AccountExists)
    else if w.vault.status == Closed then Err(VaultAlreadyClosed)
    else if !LegalUpdate(w.policy, u) then Err(InvalidUpdate)
    else
      var schedule :- ScheduleFrom(w.policy, clock);
      Ok(w.(pending := w.pending.(policy := Some(PendingPolicy(schedule, u))),
            policy := w.policy.(hasPendingPolicy := true)))
  }

  function QueuePermsStep(w: World, agent: Key, capability: nat, limit: nat, clock: Clock): Result<World> {
    if agent in w.pending.perms then Err(AccountExists)
    else if w.vault.status == Closed then Err(VaultAlreadyClosed)
    else if FindAgent(w.vault.agents, agent).None? then Err(UnauthorizedAgent)
    else if capability > CAPABILITY_OPERATOR then Err(InvalidPermissions)
    else
      var schedule :- ScheduleFrom(w.policy, clock);
      Ok(w.(pending := w.pending.(perms := w.pending.perms[agent := PendingPerms(schedule, capability, limit)])))
  }

  function QueueConstraintsStep(w: World, c: Constraints, clock: Clock): Result<World> {
    if w.constraints.None? then Err(AccountMissing)
    else if w.constraints.value.vault != w.vault.key then Err(InvalidConstraintsPda)
    else if w.pending.constraints.Some? then Err(AccountExists)
    else if c.vault != w.vault.key then Err(InvalidPendingConstraintsPda)
    else
      var schedule :- ScheduleFrom(w.policy, clock);
      Ok(w.(pending := w.pending.(constraints := Some(PendingConstraints(schedule, c)))))
  }

  function QueueCloseStep(w: World, clock: Clock): Result<World> {
    if w.pending.close.Some? then Err(AccountExists)
    else if w.constraints.None? then Err(AccountMissing)
    else if w.constraints.value.vault != w.vault.key then Err(InvalidConstraintsPda)
    else if w.vault.status == Closed then Err(VaultAlreadyClosed)
    else
      var schedule :- ScheduleFrom(w.policy, clock);
      Ok(w.(pending := w.pending.(close := Some(schedule))))
  }

  // ---- Applying ----

  /** The timelock has run out, and the change is not too old. */
  function Due(s: Schedule, clock: Clock): Result<()> {
    if clock.unixTimestamp < s.executesAt then Err(TimelockNotExpired)
    else if (if clock.slot < s.queuedAtSlot then 0 else clock.slot - s.queuedAtSlot) >= MAX_APPLY_AGE_SLOTS
    then Err(QueuedUpdateExpired)
    else Ok(())
  }

  function Bumped(p: Policy): Result<Policy> {
    if p.policyVersion + 1 > U64_MAX then Err(Overflow) else Ok(p.(policyVersion := p.policyVersion + 1))
  }

  /** The policy with every field the update carries. */
  function Overlaid(p: Policy, u: PolicyUpdate): Policy {
    p.(dailySpendingCapUsd := u.dailySpendingCapUsd.GetOr(p.dailySpendingCapUsd),
       maxTransactionSizeUsd := u.maxTransactionAmountUsd.GetOr(p.maxTransactionSizeUsd),
       protocolMode := u.protocolMode.GetOr(p.protocolMode),
       protocols := u.protocols.GetOr(p.protocols),
       developerFeeRate := u.developerFeeRate.GetOr(p.developerFeeRate),
       maxSlippageBps := u.maxSlippageBps.GetOr(p.maxSlippageBps),
       timelockDuration := u.timelockDuration.GetOr(p.timelockDuration),
       allowedDestinations := u.allowedDestinations.GetOr(p.allowedDestinations),
       sessionExpirySeconds := u.sessionExpirySeconds.GetOr(p.sessionExpirySeconds),
       hasProtocolCaps := u.hasProtocolCaps.GetOr(p.hasProtocolCaps),
       protocolCaps := u.protocolCaps.GetOr(p.protocolCaps),
       destinationMode := u.destinationMode.GetOr(p.destinationMode))
  }

  /** A field after an update: what the update carries for it, or else what it was. */
  predicate Takes<T(==)>(after: T, before: T, carried: Option<T>) {
    (carried.Some? ==> after == carried.value) && (carried.None? ==> after == before)
  }

  /** Twelve fields, each by itself. */
  predicate FieldsFollow(before: Policy, after: Policy, u: PolicyUpdate) {
    LimitsFollow(before, after, u) && RulesFollow(before, after, u)
  }

  predicate LimitsFollow(before: Policy, after: Policy, u: PolicyUpdate) {
    && Takes(after.dailySpendingCapUsd, before.dailySpendingCapUsd, u.dailySpendingCapUsd)
    && Takes(after.maxTransactionSizeUsd, before.maxTransactionSizeUsd, u.maxTransactionAmountUsd)
    && Takes(after.protocolMode, before.protocolMode, u.protocolMode)
    && Takes(after.protocols, before.protocols, u.protocols)
    && Takes(after.developerFeeRate, before.developerFeeRate, u.developerFeeRate)
    && Takes(after.maxSlippageBps, before.maxSlippageBps, u.maxSlippageBps)
  }

  predicate RulesFollow(before: Policy, after: Policy, u: PolicyUpdate) {
    && Takes(after.timelockDuration, before.timelockDuration, u.timelockDuration)
    && Takes(after.allowedDestinations, before.allowedDestinations, u.allowedDestinations)
    && Takes(after.sessionExpirySeconds, before.sessionExpirySeconds, u.sessionExpirySeconds)
    && Takes(after.hasProtocolCaps, before.hasProtocolCaps, u.hasProtocolCaps)
    && Takes(after.protocolCaps, before.protocolCaps, u.protocolCaps)
    && Takes(after.destinationMode, before.destinationMode, u.destinationMode)
  }

  /** What no policy update carries. */
  predicate SameFlags(before: Policy, after: Policy) {
    after.hasConstraints == before.hasConstraints && after.hasPostAssertions == before.hasPostAssertions
  }

  function ApplyPolicyStep(w: World, clock: Clock): Result<World> {
    if w.pending.policy.None? then Err(AccountMissing)
    else
      var pending := w.pending.policy.value;
      var u := pending.update;
      var _ :- Due(pending.schedule, clock);
      var _ :- Need(u.timelockDuration.Some? ==> u.timelockDuration.value >= MIN_TIMELOCK_DURATION, TimelockTooShort);
      var _ :- Need(u.destinationMode.Some? ==> u.destinationMode.value <= DESTINATION_MODE_OPEN_WITH_CAP, InvalidDestinationMode);
      var policy :- Bumped(Overlaid(w.policy, u).(hasPendingPolicy := false));
      Ok(w.(policy := policy, pending := w.pending.(policy := None)))
  }

  /** Claims a slot when a limit appears, releases it when a limit is dropped. */
  function RearrangeSlots(overlay: O.Entries, agent: Key, oldLimit: nat, newLimit: nat): Result<O.Entries> {
    var slot := O.FindSlot(overlay, agent);
    if newLimit > 0 && slot.None? then
      var free := O.FindSlot(overlay, DEFAULT_KEY);
      if free.None? then Err(OverlaySlotExhausted)
      else Ok(overlay[free.value := overlay[free.value].(agent := agent)])
    else if newLimit == 0 && oldLimit > 0 && slot.Some? then
      Ok(overlay[slot.value := O.Fresh(DEFAULT_KEY)])
    else Ok(overlay)
  }

  function ApplyPermsStep(w: World, agent: Key, clock: Clock): Result<World> {
    if agent !in w.pending.perms then Err(AccountMissing)
    else
      var pending := w.pending.perms[agent];
      var _ :- Due(pending.schedule, clock);
      var entry := FindAgent(w.vault.agents, agent);
      if entry.None? then Err(UnauthorizedAgent)
      else
        var changed := entry.value.(capability := pending.newCapability, spendingLimitUsd := pending.spendingLimitUsd);
        var overlay :- RearrangeSlots(w.overlay, agent, entry.value.spendingLimitUsd, pending.spendingLimitUsd);
        var policy :- Bumped(w.policy);
        Ok(w.(vault := w.vault.(agents := UpdateAgent(w.vault.agents, agent, changed)),
              overlay := overlay,
              policy := policy,
              pending := w.pending.(perms := w.pending.perms - {agent})))
  }

  function ApplyConstraintsStep(w: World, clock: Clock): Result<World> {
    if w.constraints.None? || w.pending.constraints.None? then Err(AccountMissing)
    else
      var pending, current := w.pending.constraints.value, w.constraints.value;
      if pending.content.vault != w.vault.key then Err(InvalidPendingConstraintsPda)
      else
        var _ :- Due(pending.schedule, clock);
        if current.vault != w.vault.key then Err(InvalidConstraintsPda)
        else
          var policy :- Bumped(w.policy);
          Ok(w.(constraints := Some(current.(entries := pending.content.entries,
                                              entryCount := pending.content.entryCount,
                                              strictMode := pending.content.strictMode)),
                policy := policy,
                pending := w.pending.(constraints := None)))
  }

  function ApplyCloseStep(w: World, withPending: bool, clock: Clock): Result<World> {
    if w.constraints.None? || w.pending.close.None? then Err(AccountMissing)
    else if w.constraints.value.vault != w.vault.key then Err(InvalidConstraintsPda)
    else
      var _ :- Due(w.pending.close.value, clock);
      var policy :- Bumped(w.policy.(hasConstraints := false));
      Ok(w.(constraints := None,
            policy := policy,
            pending := w.pending.(close := None,
                                  constraints := if withPending then None else w.pending.constraints)))
  }

  // ---- The owner's immediate instructions ----

  function RegisterStep(w: World, agent: Key, capability: nat, limit: nat): Result<World> {
    if w.vault.status == Closed then Err(VaultAlreadyClosed)
    else if capability > CAPABILITY_OPERATOR then Err(InvalidPermissions)
    else if FindAgent(w.vault.agents, agent).Some? then Err(AgentAlreadyRegistered)
    else if |w.vault.agents| >= MAX_AGENTS_PER_VAULT then Err(MaxAgentsReached)
    else if agent == DEFAULT_KEY || agent == w.vault.owner then Err(InvalidAgentKey)
    else
      var free := O.FindSlot(w.overlay, DEFAULT_KEY);
      if O.FindSlot(w.overlay, agent).None? && free.None? && limit > 0 then Err(OverlaySlotExhausted)
      else
        var overlay := if O.FindSlot(w.overlay, agent).None? && free.Some?
                       then w.overlay[free.value := w.overlay[free.value].(agent := agent)] else w.overlay;
        Ok(w.(vault := w.vault.(agents := w.vault.agents + [AgentEntry(agent, capability, limit, false)]),
              overlay := overlay))
  }

  function RevokeStep(w: World, agent: Key): Result<World> {
    if w.vault.status == Closed then Err(VaultAlreadyClosed)
    else if FindAgent(w.vault.agents, agent).None? then Err(UnauthorizedAgent)
    else
      var slot := O.FindSlot(w.overlay, agent);
      var agents := RemoveAgent(w.vault.agents, agent);
      Ok(w.(vault := w.vault.(agents := agents, status := if agents == [] then Frozen else w.vault.status),
            overlay := if slot.Some? then w.overlay[slot.value := O.Fresh(DEFAULT_KEY)] else w.overlay))
  }

  function PauseStep(w: World, agent: Key, paused: bool): Result<World> {
    var entry := FindAgent(w.vault.agents, agent);
    if w.vault.status == Closed then Err(VaultAlreadyClosed)
    else if entry.None? then Err(UnauthorizedAgent)
    else if entry.value.paused == paused then Err(if paused then AgentAlreadyPaused else AgentNotPaused)
    else Ok(w.(vault := w.vault.(agents := UpdateAgent(w.vault.agents, agent, entry.value.(paused := paused)))))
  }

  function FreezeStep(w: World): Result<World> {
    if w.vault.status != Active then Err(VaultNotActive) else Ok(w.(vault := w.vault.(status := Frozen)))
  }

  function ReactivateStep(w: World, newAgent: Option<(Key, nat)>): Result<World> {
    if w.vault.status != Frozen then Err(VaultNotFrozen)
    else if newAgent.None? then
      if w.vault.agents == [] then Err(NoAgentRegistered) else Ok(w.(vault := w.vault.(status := Active)))
    else
      var (agent, capability) := newAgent.value;
      if agent == DEFAULT_KEY || agent == w.vault.owner then Err(InvalidAgentKey)
      else if capability > CAPABILITY_OPERATOR then Err(InvalidPermissions)
      else if |w.vault.agents| >= MAX_AGENTS_PER_VAULT then Err(MaxAgentsReached)
      else if FindAgent(w.vault.agents, agent).Some? then Err(AgentAlreadyRegistered)
      else Ok(w.(vault := w.vault.(agents := w.vault.agents + [AgentEntry(agent, capability, 0, false)], status := Active)))
  }

  function CreateConstraintsStep(w: World, c: Constraints): Result<World> {
    if w.constraints.Some? then Err(AccountExists)
    else if c.vault != w.vault.key then Err(InvalidConstraintsPda)
    else Ok(w.(constraints := Some(c), policy := w.policy.(hasConstraints := true)))
  }

  /** The post-assertions account exists exactly while the policy's flag is set. */
  function PostAssertionsStep(w: World, exist: bool): Result<World> {
    if w.policy.hasPostAssertions == exist then Err(if exist then AccountExists else AccountMissing)
    else Ok(w.(policy := w.policy.(hasPostAssertions := exist)))
  }

  function CancelPolicyStep(w: World): Result<World> {
    if w.pending.policy.None? then Err(AccountMissing)
    else Ok(w.(pending := w.pending.(policy := None), policy := w.policy.(hasPendingPolicy := false)))
  }

  function CancelPermsStep(w: World, agent: Key): Result<World> {
    if agent !in w.pending.perms then Err(AccountMissing)
    else Ok(w.(pending := w.pending.(perms := w.pending.perms - {agent})))
  }

  function CancelConstraintsStep(w: World): Result<World> {
    if w.pending.constraints.None? then Err(AccountMissing)
    else if w.pending.constraints.value.content.vault != w.vault.key then Err(InvalidPendingConstraintsPda)
    else Ok(w.(pending := w.pending.(constraints := None)))
  }

  function CancelCloseStep(w: World): Result<World> {
    if w.pending.close.None? then Err(AccountMissing) else Ok(w.(pending := w.pending.(close := None)))
  }

  // ---- The machine ----

  datatype Op =
    | AgentTransfer(transfer: Transfer)
    | QueuePolicy(update: PolicyUpdate)
    | ApplyPolicy
    | CancelPolicy
    | QueuePerms(agent: Key, capability: nat, limit: nat)
    | ApplyPerms(agent: Key)
    | CancelPerms(agent: Key)
    | QueueConstraints(content: Constraints)
    | ApplyConstraints
    | CancelConstraints
    | QueueClose
    | ApplyClose(withPending: bool)
    | CancelClose
    | Register(agent: Key, capability: nat, limit: nat)
    | Revoke(agent: Key)
    | Pause(agent: Key, paused: bool)
    | Freeze
    | Reactivate(newAgent: Option<(Key, nat)>)
    | CreateConstraints(content: Constraints)
    | PostAssertions(exist: bool)

  datatype Event = Event(op: Op, clock: Clock)

  function Exec(chain: Chain, w: World, ev: Event): Result<World> {
    match ev.op
    case AgentTransfer(a) => TransferStep(chain, w, a, ev.clock)
    case QueuePolicy(u) => QueuePolicyStep(w, u, ev.clock)
    case ApplyPolicy => ApplyPolicyStep(w, ev.clock)
    case CancelPolicy => CancelPolicyStep(w)
    case QueuePerms(agent, capability, limit) => QueuePermsStep(w, agent, capability, limit, ev.clock)
    case ApplyPerms(agent) => ApplyPermsStep(w, agent, ev.clock)
    case CancelPerms(agent) => CancelPermsStep(w, agent)
    case QueueConstraints(c) => QueueConstraintsStep(w, c, ev.clock)
    case ApplyConstraints => ApplyConstraintsStep(w, ev.clock)
    case CancelConstraints => CancelConstraintsStep(w)
    case QueueClose => QueueCloseStep(w, ev.clock)
    case ApplyClose(withPending) => ApplyCloseStep(w, withPending, ev.clock)
    case CancelClose => CancelCloseStep(w)
    case Register(agent, capability, limit) => RegisterStep(w, agent, capability, limit)
    case Revoke(agent) => RevokeStep(w, agent)
    case Pause(agent, paused) => PauseStep(w, agent, paused)
    case Freeze => FreezeStep(w)
    case Reactivate(newAgent) => ReactivateStep(w, newAgent)
    case CreateConstraints(c) => CreateConstraintsStep(w, c)
    case PostAssertions(exist) => PostAssertionsStep(w, exist)
  }

  /** A failed instruction leaves everything as it was. */
  function Attempt(chain: Chain, w: World, ev: Event): World {
    var r := Exec(chain, w, ev);
    if r.Ok? then r.value else w
  }

  function After(chain: Chain, w: World, trace: seq<Event>): World {
    if trace == [] then w
    else Attempt(chain, After(chain, w, trace[..|trace| - 1]), trace[|trace| - 1])
  }

  predicate Succeeds(chain: Chain, w: World, trace: seq<Event>, i: nat)
    requires i < |trace|
  {
    Exec(chain, After(chain, w, trace[..i]), trace[i]).Ok?
  }

  ghost predicate Clocked(trace: seq<Event>) {
    forall i, j :: 0 <= i < j < |trace| ==>
      && trace[i].clock.unixTimestamp <= trace[j].clock.unixTimestamp
      && trace[i].clock.slot <= trace[j].clock.slot
  }

  /** A vault as initialize_vault leaves it. */
  ghost predicate Initial(w: World) {
    && w.vault.agents == [] && w.vault.status == Active && w.vault.feeDestination != DEFAULT_KEY
    && w.vault.totalTransactions == 0 && w.vault.totalVolume == 0 && w.vault.totalFeesCollected == 0
    && w.tracker == T.Empty()
    && w.overlay == seq(O.MAX_OVERLAY_ENTRIES, _ => O.Fresh(DEFAULT_KEY))
    && w.constraints.None?
    && w.pending == Pending(None, map[], None, None)
    && !w.policy.hasPendingPolicy && !w.policy.hasConstraints && !w.policy.hasPostAssertions
    && w.policy.policyVersion == 0 && w.policy.sessionExpirySeconds == 0
    && w.policy.hasProtocolCaps == (w.policy.protocolCaps != [])
    && w.policy.destinationMode == DESTINATION_MODE_RESTRICTED
    && LegalPolicy(w.policy)
  }

  /** Everything the program promises of a stored policy. */
  predicate LegalPolicy(p: Policy) {
    && p.timelockDuration >= MIN_TIMELOCK_DURATION
    && p.destinationMode <= DESTINATION_MODE_OPEN_WITH_CAP
    && p.protocolMode <= PROTOCOL_MODE_DENYLIST
    && p.developerFeeRate <= MAX_DEVELOPER_FEE_RATE
    && p.maxSlippageBps <= MAX_SLIPPAGE_BPS
    && |p.protocols| <= MAX_LIST
    && |p.allowedDestinations| <= MAX_LIST
    && (p.sessionExpirySeconds > 0 ==> MIN_SESSION_SECONDS <= p.sessionExpirySeconds <= MAX_SESSION_SECONDS)
    && (p.hasProtocolCaps ==> p.protocolMode == PROTOCOL_MODE_ALLOWLIST && |p.protocolCaps| == |p.protocols|)
  }
}
