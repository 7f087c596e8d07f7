# Sigil: what an agent may spend, and what keeps it so

Sigil lets an owner give agents limited spending rights over a vault. An on-chain program meters every spend
and admits it only under a cap; a client-side shield does the same before anything is signed. This project
models both sides in Dafny and proves what they promise over whole runs, not just one call at a time.

How the modules fit together:

- `SpendLog`, `Metering`: the yardstick. A log of all spends ever made, and what admitting spends against a rolling
  reading guarantees about that log, whatever stores the reading.
- `SpendTracking`, `AgentOverlay`: the two rings (144 tagged ten-minute buckets; 24 untagged hourly buckets per agent),
  their Rust and TypeScript readers as loops with their machine arithmetic, and proofs that each reads exactly the
  abstract meter of the full log although it forgets almost all of it.
- `Fees`, `Program`, `Frames`: fee arithmetic, the program's instructions as all-or-nothing steps on account contents,
  and what each leaves alone. `Accounts` and `RawConstraints` have the five core handlers as they run, on objects and buffers changed in place.
- `Authorization`, `Instructions`: exactly when each instruction succeeds, with what error otherwise, and what it changes.
- `Governance`, `OverlaySlots`, `SpendingRuns`, `Conservation`: theorems about every run of those instructions, in any
  order, with any of them failing. `Overruns` has the concrete runs that show where they end.
- `ShieldLog`, `Shield`, `ShieldRules`, `ShieldContext`, `Velocity`: the client-side state with pruning and rollback, every interleaving
  of `enforce()` calls and signers suspended at their simulation, and the velocity tracker.
- `OrderedMap`, `SnapshotStore`, `AltCaching`, `AltAnswers`, `Recency`, `Lru`, `Budgets`, `Sandwich`, `Inspector`: the bounded stores, the two budget
  resolvers, transaction composition and the session-binding check on it, and transfer decoding.

An instruction that fails leaves everything as it was, since the runtime reverts it. Clocks never go back in a run;
clock readings, fetched data, simulation verdicts and deployment keys are parameters.

## Where the code does not do what its text says

Each of these is kept as the code has it, with the exact condition under which the promise holds.

- The rolling window is documented as 24 hours, exact to $0.000001 (programs/sigil/src/state/tracker.rs:14-17 and
  :97-102, docs/SECURITY.md:345). Recording in the current bucket overwrites the boundary bucket, which shares its slot, so
  a cap holds over every span of at most 85,800 s (23 h 50 min) and over no longer one; the agents' hourly ring over at
  most 82,800 s. `Overruns.CapHoldsExactly` and `Overruns.LimitHoldsExactly` prove both directions for runs of the
  program; the failing runs, from a new vault, put almost twice the cap into one second more.
- The comment at programs/sigil/src/instructions/agent_transfer.rs:94 says a version check rejects a transfer if the
  policy changed since the agent read it. Registering, revoking, reactivating with a new agent, creating constraints and
  creating or closing post-assertions change the configuration without a new version.
  `Governance.VersionsIdentifyConfigurations` proves that these are exactly the exceptions.
- The minimum timelock of 30 minutes (programs/sigil/src/state/mod.rs:79-82) is compared as u64 and added as i64. From
  2^63 on the sum goes back in time. `Governance.MinimumDelay` proves that the delay holds exactly when the duration fits
  i64; `Governance.WrappedTimelockIsNoDelay` queues and applies a change in the same second.
- A velocity dry run is described as a check that does not pollute velocity state
  (sdk/kit/src/velocity-tracker.ts:75-76). `Velocity.BreachingDryRunCoolsDown` has one start a cooldown;
  `Velocity.DryRunIsInvisibleExactly` gives the condition, in terms of the tracker before the call.
- The shielded signer checks the stablecoins of the context's configured network but books those of the state's network
  (sdk/kit/src/shield.ts:371 and :862-866). `Shield.CapsHoldExactly` proves that the caps survive every run exactly when
  the second set is within the first; `Shield.CapsHoldUnderOwnSyncs` that it always is when the context alone names a network.
- The lookup-table cache calls its eviction LRU (sdk/kit/src/alt-loader.ts:84). Neither a
  read nor a refresh moves a key, so a call can evict what it has just fetched (`Recency.RefreshedIsEvicted`).
  `Recency.EvictionIsLatestExactly` proves exactly when a call keeps the entries put last, and `Lru.LruExactly` exactly
  when the cache is an LRU cache throughout a run, hits included.
- Reading a compiled message with a lookup table missing from the cache (sdk/kit/src/shield.ts:937-957) leaves no gap:
  `Sandwich.MissingTableShifts` has every writable of a later lookup end up at a lower index than the message means.
  `Sandwich.ExtractionIsExact` proves when the rebuilt table is right.

## Model

| member | source | states |
|---|---|---|
| `Metering.WindowWithinCap` | programs/sigil/src/instructions/agent_transfer.rs:154-194 | If every spend was admitted against the clamped rolling reading, then what any n consecutive epochs hold never exceeds the cap in force at the latest spend among them, across cap changes |
| `Metering.LimitedWindow` | programs/sigil/src/instructions/agent_transfer.rs:165-190 | The same where some spends went unchecked: a window whose latest spend was checked is within that spend's limit, unchecked spends included |
| `Metering.CappedSpans` | programs/sigil/src/state/tracker.rs:97-151 | For every ring geometry: all logs admitted against the abstract reading keep every span of that many seconds within the cap if and only if the span is at most (n - 1) * d |
| `Metering.ShortSpanWithinCap` | programs/sigil/src/state/tracker.rs:103-151 | Spans of up to (n - 1) * d seconds stay within a bound on all caps used |
| `Metering.OverrunIsAdmitted` | programs/sigil/src/state/tracker.rs:80-92 | The log that defeats longer spans is admitted by the abstract meter, for every ring geometry and every start; `Overruns.OverrunHappens` has the program produce it |
| `SpendTracking.RecordedTracks` | programs/sigil/src/state/tracker.rs:74-95 | Recording keeps the ring in agreement with the full log: each slot holds the latest epoch that uses it, with everything spent in it |
| `SpendTracking.ReadingIsMetered` | programs/sigil/src/state/tracker.rs:103-151 | A ring that agrees with a log reads exactly the last 144 epochs of the log plus the floor-scaled boundary epoch, clamped to 64 bits; the boundary share is gone once the current epoch was written |
| `SpendTracking.EarlyExitEqualsScan` | sdk/kit/src/state-resolver.ts:215-245 | The early exit equals the full scan whenever the last write bounds every bucket; the reading is 0 when more than 144 epochs have passed since |
| `SpendTracking.ReadingDecays` | sdk/kit/src/state-resolver.ts:205-246 | Without writes and future-dated buckets the reading never grows with time |
| `SpendTracking.RecordableExactly` | programs/sigil/src/state/tracker.rs:75-90 | A ring that agrees with a log records exactly at a positive clock and when the whole spend of the current epoch fits 64 bits |
| `SpendTracking.SpendTracker.RecordSpend` | programs/sigil/src/state/tracker.rs:74-95 | Succeeds exactly when the clock is positive and the bucket's sum fits 64 bits; then the new ring is the recorded one |
| `SpendTracking.SpendTracker.GetRolling24hUsd` | programs/sigil/src/state/tracker.rs:103-151 | The loop with saturating i64 and u128 arithmetic computes the reading for every well-formed account and clock |
| `SpendTracking.SpendTracker.MirrorRolling24hUsd` | sdk/kit/src/state-resolver.ts:205-246 | The client's unbounded-integer loop with its window start stopped at 0 computes the same reading as the program |
| `AgentOverlay.RecordedTracks` | programs/sigil/src/state/agent_spend_overlay.rs:225-251 | Gap zeroing and adding keep the untagged slots in agreement with the agent's own log |
| `AgentOverlay.WalkIsMetered` | sdk/kit/src/state-resolver.ts:275-301 | From any step on, the backward walk adds up the floor-weighted spend of the epochs still to visit |
| `AgentOverlay.ReadingIsMetered` | sdk/kit/src/state-resolver.ts:255-305 | The walk with its breaks and early exit reads the same abstract meter as the vault's tagged buckets |
| `AgentOverlay.MeteredBetweenTotals` | sdk/kit/src/state-resolver.ts:293-300 | Before the clamp a reading lies between the totals of the last n and the last n + 1 epochs |
| `AgentOverlay.ReadingDecays` | sdk/kit/src/state-resolver.ts:255-305 | Without writes, and with the last one not in the future, an agent's reading never grows with time |
| `AgentOverlay.RecordableExactly` | programs/sigil/src/state/agent_spend_overlay.rs:235-246 | A slot that agrees with a log records exactly when the whole spend of the current hour fits 64 bits |
| `AgentOverlay.AgentSpendOverlay.FindAgentSlot` | programs/sigil/src/state/agent_spend_overlay.rs:92-95 | The first slot keyed to the agent, or none |
| `AgentOverlay.AgentSpendOverlay.ClaimSlot` | programs/sigil/src/state/agent_spend_overlay.rs:99-108 | Keys the first empty slot and changes nothing else; fails exactly when there is none |
| `AgentOverlay.AgentSpendOverlay.ReleaseSlot` | programs/sigil/src/state/agent_spend_overlay.rs:112-123 | The slot becomes as new, its lifetime counters included; an index out of range changes nothing |
| `AgentOverlay.AgentSpendOverlay.ZeroGapBuckets` | programs/sigil/src/state/agent_spend_overlay.rs:130-152 | Exactly the slots of the epochs after the last write and up to now become 0, for gaps of any length |
| `AgentOverlay.AgentSpendOverlay.GetAgentRolling24hUsd` | programs/sigil/src/state/agent_spend_overlay.rs:159-222 | The loop computes the reading; 0 for an index out of range |
| `AgentOverlay.AgentSpendOverlay.MirrorAgentRolling24hUsd` | sdk/kit/src/state-resolver.ts:255-305 | The client's loop computes the same reading as the program |
| `AgentOverlay.AgentSpendOverlay.RecordAgentContribution` | programs/sigil/src/state/agent_spend_overlay.rs:225-251 | For every clock, with division and remainder truncated toward zero: succeeds exactly when the slot index is in range, the bucket has an index and its sum fits 64 bits; then only that slot changes, to the recorded one |
| `Fees.CeilFeeIsLeast` | programs/sigil/src/state/mod.rs:105-116 | The fee is the least whole number of units that covers the exact share |
| `Fees.SplittingNeverSaves` | sdk/kit/src/seal.ts:590-592 | Splitting an amount never lowers its total fee |
| `Fees.NetExists` | programs/sigil/src/instructions/agent_transfer.rs:212-220 | For every legal rate and positive amount, both fees can be taken out if and only if the products fit 64 bits and it is not a single unit owing two fees |
| `Fees.ClientFeeAgrees` | sdk/kit/src/seal.ts:590-592 | The client's fee is the program's whenever that exists, which is exactly when the product fits 64 bits |
| `Fees.ProtocolFeeIsTwoBps` | programs/sigil/src/state/mod.rs:63-67 | The protocol's fee is one part in 5,000, rounded up |
| `Fees.UsdIsFloor` | programs/sigil/src/instructions/utils.rs:43-68 | Whatever the decimals, the USD value is amount * 10^6 / 10^decimals rounded down, and exists exactly when its one intermediate result fits 64 bits |
| `Accounts.SigilAccounts.ChargeMeters` | programs/sigil/src/instructions/agent_transfer.rs:154-194 | Checks both caps and records in both meters, with each error in the order of the code |
| `Accounts.SigilAccounts.PayOut` | programs/sigil/src/instructions/agent_transfer.rs:222-291 | The three token transfers in order, with the checks of the two fee accounts |
| `Accounts.SigilAccounts.UpdateStats` | programs/sigil/src/instructions/agent_transfer.rs:293-308 | The three counters grow by one, the amount and the developer fee, or it fails exactly when one would outgrow 64 bits |
| `Accounts.SigilAccounts.AgentTransferHandler` | programs/sigil/src/instructions/agent_transfer.rs:78-335 | On success the accounts are those of the transfer step; otherwise it reports the step's error |
| `Accounts.SigilAccounts.AgentTransfer` | programs/sigil/src/instructions/agent_transfer.rs:78-335 | The transaction: the step's whole effect or none of it |
| `Authorization.ChecksAreEntitlement` | programs/sigil/src/instructions/agent_transfer.rs:94-152 | The checks before the meters pass exactly when the first entry with the agent's key is awake and may spend, the vault is active, the version is the expected one, a positive amount of a recognised stablecoin goes from the vault's own account to an open or listed destination of that mint, and its USD value fits and is at most the maximum; they yield that value |
| `Authorization.ChecksInOrder` | programs/sigil/src/instructions/agent_transfer.rs:94-152 | The error of a registered agent's transfer is that of the first of these checks to fail, in the program's order |
| `Authorization.TransferSucceedsExactly` | programs/sigil/src/instructions/agent_transfer.rs:78-335 | A transfer succeeds if and only if it is entitled, has room in both meters, its fees fit 64 bits and the amount, the fee accounts are right where a fee is due, the vault's account can pay in order under any aliasing, and no counter overflows |
| `Authorization.EffectsInOrder` | programs/sigil/src/instructions/agent_transfer.rs:154-308 | The error of an entitled transfer: cap, slot, limit, records, fees, money, counters, in that order |
| `Authorization.FundsErrors` | programs/sigil/src/instructions/agent_transfer.rs:222-291 | Too little for the net amount, a wrong treasury account, a wrong fee account: each its own error |
| `Authorization.SuccessfulTransfersWereEntitled` | programs/sigil/src/instructions/agent_transfer.rs:100-152 | In every run from any state, a transfer that succeeds was entitled to in the state it found |
| `Authorization.FrozenVaultPaysNobody` | programs/sigil/src/instructions/agent_transfer.rs:100-101 | In every run, from a successful freeze to the next successful reactivation no transfer succeeds |
| `Authorization.PausedAgentPaysNobody` | programs/sigil/src/instructions/agent_transfer.rs:103-107 | In every run, from a successful pause of an agent to its next successful unpausing or revocation none of its transfers succeeds |
| `Authorization.StatusStep` | programs/sigil/src/instructions/freeze_vault.rs:39-183 | Freezing freezes, reactivating activates, revoking the last agent freezes, and no other instruction touches the vault's status |
| `Accounts.SigilAccounts.OverlayFields` | programs/sigil/src/instructions/apply_pending_policy.rs:60-102 | Each of twelve fields by itself takes what the update carries for it and keeps its value otherwise, and no other field moves; fails exactly on a short timelock or an unknown destination mode |
| `Accounts.SigilAccounts.ApplyPendingPolicy` | programs/sigil/src/instructions/apply_pending_policy.rs:37-118 | Equals its step: guards, overlay, cleared flag, new version, closed pending account, or nothing |
| `Accounts.SigilAccounts.RearrangeOverlay` | programs/sigil/src/instructions/apply_agent_permissions_update.rs:85-102 | Claims, releases or keeps the agent's slot as the limit changes; fails, changing nothing, exactly when a slot is needed and none is free |
| `Accounts.SigilAccounts.ApplyAgentPermissionsUpdate` | programs/sigil/src/instructions/apply_agent_permissions_update.rs:51-118 | Equals its step: new rights, slot claimed or released, new version, closed pending account, or nothing |
| `Accounts.SigilAccounts.ApplyConstraintsUpdate` | programs/sigil/src/instructions/apply_constraints_update.rs:44-128 | Equals its step, although the bytes are copied before the target is checked |
| `RawConstraints.CopyRange` | programs/sigil/src/instructions/apply_constraints_update.rs:89-90 | Exactly the bytes of the range become the source's; all others stay |
| `RawConstraints.ApplyEntries` | programs/sigil/src/instructions/apply_constraints_update.rs:79-102 | On the raw buffers: entries and the two scalars become the pending ones and no other byte changes; on a foreign vault only the entries were copied |
| `RawConstraints.LayoutCoversAccount` | programs/sigil/src/state/constraints.rs:176-191 | Decoding an account into the layout and encoding it again gives every byte back |
| `Accounts.SigilAccounts.ApplyCloseConstraints` | programs/sigil/src/instructions/apply_close_constraints.rs:45-108 | Equals its step, closing a pending update too when it is passed along |
| `SpendingRuns.DailyCapHolds` | programs/sigil/src/instructions/agent_transfer.rs:154-194 | In every run of all modelled instructions, what any 144 consecutive ten-minute epochs record never exceeds the daily cap in force at the latest spend among them |
| `SpendingRuns.DailyCapHoldsForSeconds` | programs/sigil/src/instructions/agent_transfer.rs:154-163 | In every run whose caps never exceed a bound, no span of up to 85,800 s records more than the bound |
| `SpendingRuns.MeteredRun` | programs/sigil/src/instructions/agent_transfer.rs:192-194 | After every run the tracker agrees with the log of all spends of the run, each of which was admitted |
| `SpendingRuns.AgentLimitHolds` | programs/sigil/src/instructions/agent_transfer.rs:165-190 | In every run, any 24 consecutive hours whose latest spend by an agent was made under a positive limit record no more of its spends, since it got its slot, than that limit; limits may come, change and go |
| `SpendingRuns.AgentLimitHoldsForSeconds` | programs/sigil/src/instructions/agent_transfer.rs:165-190 | In every run in which an agent always had a limit, no span of up to 82,800 s records more of its spends, since it got its slot, than a bound on the limits |
| `SpendingRuns.MeterForgetsExactly` | programs/sigil/src/state/agent_spend_overlay.rs:110-123 | In every run, an agent's meter has seen all its spends if and only if it held a slot from its first spend on |
| `SpendingRuns.LimitedAgentIsHeld` | programs/sigil/src/instructions/agent_transfer.rs:165-190 | In every run in which an agent stays registered under a positive limit from its first spend on, any 24 consecutive hours record no more of all its spends than the limit in force at the latest |
| `Overruns.PaymentSucceeds` | programs/sigil/src/instructions/agent_transfer.rs:78-335 | In a concrete vault, a payment that fits both readings succeeds, is recorded in both meters and leaves the vault ready for the next |
| `Overruns.OverrunHappens` | programs/sigil/src/instructions/agent_transfer.rs:154-194 | From a vault as initialize_vault leaves it, whatever the epoch they start in: registering agents and three payments spend 19 under a cap of 10 (vault) or a limit of 10 (agent), the last one a second after the span the ring covers |
| `Overruns.CapHoldsExactly` | programs/sigil/src/state/tracker.rs:97-151 | The daily cap holds over every span of that many seconds, in every run of the program, if and only if the span is at most 85,800 s |
| `Overruns.CapIsOverrun` | programs/sigil/src/state/tracker.rs:97-151 | For every longer span and every start epoch, a run from a new vault that breaks the cap within that span |
| `Overruns.LimitHoldsExactly` | programs/sigil/src/state/agent_spend_overlay.rs:154-222 | An agent's limit holds over every span of that many seconds, in every run, if and only if the span is at most 82,800 s |
| `Overruns.LimitIsOverrun` | programs/sigil/src/state/agent_spend_overlay.rs:154-222 | For every longer span and every start epoch, a run from a new vault that breaks an agent's limit within that span |
| `Overruns.ReturningAgentOverspends` | programs/sigil/src/instructions/revoke_agent.rs:29-66 | An agent under a limit of 10 throughout that is revoked and registered again in between spends 18 in one second, from a new vault |
| `SpendingRuns.MeteredAgentRun` | programs/sigil/src/instructions/agent_transfer.rs:166-190 | After every run each agent's slot agrees with the agent's spends since it got it, through claims and releases by others |
| `SpendingRuns.AgentWindowsFit64` | programs/sigil/src/instructions/agent_transfer.rs:154-189 | The daily cap keeps every agent's hourly windows clear of the 64-bit clamp, in every run |
| `Governance.VersionStep` | programs/sigil/src/state/policy.rs:82-86 | One instruction: the version never falls, and an unchanged version means an unchanged configuration exactly when the instruction is not one of the unversioned ones |
| `Governance.VersionsIdentifyConfigurations` | programs/sigil/src/state/policy.rs:82-86 | In any run from any state: equal versions mean equal policy fields, constraints and agent rights, if and only if no unversioned instruction succeeds in it |
| `Governance.TransferRunsUnderReadConfiguration` | programs/sigil/src/instructions/agent_transfer.rs:94-98 | A transfer that passes its version check runs under exactly the configuration the agent read, if no unversioned instruction succeeded |
| `Governance.RegistrationKeepsVersion` | programs/sigil/src/instructions/register_agent.rs:28-91 | Registering an agent in a new vault changes the configuration under the same version |
| `Governance.PendingWasQueued` | programs/sigil/src/state/pending_policy.rs:69-71 | Whatever is pending was put there by one queue instruction and not queued, applied or cancelled since |
| `Governance.ChangeTakesForce` | programs/sigil/src/instructions/apply_pending_policy.rs:58-110 | Applying puts in force what was pending, field by field: each policy field carried and no other, the agent's capability and limit and no other agent, the constraints byte for byte, or no constraints; the version goes up by one |
| `Governance.ChangeLandsAsQueued` | programs/sigil/src/instructions/apply_pending_policy.rs:43-56 | Every change that lands puts in force, field by field, exactly what one earlier instruction queued, not before its timelock as then in force and fewer than 216,000 slots after, with nothing of its kind queued, applied or cancelled in between; for all four kinds |
| `Governance.ChangesWaitTheMinimum` | programs/sigil/src/state/mod.rs:79-82 | In every run from a new vault, a change of any kind lands at least the minimum timelock after it was queued, if the duration then in force fits i64 |
| `Governance.NoChangeLandsTwice` | programs/sigil/src/instructions/apply_pending_policy.rs:18-36 | Between two applications of one kind of change it was queued anew |
| `Governance.MinimumDelay` | programs/sigil/src/instructions/queue_policy_update.rs:146-150 | Under a legal policy a queued change waits at least the minimum timelock if and only if the stored duration fits i64 |
| `Instructions.QueuedChangeAppliesExactly` | programs/sigil/src/instructions/apply_pending_policy.rs:43-56 | In every run from a new vault, a change queued and not touched since can be applied at a clock if and only if its timelock as of then has run out, fewer than 216,000 slots have passed, what it applies to is still there and the version is not exhausted; for all four kinds |
| `Instructions.ApplyPolicyExactly` | programs/sigil/src/instructions/apply_pending_policy.rs:43-110 | Exactly when a policy update applies, and which error it gives otherwise, in order |
| `Instructions.ApplyPermsExactly` | programs/sigil/src/instructions/apply_agent_permissions_update.rs:57-109 | Exactly when new rights apply, given the slots are held, and which error otherwise |
| `Instructions.ApplyConstraintsExactly` | programs/sigil/src/instructions/apply_constraints_update.rs:50-109 | Exactly when new constraints apply |
| `Instructions.ApplyCloseExactly` | programs/sigil/src/instructions/apply_close_constraints.rs:51-105 | Exactly when closing the constraints applies, and that a pending update goes along exactly when it is passed |
| `Instructions.DueExactly` | programs/sigil/src/state/pending_policy.rs:69-71 | The two guards of every application and their errors |
| `Instructions.QueuePolicyExactly` | programs/sigil/src/instructions/queue_policy_update.rs:40-180 | A policy update is queued exactly when none is pending, the vault is not closed, every field is within its bounds, per-protocol caps fit the policy as it would then stand, and the time of execution exists; it is stored as given |
| `Instructions.QueuePermsExactly` | programs/sigil/src/instructions/queue_agent_permissions_update.rs:39-95 | New rights are queued exactly for a registered agent with none pending and a capability up to 2; stored as given |
| `Instructions.QueueConstraintsExactly` | programs/sigil/src/instructions/queue_constraints_update.rs:49-138 | New constraints are queued exactly when there are constraints of this vault and none pending; stored as given |
| `Instructions.QueueCloseExactly` | programs/sigil/src/instructions/queue_close_constraints.rs:46-90 | Closing is queued exactly when there are constraints of this vault and no closing is pending |
| `Instructions.CancelExactly` | programs/sigil/src/instructions/cancel_pending_policy.rs:37-47 | Cancelling succeeds exactly when there is something of the kind to cancel, and only that goes; for all four kinds |
| `Instructions.ScheduleExactly` | programs/sigil/src/instructions/queue_policy_update.rs:146-150 | The time of execution is the clock plus the duration read as signed 64 bits, and exists exactly when that sum does |
| `Instructions.RegisterExactly` | programs/sigil/src/instructions/register_agent.rs:28-91 | Exactly when an agent is registered; it comes last, awake, with a slot whenever one was free, and nothing else changes |
| `Instructions.RevokeExactly` | programs/sigil/src/instructions/revoke_agent.rs:29-66 | Exactly when an agent is revoked; its entries go, the others stay, its slot is emptied, and a vault without agents freezes |
| `Instructions.PauseExactly` | programs/sigil/src/instructions/pause_agent.rs:20-51 | Exactly when an agent is paused or unpaused; only its flag changes |
| `Instructions.ReactivateExactly` | programs/sigil/src/instructions/reactivate_vault.rs:20-82 | Exactly when a vault is reactivated; a new agent comes last, without a limit |
| `Instructions.SlotFollowsLimit` | programs/sigil/src/instructions/apply_agent_permissions_update.rs:85-102 | After an update the agent has a slot if its limit is positive, none if a positive limit was dropped, and keeps its history otherwise |
| `Governance.WrappedTimelockIsNoDelay` | programs/sigil/src/instructions/queue_policy_update.rs:146-150 | A legal duration of 2^64 - 1 lets any legal update be queued and applied in the same second |
| `Governance.ReachableIsLawful` | programs/sigil/src/instructions/apply_pending_policy.rs:79-102 | In every reachable state the timelock is at least the minimum, the destination mode known, every rate, list and expiry within bounds, per-protocol caps match the protocols, flags match the accounts, and a pending update is still legal |
| `OverlaySlots.FreeSlot` | programs/sigil/src/state/agent_spend_overlay.rs:97-108 | When the holders of the ten slots are distinct agents out of at most ten, one of them without a slot, some slot is empty |
| `OverlaySlots.RearrangedSlots` | programs/sigil/src/instructions/apply_agent_permissions_update.rs:85-102 | Claiming or releasing as a limit changes always succeeds and keeps the slots held by distinct registered agents, one for every limited one |
| `OverlaySlots.SlotStep` | programs/sigil/src/instructions/apply_agent_permissions_update.rs:74-102 | Every instruction keeps that invariant, and none fails for want of a slot |
| `OverlaySlots.ReachableSlots` | programs/sigil/src/instructions/agent_transfer.rs:165-189 | In every reachable state no instruction fails with OverlaySlotExhausted or AgentSlotNotFound |
| `Conservation.TransferConserves` | programs/sigil/src/instructions/agent_transfer.rs:212-308 | One transfer, under any aliasing of its accounts: net and fees make up the amount, every balance moves by its debits and credits, and the three counters follow |
| `Conservation.RunConserves` | programs/sigil/src/instructions/agent_transfer.rs:212-308 | Over every run from any state: every balance changes by its total debits and credits, the volume counter by all amounts, the fee counter by all developer fees |
| `Conservation.VaultPaysItsVolume` | programs/sigil/src/instructions/agent_transfer.rs:222-302 | Over every run with one vault account that never receives, its decrease is the growth of the volume counter |
| `Conservation.ReceiversGetTheVolume` | programs/sigil/src/instructions/agent_transfer.rs:222-302 | Over every run, any distinct accounts that hold all receivers of its transfers are credited together the growth of the volume counter |
| `Conservation.DeveloperGetsTheFees` | programs/sigil/src/instructions/agent_transfer.rs:264-308 | Over every run in which developer fees go to one account that receives nothing else, it is credited the growth of the fee counter |
| `Conservation.MoneyIsConserved` | programs/sigil/src/instructions/agent_transfer.rs:222-291 | Over every run from any state, the balances of any accounts that hold all parties of its transfers add up to what they did before |
| `ShieldLog.PruningIsInvisible` | sdk/kit/src/shield.ts:133-175 | After any history of records, checkpoints, rollbacks, syncs and resets, every window query of at most 24 h answers as a log that never discards |
| `ShieldLog.PrunedExactly` | sdk/kit/src/shield.ts:163-175 | A list of more than 10,000 entries loses exactly what is older than 24 h; a shorter one nothing |
| `ShieldLog.RollbackRestores` | sdk/kit/src/shield.ts:245-263 | After any history, rolling back to a checkpoint brings back every field as it was when the checkpoint was taken |
| `ShieldLog.ShieldState.GetSpendInWindow` | sdk/kit/src/shield.ts:133-138 | The sum of the mint's entries not before the cutoff |
| `ShieldLog.ShieldState.Prune` | sdk/kit/src/shield.ts:163-175 | Drops entries older than 24 h from each list that is over the threshold, each at its own clock reading |
| `ShieldLog.ShieldState.RecordSpend` | sdk/kit/src/shield.ts:152-155 | Appends one entry, then prunes |
| `ShieldLog.ShieldState.SyncFromOnChain` | sdk/kit/src/shield.ts:178-184 | New baseline, no local additions, network kept unless one is named |
| `ShieldLog.ShieldState.Rollback` | sdk/kit/src/shield.ts:256-263 | Every field returns to its checkpointed value |
| `Shield.CheckedWindow` | sdk/kit/src/shield.ts:305-341 | If what a check saw in its window and what it let through fit the bound, every window of that length does, before, around and after it |
| `Shield.LimitsHoldInEveryInterleaving` | sdk/kit/src/shield.ts:801-872 | For every interleaving of enforce() calls, signers split at their simulation, syncs and pauses, with windows of at most 24 h: the context approves exactly what one that never discards would, and in the full record no window exceeds a mint's limit or the rate limit |
| `Shield.CapsHoldBetweenSyncs` | sdk/kit/src/shield.ts:370-412 | In every such run in which the networks suit each other, either nothing was added locally or baseline plus additions are within the global and the agent's cap |
| `Shield.CapsHoldUnderOwnSyncs` | sdk/kit/src/shield.ts:613-623 | That holds in every run in which only the context's own sync names a network |
| `Shield.CapsHoldExactly` | sdk/kit/src/shield.ts:861-871 | It holds in every run that may be synced for network n if and only if that network's stablecoins are among those of the configured one, or none is configured |
| `ShieldRules.VerdictExactly` | sdk/kit/src/shield.ts:305-412 | The verdict on a transaction is, as sums over its own transfers and the entries recorded: every limit, the rate, and for stablecoins of the network acted on the synced maximum, the global cap and the agent's cap |
| `ShieldRules.RecordedExactly` | sdk/kit/src/shield.ts:572-611 | An event records exactly when the context is not paused, the other rules pass and these do; it records its own transfers |
| `ShieldRules.RecordedTransactionsFit` | sdk/kit/src/shield.ts:380-410 | Over every run, each recorded transaction that moves stablecoins while a state is synced is at most the synced maximum and fits both budgets |
| `ShieldRules.FullLogIsHistory` | sdk/kit/src/shield.ts:605-611 | Over every run, the full log is exactly the outgoing transfers of all recorded transactions, and one transaction for each |
| `ShieldRules.LocalAdditionsAreBooked` | sdk/kit/src/shield.ts:613-623 | Over every run, local additions are exactly the stablecoins booked since the last sync, enforce() by the configured network and a signer by the state's |
| `ShieldRules.ContextExactly` | sdk/kit/src/shield.ts:177-184 | What syncs, pauses and suspended signers do to the context; a signer finishes once |
| `ShieldContext.ShieldedContext.ComputeStablecoinUsd` | sdk/kit/src/shield.ts:435-448 | The sum of the signer's stablecoin transfers |
| `ShieldContext.ShieldedContext.EvaluatePrograms` | sdk/kit/src/shield.ts:292-303 | Allowed exactly when there is no list, or every program is a system program or listed |
| `ShieldContext.ShieldedContext.Evaluate` | sdk/kit/src/shield.ts:281-415 | Allowed exactly when the custom check passes, every program is known, and each rule holds as a sum over the transfers and entries: every limit, the rate, the size, the global and the agent's cap, each query at its own clock reading |
| `ShieldContext.ShieldedContext.Record` | sdk/kit/src/shield.ts:852-859 | Records each outgoing transfer, then the transaction, pruning after each |
| `ShieldContext.ShieldedContext.Enforce` | sdk/kit/src/shield.ts:572-629 | Allowed exactly when not paused and all those rules hold; the new state is that of the machine's enforce step; a denial changes nothing |
| `ShieldContext.ShieldedContext.FinishSigning` | sdk/kit/src/shield.ts:829-871 | Allowed exactly when the simulation passed, the context is not paused, all those rules hold and, under a hard session, the program's first and last own instructions are a validate and a finalize; the new state is that of the machine's signing step |
| `Velocity.RapidFireIsBounded` | sdk/kit/src/velocity-tracker.ts:137-162 | In every sequence of calls, any window of the rapid-fire length holds fewer accepted calls than the threshold |
| `Velocity.VerdictExactly` | sdk/kit/src/velocity-tracker.ts:81-157 | A call is turned away during a cooldown, and otherwise accepted exactly when the minute's and the hour's count, the hour's spend of all mints, the synced cap and one more call in the rapid-fire window are each below their ceiling |
| `Velocity.CooldownDenies` | sdk/kit/src/velocity-tracker.ts:81-91 | Until the cooldown ends every call is denied and changes nothing |
| `Velocity.BreachStartsCooldown` | sdk/kit/src/velocity-tracker.ts:153-157 | A breach denies all retries for exactly the configured time, and retries do not prolong it |
| `Velocity.DryRunIsInvisibleExactly` | sdk/kit/src/velocity-tracker.ts:71-78 | A dry run changes no later outcome if and only if the tracker is cooling down already, or no rate is at its ceiling and the rapid-fire count at least two away, or there is no cooldown |
| `Velocity.BreachingDryRunCoolsDown` | sdk/kit/src/velocity-tracker.ts:144-157 | A dry run over a rate, or one short of the rapid-fire count, has the next call denied for a cooldown that nothing else started |
| `Velocity.VelocityTracker.Check` | sdk/kit/src/velocity-tracker.ts:78-163 | Verdict by those rules; a breach sets the cooldown from its own clock, nothing else does; the new tracker is the specified one |
| `SnapshotStore.EvictionKeepsNewest` | sdk/kit/src/balance-tracker.ts:190-193 | Evicting keeps map and list in step and leaves exactly the newest entries |
| `SnapshotStore.AlwaysInStep` | sdk/kit/src/balance-tracker.ts:178-220 | After any history: the list is the map's keys in insertion order without duplicates, at most maxEntries, and the baseline is the first snapshot since the last clear |
| `SnapshotStore.RetainedAreLatest` | sdk/kit/src/balance-tracker.ts:178-194 | Each retained timestamp holds the balances last taken at it |
| `SnapshotStore.OrderIsNewestArrivals` | sdk/kit/src/balance-tracker.ts:178-194 | After any history, the list is the newest maxEntries arrivals since the last clear, an arrival being a take at a time not then retained |
| `SnapshotStore.TakenIsKept` | sdk/kit/src/balance-tracker.ts:178-194 | After any history, a take can be looked up, is listed last if its time was new, and evicts exactly the oldest of a full store |
| `SnapshotStore.ParseOfDecimal` | sdk/kit/src/balance-tracker.ts:226-229 | Reading back the decimal form of any integer gives the integer |
| `SnapshotStore.RoundTrip` | sdk/kit/src/balance-tracker.ts:222-285 | After any history, the store rebuilt from its serialised form is the store itself |
| `SnapshotStore.BalanceSnapshotStore.Take` | sdk/kit/src/balance-tracker.ts:178-194 | The list keeps its order, a new time comes last and the newest maxEntries remain; the balances taken can be looked up |
| `SnapshotStore.BalanceSnapshotStore.GetLatest` | sdk/kit/src/balance-tracker.ts:206-210 | The newest entry of the map, found whenever there is one |
| `SnapshotStore.BalanceSnapshotStore.FromJSON` | sdk/kit/src/balance-tracker.ts:248-285 | Rebuilds entry by entry, without looking for duplicates or evicting |
| `AltCaching.EvictionDropsOldest` | sdk/kit/src/alt-loader.ts:84-89 | What remains is the suffix of maxSize entries of the map |
| `Recency.FilledOrder` | sdk/kit/src/alt-loader.ts:75-82 | After a fill the addresses are the cached ones in their old places, refreshed or not, then the new ones in fetch order: the order of first puts |
| `Recency.EvictionIsLatestExactly` | sdk/kit/src/alt-loader.ts:75-89 | For every cache and fetch, eviction keeps the maxSize entries put last, the cache being in order of last puts before, if and only if none of the addresses that must go, counted from the oldest, is among the last maxSize fetched |
| `Recency.RefreshedIsEvicted` | sdk/kit/src/alt-loader.ts:84-89 | With addresses 1 and 2 cached and room for two, a call that refreshes 1 and brings 3 drops the 1 it has just refreshed |
| `Recency.RefreshedIsEvictedInARun` | sdk/kit/src/alt-loader.ts:45-103 | That happens in a run from an empty cache: 1 and 2 are fetched and expire, then 1 and 3 are asked for, both fetched, and 2 and 3 remain |
| `Lru.FillIsLatestExactly` | sdk/kit/src/alt-loader.ts:75-89 | For every cache and fetch, a fill leaves the very cache, order included, that moves what it puts to the end, if and only if the addresses fetched last come last in that order anyway |
| `Lru.UseIsHarmlessExactly` | sdk/kit/src/alt-loader.ts:55-65 | Moving the hits of a call to the end changes nothing if and only if they are the last addresses of the cache, in the order of their last use |
| `Lru.LruExactly` | sdk/kit/src/alt-loader.ts:29-113 | Over every interleaving of calls and reads, the cache is throughout one that evicts what was put or hit least recently if and only if every fill and every hit is of that harmless kind, as seen before it |
| `AltCaching.EveryRunIsSound` | sdk/kit/src/alt-loader.ts:45-103 | In every interleaving, every cache entry and every table a suspended call holds was fetched for its address, and the cache is within its bound |
| `AltCaching.ReadsAreGenuine` | sdk/kit/src/alt-loader.ts:109-113 | Whatever a synchronous read returns was fetched for that address by a call that started less than a TTL ago |
| `AltCaching.ReturnsAreGenuine` | sdk/kit/src/alt-loader.ts:45-103 | Whatever a call returns was brought by its own fetch, evicted or not, or was cached within a TTL when the call started |
| `AltAnswers.BeginExactly` | sdk/kit/src/alt-loader.ts:45-65 | After any interleaving: a call returns at once exactly when all it asks for is fresh, answering every address asked for and no other; otherwise it is suspended holding exactly the fresh ones |
| `AltAnswers.FinishExactly` | sdk/kit/src/alt-loader.ts:68-102 | A suspended call returns what it held and all its fetch brought, the latter winning; a failed fetch leaves the cache alone |
| `AltAnswers.ReadExactly` | sdk/kit/src/alt-loader.ts:109-113 | A synchronous read answers exactly the fresh addresses, each with its own table |
| `AltAnswers.MissesExactly` | sdk/kit/src/alt-loader.ts:55-65 | What is fetched: exactly the addresses asked for that are missing or expired |
| `AltAnswers.FilledExactly` | sdk/kit/src/alt-loader.ts:75-82 | A fill gives every fetched address its table and the call's expiry, and leaves the others |
| `AltAnswers.StoredExactly` | sdk/kit/src/alt-loader.ts:75-89 | After any interleaving, a fetch leaves exactly the last maxSize of the addresses cached before followed by the new ones; fetched ones with their table until a TTL after the call started, others as they were |
| `AltAnswers.HeldSinceInvalidation` | sdk/kit/src/alt-loader.ts:75-118 | After any interleaving, whatever is cached was fetched since the cache was last invalidated |
| `AltCaching.AltCache.BeginResolve` | sdk/kit/src/alt-loader.ts:51-65 | The tables found unexpired and the addresses left to fetch, in order |
| `AltCaching.AltCache.FinishResolve` | sdk/kit/src/alt-loader.ts:75-91 | Fills, evicts, and returns what was found and fetched whatever was evicted |
| `AltCaching.AltCache.GetCachedAddresses` | sdk/kit/src/alt-loader.ts:109-113 | The unexpired table of that address, or none |
| `AltCaching.MergeAltAddresses` | sdk/kit/src/alt-loader.ts:127-150 | The program's table first, no duplicates, exactly the given addresses, in order of first occurrence |
| `Budgets.ResolveGlobal` | sdk/kit/src/state-resolver.ts:471-480 | The vault's spent, cap and max(cap - spent, 0), with nothing spent when there is no tracker |
| `Budgets.GetProtocolSpend` | sdk/kit/src/state-resolver.ts:313-335 | The first counter of the protocol until its window of 144 epochs is over, else 0 |
| `Budgets.ProtocolSpendExactly` | sdk/kit/src/state-resolver.ts:313-335 | In seconds: the first counter counts until 144 epochs of 600 s after its window's start |
| `Budgets.ProtocolBudgetsExactly` | sdk/kit/src/state-resolver.ts:522-534 | One budget for each protocol with a positive cap, at the place of that cap among the positive ones |
| `Budgets.ResolveProtocols` | sdk/kit/src/state-resolver.ts:516-535 | The protocols with a positive cap, in order, each with its own spent, cap and remaining |
| `Budgets.EveryProtocolIsBudgeted` | sdk/kit/src/state-resolver.ts:516-535 | In every reachable state with all caps positive, every protocol has exactly one budget, in order |
| `Budgets.ResolveAll` | sdk/kit/src/state-resolver.ts:471-535 | The global budget, a budget for exactly the agents with a positive limit, each from its slot's reading and its last positive limit, and the protocols' budgets |
| `Budgets.ResolveBudget` | sdk/kit/src/state-resolver.ts:703-738 | The global budget, and the agent's under the limit of its first entry |
| `Budgets.ResolversAgreeExactly` | sdk/kit/src/state-resolver.ts:703-738 | Both resolvers report the same global and agent figures, whatever was spent, if and only if the agent's last entry with a limit, if any, has the limit of its first entry |
| `Budgets.DistinctKeysAgree` | sdk/kit/src/state-resolver.ts:485-514 | With distinct agent keys both see the same limit |
| `Budgets.ResolversAgreeWhenReachable` | sdk/kit/src/state-resolver.ts:471-514 | In every reachable state of the program both report the same global and agent figures, for every agent and time |
| `Budgets.RemainingPredictsAdmission` | sdk/kit/src/state-resolver.ts:703-738 | In every reachable state and at any time since: a positive spend is within both remaining figures if and only if it passes both meter checks of the program then; and once it is, it passes them at every later time, whatever instructions that touch neither meters, caps nor agents come between |
| `Sandwich.RewriteChangesOnlyMappedWritables` | sdk/kit/src/seal.ts:246-268 | Exactly the mapped writable addresses change, to their targets; order, roles, programs and data stay |
| `Sandwich.IdempotentExactly` | sdk/kit/src/seal.ts:246-268 | The rewrite is idempotent on all instruction lists if and only if every target that is also a key maps to itself |
| `Sandwich.BuildReplacements` | sdk/kit/src/seal.ts:706-727 | The map holds the agent's token pair, the stablecoin pair when both its accounts are known, and all extra pairs, and nothing else; refused exactly when an extra key is already mapped |
| `Sandwich.ComposeTransaction` | sdk/kit/src/composer.ts:62-83 | A compute limit, a price if one is set, the validate, every DeFi instruction in order, the finalize, and nothing else |
| `Sandwich.ComposedIsBound` | sdk/kit/src/composer.ts:67-83 | However the composed instructions are compiled, and whatever DeFi instructions are between, the program's own included, the hard session-binding check accepts |
| `Sandwich.RewrittenIsBound` | sdk/kit/src/shield.ts:1016-1086 | The same after the account rewrite |
| `Sandwich.MatchesDiscriminator` | sdk/kit/src/shield.ts:1106-1119 | The byte loop decides whether the discriminator is a prefix of the data |
| `Sandwich.BoundExactly` | sdk/kit/src/shield.ts:1039-1072 | The hard check accepts if and only if there are instructions i <= j of the program, none of its own before i or after j, both with at least 8 bytes, i's starting with the validate and j's with the finalize discriminator |
| `Sandwich.CheckSessionBinding` | sdk/kit/src/shield.ts:1016-1086 | The filter and the two comparisons decide exactly that |
| `Sandwich.ExtractionIsExact` | sdk/kit/src/shield.ts:921-957 | The rebuilt account table is the message's own if and only if every table an address is drawn from is cached at the pass that draws it, each pass asking the cache anew |
| `Sandwich.TableLayout` | sdk/kit/src/shield.ts:921-957 | Where everything is in the combined table: static accounts, then each writable after those of earlier lookups, then the readonlys after all writables; an index beyond its table gives the system program |
| `Sandwich.MissingTableShifts` | sdk/kit/src/shield.ts:936-946 | With one table missing at the first pass, every writable of a later lookup sits at an index too low by as many as the missing table would have brought |
| `Inspector.Inspect` | sdk/kit/src/inspector.ts:100-195 | An instruction's transfer or dangerous operation, exactly when its discriminator, data and accounts make it one |
| `Inspector.AnalyzeInstructions` | sdk/kit/src/inspector.ts:87-203 | Every program once and no other, all transfers and dangerous operations in order, and the value leaving under the signer |
| `Inspector.AnalysisIsBounded` | sdk/kit/src/inspector.ts:96-195 | No instruction counts both as a transfer and as dangerous, so the two lists together are no longer than the instructions |
| `Inspector.DecodesWhatWasEncoded` | sdk/kit/src/inspector.ts:136-153 | Decoding inverts the TransferChecked layout for every 64-bit amount |
| `Inspector.DecodeExactly` | sdk/kit/src/inspector.ts:113-153 | A transfer is seen if and only if the instruction has one of the two layouts, with each field read from its place |
| `Inspector.EndangersExactly` | sdk/kit/src/inspector.ts:162-194 | An operation is seen as dangerous if and only if it is an approve, set-authority, close or revoke on some account |
| `Inspector.AnalysisInOrder` | sdk/kit/src/inspector.ts:96-195 | Transfers and dangerous operations come in the order of the instructions |
| `Inspector.ValueExactly` | sdk/kit/src/inspector.ts:132-159 | The estimated value is the sum of all amounts that leave under the signer |
| `Inspector.LimitsSeeAtMostTheValue` | sdk/kit/src/inspector.ts:132-135 | What the shield holds against any one limit never exceeds the value the inspector reports as leaving |

## Left out

- validate_and_authorize, finalize_session and the escrow handlers, which also write the two meters; runs here spend by agent_transfer only.
- deposit_funds, withdraw_funds, close_vault and the allocate and extend handlers: easy guards and transfers with no cross-step argument.
- Anchor account plumbing: owner signatures, seeds, rent and lamports, the CPI guard, events. PDA and ATA derivation, codecs, RPC and signing are foreign code; addresses are opaque values.
- Program: queue, cancel, register, revoke, pause, freeze, reactivate, constraint-creation and post-assertion handlers are steps on values, not objects changed in place.
- Program: the many specific errors of a rejected policy update are one error, and the validation of constraint entries at queue time is not modelled.
- AgentOverlay.AgentSpendOverlay.RecordAgentContribution: a panic on a clock whose remainder is no index is reported like an overflow; so is it by Accounts.SigilAccounts.AgentTransfer. Both abort the transaction.
- Accounts.SigilAccounts.ApplyConstraintsUpdate: holds the account as a record; the copy between the raw buffers is RawConstraints.ApplyEntries.
- Accounts.SigilAccounts.OverlayFields: fields are assigned in local copies and written back together.
- Writing per-protocol counters and growing agents' lifetime totals, which only finalize_session does; releasing a slot clears the latter here as there.
- ShieldContext.ShieldedContext.Evaluate: the verdict of the caller's own check is an input, since that check is not part of the repository; so it is for ShieldContext.ShieldedContext.Enforce.
- ShieldContext.ShieldedContext.FinishSigning: the result of the simulation is an input, since it comes from the network. The velocity ceiling before the suspension is an input of the signing start.
- Shield: policy updates during a run and resets; windows over 24 h; limits on transfers that name no mint, which are recorded under the empty mint. The code promises nothing over whole runs for these.
- Sandwich.ComposedIsBound: compilation is any assignment that keeps order, programs and data, with programs among the static accounts; message size is not modelled.
- SnapshotStore.RoundTrip: the serialised form is a record of decimal strings, so the JSON text is not modelled.
- SnapshotStore.BalanceSnapshotStore.FromJSON: starts from that record; the non-decimal forms BigInt accepts, and a negative bound, are not modelled.
- SnapshotStore.BalanceSnapshotStore.GetLatest: stated for stores in step, which every history yields.
- seal()'s cap-headroom check, base64 lengths, P&L figures, analytics, presets, error tables, formatting and floating-point helpers: easy members or rounding.
