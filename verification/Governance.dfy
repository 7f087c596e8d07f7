/** Whole runs of the program: what a policy version identifies, when a queued change may land,
    and what every stored policy satisfies. */
module Governance {
  import opened Common
  import opened SpendLog
  import opened Program
  import opened Frames
  import O = AgentOverlay

  // ---- What a policy version identifies ----

  datatype Rights = Rights(pubkey: Key, capability: nat, spendingLimitUsd: nat)

  function RightsOf(agents: seq<AgentEntry>): seq<Rights> {
    seq(|agents|, i requires 0 <= i < |agents| =>
      Rights(agents[i].pubkey, agents[i].capability, agents[i].spendingLimitUsd))
  }

  /** The same policy but for the version and the pending flag, the same constraints, and the
      same agents with the same capabilities and limits. */
  predicate SameConfiguration(a: World, b: World) {
    && a.policy.(policyVersion := 0, hasPendingPolicy := false) == b.policy.(policyVersion := 0, hasPendingPolicy := false)
    && a.constraints == b.constraints
    && RightsOf(a.vault.agents) == RightsOf(b.vault.agents)
  }

  /** The instructions that change the configuration without a new version. */
  predicate Unversioned(op: Op) {
    || op.Register? || op.Revoke? || op.CreateConstraints? || op.PostAssertions?
    || (op.Reactivate? && op.newAgent.Some?)
  }

  lemma {:induction false} UpdateKeepsOthers(agents: seq<AgentEntry>, key: Key, entry: AgentEntry)
    requires FindAgent(agents, key).Some? && entry.pubkey == key
    ensures var r := UpdateAgent(agents, key, entry);
            forall i :: 0 <= i < |agents| ==>
              r[i] == agents[i] || (agents[i] == FindAgent(agents, key).value && r[i] == entry)
    ensures FindAgent(UpdateAgent(agents, key, entry), key) == Some(entry)
    ensures forall other :: other != key ==> FindAgent(UpdateAgent(agents, key, entry), other) == FindAgent(agents, other)
  {
    if agents[0].pubkey != key {
      UpdateKeepsOthers(agents[1..], key, entry);
      var r := UpdateAgent(agents, key, entry);
      assert r[1..] == UpdateAgent(agents[1..], key, entry);
      forall i | 0 <= i < |agents|
        ensures r[i] == agents[i] || (agents[i] == FindAgent(agents, key).value && r[i] == entry)
      {
        assert i > 0 ==> agents[i] == agents[1..][i - 1];
      }
    } else {
      assert UpdateAgent(agents, key, entry)[1..] == agents[1..];
    }
  }

  lemma {:induction false} RemoveShrinks(agents: seq<AgentEntry>, key: Key)
    requires FindAgent(agents, key).Some?
    ensures |RemoveAgent(agents, key)| < |agents|
  {
    if agents[0].pubkey != key {
      RemoveShrinks(agents[1..], key);
    }
  }

  lemma PauseKeepsRights(agents: seq<AgentEntry>, key: Key, paused: bool)
    requires FindAgent(agents, key).Some?
    ensures RightsOf(UpdateAgent(agents, key, FindAgent(agents, key).value.(paused := paused))) == RightsOf(agents)
  {
    UpdateKeepsOthers(agents, key, FindAgent(agents, key).value.(paused := paused));
  }

  ghost predicate VersionStands(w: World, w': World) {
    w'.policy.policyVersion == w.policy.policyVersion ==> SameConfiguration(w, w')
  }

  lemma MembershipVersion(w: World, ev: Event)
    ensures ev.op.Register? ==>
              var r := RegisterStep(w, ev.op.agent, ev.op.capability, ev.op.limit);
              r.Ok? ==> w.policy == r.value.policy && !VersionStands(w, r.value)
    ensures ev.op.Revoke? ==>
              var r := RevokeStep(w, ev.op.agent);
              r.Ok? ==> w.policy == r.value.policy && !VersionStands(w, r.value)
    ensures ev.op.Reactivate? ==>
              var r := ReactivateStep(w, ev.op.newAgent);
              r.Ok? ==> w.policy == r.value.policy && (VersionStands(w, r.value) <==> ev.op.newAgent.None?)
    ensures ev.op.Pause? ==>
              var r := PauseStep(w, ev.op.agent, ev.op.paused);
              r.Ok? ==> w.policy == r.value.policy && VersionStands(w, r.value)
  {
    var agents := w.vault.agents;
    assert |RightsOf(agents)| == |agents|;
    if ev.op.Register? {
      var r := RegisterStep(w, ev.op.agent, ev.op.capability, ev.op.limit);
      assert r.Ok? ==> |RightsOf(r.value.vault.agents)| == |agents| + 1;
    } else if ev.op.Revoke? && FindAgent(agents, ev.op.agent).Some? {
      RemoveShrinks(agents, ev.op.agent);
      assert |RightsOf(RemoveAgent(agents, ev.op.agent))| < |agents|;
    } else if ev.op.Reactivate? {
      var r := ReactivateStep(w, ev.op.newAgent);
      assert r.Ok? && ev.op.newAgent.Some? ==> |RightsOf(r.value.vault.agents)| == |agents| + 1;
    } else if ev.op.Pause? && FindAgent(agents, ev.op.agent).Some? {
      PauseKeepsRights(agents, ev.op.agent, ev.op.paused);
    }
  }

  lemma AppliedVersion(w: World, ev: Event)
    ensures ev.op.ApplyPolicy? ==>
              var r := ApplyPolicyStep(w, ev.clock); r.Ok? ==> r.value.policy.policyVersion == w.policy.policyVersion + 1
    ensures ev.op.ApplyPerms? ==>
              var r := ApplyPermsStep(w, ev.op.agent, ev.clock);
              r.Ok? ==> r.value.policy.policyVersion == w.policy.policyVersion + 1
    ensures ev.op.ApplyConstraints? ==>
              var r := ApplyConstraintsStep(w, ev.clock); r.Ok? ==> r.value.policy.policyVersion == w.policy.policyVersion + 1
    ensures ev.op.ApplyClose? ==>
              var r := ApplyCloseStep(w, ev.op.withPending, ev.clock);
              r.Ok? ==> r.value.policy.policyVersion == w.policy.policyVersion + 1
  {
  }

  lemma TransferKeepsConfiguration(chain: Chain, w: World, a: Transfer, clock: Clock)
    requires TransferStep(chain, w, a, clock).Ok?
    ensures var w' := TransferStep(chain, w, a, clock).value;
            && w'.policy == w.policy && w'.constraints == w.constraints && w'.pending == w.pending
            && w'.vault.agents == w.vault.agents && w'.vault.key == w.vault.key
  {
  }

  /** One instruction: the version never falls, and it stands for the configuration across the
      instruction exactly when the instruction is not one of the unversioned ones. */
  lemma VersionStep(chain: Chain, w: World, ev: Event)
    requires Exec(chain, w, ev).Ok?
    ensures var w' := Exec(chain, w, ev).value;
            && w.policy.policyVersion <= w'.policy.policyVersion
            && (VersionStands(w, w') <==> !Unversioned(ev.op))
  {
    hide TransferStep, QueuePolicyStep, ApplyPolicyStep, CancelPolicyStep, QueuePermsStep, ApplyPermsStep, CancelPermsStep;
    hide QueueConstraintsStep, ApplyConstraintsStep, CancelConstraintsStep, QueueCloseStep, ApplyCloseStep, CancelCloseStep;
    hide RegisterStep, RevokeStep, PauseStep, FreezeStep, ReactivateStep;
    if ev.op.AgentTransfer? {
      TransferKeepsConfiguration(chain, w, ev.op.transfer, ev.clock);
    } else if ev.op.Register? || ev.op.Revoke? || ev.op.Reactivate? || ev.op.Pause? {
      MembershipVersion(w, ev);
    } else if ev.op.ApplyPolicy? || ev.op.ApplyPerms? || ev.op.ApplyConstraints? || ev.op.ApplyClose? {
      AppliedVersion(w, ev);
    } else {
      NonTransferFrames(chain, w, ev);
      if ev.op.CreateConstraints? || ev.op.PostAssertions? {
        assert w.constraints != Exec(chain, w, ev).value.constraints || w.policy.hasPostAssertions != Exec(chain, w, ev).value.policy.hasPostAssertions;
      }
    }
  }

  /** Over a whole run: any two states with the same version have the same configuration. */
  ghost predicate VersionsIdentify(chain: Chain, w: World, trace: seq<Event>) {
    forall i, j :: 0 <= i <= j <= |trace| ==>
      VersionStands(After(chain, w, trace[..i]), After(chain, w, trace[..j]))
  }

  ghost predicate NoUnversionedChange(chain: Chain, w: World, trace: seq<Event>) {
    forall i :: 0 <= i < |trace| ==> !(Unversioned(trace[i].op) && Succeeds(chain, w, trace, i))
  }

  lemma AfterStep(chain: Chain, w: World, trace: seq<Event>, i: nat)
    requires i < |trace|
    ensures After(chain, w, trace[..i + 1]) == Attempt(chain, After(chain, w, trace[..i]), trace[i])
  {
    assert trace[..i + 1][..i] == trace[..i];
  }

  lemma SuccessiveStates(chain: Chain, w: World, trace: seq<Event>, i: nat)
    requires i < |trace|
    ensures After(chain, w, trace[..i]).policy.policyVersion <= After(chain, w, trace[..i + 1]).policy.policyVersion
    ensures !(Unversioned(trace[i].op) && Succeeds(chain, w, trace, i)) <==>
            VersionStands(After(chain, w, trace[..i]), After(chain, w, trace[..i + 1]))
  {
    hide Exec;
    AfterStep(chain, w, trace, i);
    if Succeeds(chain, w, trace, i) {
      VersionStep(chain, After(chain, w, trace[..i]), trace[i]);
    }
  }

  lemma {:induction false} VersionStandsAcross(chain: Chain, w: World, trace: seq<Event>, i: nat, j: nat)
    requires i <= j <= |trace| && NoUnversionedChange(chain, w, trace)
    ensures After(chain, w, trace[..i]).policy.policyVersion <= After(chain, w, trace[..j]).policy.policyVersion
    ensures VersionStands(After(chain, w, trace[..i]), After(chain, w, trace[..j]))
    decreases j - i
  {
    hide Exec;
    if i < j {
      VersionStandsAcross(chain, w, trace, i, j - 1);
      SuccessiveStates(chain, w, trace, j - 1);
    }
  }

  /** A version identifies the configuration throughout a run exactly when no instruction that
      changes it without a new version succeeds in the run. */
  lemma VersionsIdentifyConfigurations(chain: Chain, w: World, trace: seq<Event>)
    ensures VersionsIdentify(chain, w, trace) <==> NoUnversionedChange(chain, w, trace)
  {
    hide Exec;
    if NoUnversionedChange(chain, w, trace) {
      forall i, j | 0 <= i <= j <= |trace|
        ensures VersionStands(After(chain, w, trace[..i]), After(chain, w, trace[..j]))
      {
        VersionStandsAcross(chain, w, trace, i, j);
      }
    } else {
      var i :| 0 <= i < |trace| && Unversioned(trace[i].op) && Succeeds(chain, w, trace, i);
      SuccessiveStates(chain, w, trace, i);
      assert 0 <= i <= i + 1 <= |trace|;
    }
  }

  /** So a transfer that passes its version check runs under the configuration the agent read
      at that version, if nothing unversioned happened in the run. */
  lemma TransferRunsUnderReadConfiguration(chain: Chain, w: World, trace: seq<Event>, read: nat, i: nat)
    requires read <= i < |trace| && NoUnversionedChange(chain, w, trace)
    requires trace[i].op.AgentTransfer? && Succeeds(chain, w, trace, i)
    requires trace[i].op.transfer.expectedPolicyVersion == After(chain, w, trace[..read]).policy.policyVersion
    ensures SameConfiguration(After(chain, w, trace[..read]), After(chain, w, trace[..i]))
  {
    VersionStandsAcross(chain, w, trace, read, i);
  }

  /** The family that breaks it: registering an agent leaves the version where it was. */
  lemma RegistrationKeepsVersion(chain: Chain, w: World, agent: Key, clock: Clock)
    requires Initial(w) && agent != DEFAULT_KEY && agent != w.vault.owner
    ensures !VersionsIdentify(chain, w, [Event(Register(agent, 2, 0), clock)])
  {
    var trace := [Event(Register(agent, 2, 0), clock)];
    assert trace[..0] == [];
    assert Succeeds(chain, w, trace, 0);
    assert Unversioned(trace[0].op);
    VersionsIdentifyConfigurations(chain, w, trace);
  }

  // ---- When a queued change may land ----

  /** The four kinds of queued change; permissions are queued per agent. */
  datatype Change = PolicyChange | PermsChange(agent: Key) | ConstraintsChange | CloseChange

  datatype Content =
    | PolicyContent(update: PolicyUpdate)
    | PermsContent(capability: nat, limit: nat)
    | ConstraintsContent(content: Constraints)
    | CloseContent

  datatype Queued = Queued(schedule: Schedule, content: Content)

  function PendingOf(w: World, ch: Change): Option<Queued> {
    match ch
    case PolicyChange =>
      if w.pending.policy.None? then None
      else Some(Queued(w.pending.policy.value.schedule, PolicyContent(w.pending.policy.value.update)))
    case PermsChange(agent) =>
      if agent !in w.pending.perms then None
      else
        var p := w.pending.perms[agent];
        Some(Queued(p.schedule, PermsContent(p.newCapability, p.spendingLimitUsd)))
    case ConstraintsChange =>
      if w.pending.constraints.None? then None
      else Some(Queued(w.pending.constraints.value.schedule, ConstraintsContent(w.pending.constraints.value.content)))
    case CloseChange =>
      if w.pending.close.None? then None else Some(Queued(w.pending.close.value, CloseContent))
  }

  predicate Queues(op: Op, ch: Change) {
    match ch
    case PolicyChange => op.QueuePolicy?
    case PermsChange(agent) => op.QueuePerms? && op.agent == agent
    case ConstraintsChange => op.QueueConstraints?
    case CloseChange => op.QueueClose?
  }

  function ContentOf(op: Op): Content {
    match op
    case QueuePolicy(u) => PolicyContent(u)
    case QueuePerms(_, capability, limit) => PermsContent(capability, limit)
    case QueueConstraints(c) => ConstraintsContent(c)
    case _ => CloseContent
  }

  predicate Applies(op: Op, ch: Change) {
    match ch
    case PolicyChange => op.ApplyPolicy?
    case PermsChange(agent) => op.ApplyPerms? && op.agent == agent
    case ConstraintsChange => op.ApplyConstraints?
    case CloseChange => op.ApplyClose?
  }

  /** Applied, cancelled, or discarded together with the constraints it would have changed. */
  predicate Clears(op: Op, ch: Change) {
    Applies(op, ch) ||
    match ch
    case PolicyChange => op.CancelPolicy?
    case PermsChange(agent) => op.CancelPerms? && op.agent == agent
    case ConstraintsChange => op.CancelConstraints? || (op.ApplyClose? && op.withPending)
    case CloseChange => op.CancelClose?
  }

  /** How one successful instruction moves the queued change of one kind. */
  ghost predicate PendingMoves(w: World, ev: Event, w': World, ch: Change) {
    if Queues(ev.op, ch) then
      && PendingOf(w, ch).None?
      && ScheduleFrom(w.policy, ev.clock).Ok?
      && PendingOf(w', ch) == Some(Queued(ScheduleFrom(w.policy, ev.clock).value, ContentOf(ev.op)))
    else if Clears(ev.op, ch) then
      && PendingOf(w', ch).None?
      && (Applies(ev.op, ch) ==> PendingOf(w, ch).Some? && Due(PendingOf(w, ch).value.schedule, ev.clock).Ok?)
    else
      PendingOf(w', ch) == PendingOf(w, ch)
  }

  lemma QueuedPolicyStep(w: World, ev: Event, ch: Change)
    requires ev.op.QueuePolicy? || ev.op.ApplyPolicy? || ev.op.CancelPolicy?
    ensures ev.op.QueuePolicy? ==>
              var r := QueuePolicyStep(w, ev.op.update, ev.clock); r.Ok? ==> PendingMoves(w, ev, r.value, ch)
    ensures ev.op.ApplyPolicy? ==>
              var r := ApplyPolicyStep(w, ev.clock); r.Ok? ==> PendingMoves(w, ev, r.value, ch)
    ensures ev.op.CancelPolicy? ==>
              var r := CancelPolicyStep(w); r.Ok? ==> PendingMoves(w, ev, r.value, ch)
  {
  }

  lemma QueuedPermsStep(w: World, ev: Event, ch: Change)
    requires ev.op.QueuePerms? || ev.op.ApplyPerms? || ev.op.CancelPerms?
    ensures ev.op.QueuePerms? ==>
              var r := QueuePermsStep(w, ev.op.agent, ev.op.capability, ev.op.limit, ev.clock);
              r.Ok? ==> PendingMoves(w, ev, r.value, ch)
    ensures ev.op.ApplyPerms? ==>
              var r := ApplyPermsStep(w, ev.op.agent, ev.clock); r.Ok? ==> PendingMoves(w, ev, r.value, ch)
    ensures ev.op.CancelPerms? ==>
              var r := CancelPermsStep(w, ev.op.agent); r.Ok? ==> PendingMoves(w, ev, r.value, ch)
  {
    hide ScheduleFrom, FindAgent, UpdateAgent, RearrangeSlots, Bumped;
  }

  lemma QueuedConstraintsStep(w: World, ev: Event, ch: Change)
    requires ev.op.QueueConstraints? || ev.op.ApplyConstraints? || ev.op.CancelConstraints?
    ensures ev.op.QueueConstraints? ==>
              var r := QueueConstraintsStep(w, ev.op.content, ev.clock); r.Ok? ==> PendingMoves(w, ev, r.value, ch)
    ensures ev.op.ApplyConstraints? ==>
              var r := ApplyConstraintsStep(w, ev.clock); r.Ok? ==> PendingMoves(w, ev, r.value, ch)
    ensures ev.op.CancelConstraints? ==>
              var r := CancelConstraintsStep(w); r.Ok? ==> PendingMoves(w, ev, r.value, ch)
  {
  }

  lemma QueuedCloseStep(w: World, ev: Event, ch: Change)
    requires ev.op.QueueClose? || ev.op.ApplyClose? || ev.op.CancelClose?
    ensures ev.op.QueueClose? ==>
              var r := QueueCloseStep(w, ev.clock); r.Ok? ==> PendingMoves(w, ev, r.value, ch)
    ensures ev.op.ApplyClose? ==>
              var r := ApplyCloseStep(w, ev.op.withPending, ev.clock); r.Ok? ==> PendingMoves(w, ev, r.value, ch)
    ensures ev.op.CancelClose? ==>
              var r := CancelCloseStep(w); r.Ok? ==> PendingMoves(w, ev, r.value, ch)
  {
  }

  lemma PendingStep(chain: Chain, w: World, ev: Event, ch: Change)
    requires Exec(chain, w, ev).Ok?
    ensures PendingMoves(w, ev, Exec(chain, w, ev).value, ch)
  {
    hide TransferStep, QueuePolicyStep, ApplyPolicyStep, CancelPolicyStep, QueuePermsStep, ApplyPermsStep, CancelPermsStep;
    hide QueueConstraintsStep, ApplyConstraintsStep, CancelConstraintsStep, QueueCloseStep, ApplyCloseStep, CancelCloseStep;
    hide RegisterStep, RevokeStep, PauseStep, FreezeStep, ReactivateStep, CreateConstraintsStep, PostAssertionsStep;
    var op := ev.op;
    if ChangesPending(op) {
      hide PendingMoves;
      if op.QueuePolicy? || op.ApplyPolicy? || op.CancelPolicy? {
        QueuedPolicyStep(w, ev, ch);
      } else if op.QueuePerms? || op.ApplyPerms? || op.CancelPerms? {
        QueuedPermsStep(w, ev, ch);
      } else if op.QueueConstraints? || op.ApplyConstraints? || op.CancelConstraints? {
        QueuedConstraintsStep(w, ev, ch);
      } else {
        QueuedCloseStep(w, ev, ch);
      }
    } else if op.AgentTransfer? {
      TransferKeepsConfiguration(chain, w, op.transfer, ev.clock);
    } else {
      NonTransferFrames(chain, w, ev);
    }
  }

  ghost predicate QueuedAt(chain: Chain, w: World, trace: seq<Event>, i: nat, n: nat, ch: Change)
    requires i < n <= |trace|
  {
    var origin := After(chain, w, trace[..i]);
    && Queues(trace[i].op, ch) && Succeeds(chain, w, trace, i)
    && ScheduleFrom(origin.policy, trace[i].clock).Ok?
    && PendingOf(After(chain, w, trace[..n]), ch) ==
         Some(Queued(ScheduleFrom(origin.policy, trace[i].clock).value, ContentOf(trace[i].op)))
    && forall k :: i < k < n && Succeeds(chain, w, trace, k) ==> !Queues(trace[k].op, ch) && !Clears(trace[k].op, ch)
  }

  /** What is pending after n instructions was queued by the last of them, or was pending
      before it and not touched by it. */
  lemma PendingPersists(chain: Chain, w: World, trace: seq<Event>, n: nat, ch: Change)
    requires 0 < n <= |trace| && PendingOf(After(chain, w, trace[..n]), ch).Some?
    ensures || QueuedAt(chain, w, trace, n - 1, n, ch)
            || (&& PendingOf(After(chain, w, trace[..n]), ch) == PendingOf(After(chain, w, trace[..n - 1]), ch)
                && (Succeeds(chain, w, trace, n - 1) ==> !Queues(trace[n - 1].op, ch) && !Clears(trace[n - 1].op, ch)))
  {
    hide Exec, Queues, Clears, Applies, ContentOf, PendingOf, ScheduleFrom, Due;
    AfterStep(chain, w, trace, n - 1);
    if Succeeds(chain, w, trace, n - 1) {
      PendingStep(chain, After(chain, w, trace[..n - 1]), trace[n - 1], ch);
    }
  }

  /** Whatever is pending was put there by one queue instruction and not touched since. */
  lemma {:induction false} PendingWasQueued(chain: Chain, w: World, trace: seq<Event>, n: nat, ch: Change)
    returns (i: nat)
    requires n <= |trace| && PendingOf(w, ch).None?
    requires PendingOf(After(chain, w, trace[..n]), ch).Some?
    ensures i < n && QueuedAt(chain, w, trace, i, n, ch)
  {
    hide Exec, Queues, Clears, Applies, ContentOf, PendingOf, ScheduleFrom, Succeeds;
    if n == 0 {
      assert false;
    } else {
      PendingPersists(chain, w, trace, n, ch);
      if QueuedAt(chain, w, trace, n - 1, n, ch) {
        return n - 1;
      }
      i := PendingWasQueued(chain, w, trace, n - 1, ch);
    }
  }

  /** What applying a queued change does: each policy field takes what the update carries for it
      and keeps its value otherwise; an agent gets its new rights, and no other agent changes;
      the constraints are the new ones, or gone. The version goes up by one each time, and
      nothing else of the configuration moves. */
  predicate TakesForce(w: World, w': World, ch: Change, content: Content) {
    match content
    case PolicyContent(u) =>
      && FieldsFollow(w.policy, w'.policy, u) && SameFlags(w.policy, w'.policy) && !w'.policy.hasPendingPolicy
      && w'.policy.policyVersion == w.policy.policyVersion + 1
      && w'.constraints == w.constraints && w'.vault == w.vault && w'.overlay == w.overlay
    case PermsContent(capability, limit) =>
      && ch.PermsChange?
      && w'.policy == w.policy.(policyVersion := w.policy.policyVersion + 1) && w'.constraints == w.constraints
      && FindAgent(w.vault.agents, ch.agent).Some?
      && FindAgent(w'.vault.agents, ch.agent) ==
           Some(AgentEntry(ch.agent, capability, limit, FindAgent(w.vault.agents, ch.agent).value.paused))
      && w'.vault == w.vault.(agents := w'.vault.agents)
    case ConstraintsContent(c) =>
      && w'.constraints == Some(c) && w'.policy == w.policy.(policyVersion := w.policy.policyVersion + 1)
      && w'.vault == w.vault && w'.overlay == w.overlay
    case CloseContent =>
      && w'.constraints.None?
      && w'.policy == w.policy.(policyVersion := w.policy.policyVersion + 1, hasConstraints := false)
      && w'.vault == w.vault && w'.overlay == w.overlay
  }

  /** Under new rights for one agent, every other agent stays as it was. */
  predicate OthersStay(w: World, w': World, ch: Change) {
    ch.PermsChange? ==> forall i :: 0 <= i < |w.vault.agents| && w.vault.agents[i].pubkey != ch.agent ==>
      |w'.vault.agents| == |w.vault.agents| && w'.vault.agents[i] == w.vault.agents[i]
  }

  lemma AppliedPolicyTakesForce(w: World, clock: Clock)
    requires w.pending.policy.Some? && ApplyPolicyStep(w, clock).Ok?
    ensures TakesForce(w, ApplyPolicyStep(w, clock).value, PolicyChange, PendingOf(w, PolicyChange).value.content)
  {
    hide Due;
  }

  lemma AppliedPermsTakeForce(w: World, agent: Key, clock: Clock)
    requires agent in w.pending.perms && ApplyPermsStep(w, agent, clock).Ok?
    ensures var w' := ApplyPermsStep(w, agent, clock).value;
            TakesForce(w, w', PermsChange(agent), PendingOf(w, PermsChange(agent)).value.content) && OthersStay(w, w', PermsChange(agent))
  {
    hide Due, RearrangeSlots;
    var pending, entry := w.pending.perms[agent], FindAgent(w.vault.agents, agent).value;
    UpdateKeepsOthers(w.vault.agents, agent,
      entry.(capability := pending.newCapability, spendingLimitUsd := pending.spendingLimitUsd));
    hide FindAgent, UpdateAgent;
  }

  lemma AppliedConstraintsTakeForce(w: World, ev: Event)
    ensures ev.op.ApplyConstraints? && w.pending.constraints.Some? ==>
              var r := ApplyConstraintsStep(w, ev.clock);
              r.Ok? ==> TakesForce(w, r.value, ConstraintsChange, PendingOf(w, ConstraintsChange).value.content)
    ensures ev.op.ApplyClose? && w.pending.close.Some? ==>
              var r := ApplyCloseStep(w, ev.op.withPending, ev.clock);
              r.Ok? ==> TakesForce(w, r.value, CloseChange, PendingOf(w, CloseChange).value.content)
  {
    hide Due;
  }

  lemma ChangeTakesForce(chain: Chain, w: World, ev: Event, ch: Change)
    requires Applies(ev.op, ch) && PendingOf(w, ch).Some? && Exec(chain, w, ev).Ok?
    ensures TakesForce(w, Exec(chain, w, ev).value, ch, PendingOf(w, ch).value.content)
    ensures OthersStay(w, Exec(chain, w, ev).value, ch)
  {
    hide ApplyPolicyStep, ApplyPermsStep, ApplyConstraintsStep, ApplyCloseStep, TakesForce;
    match ch
    case PolicyChange => AppliedPolicyTakesForce(w, ev.clock);
    case PermsChange(agent) => AppliedPermsTakeForce(w, agent, ev.clock);
    case _ => AppliedConstraintsTakeForce(w, ev);
  }

  /** Every change that lands was queued, with exactly the content that takes force, by one earlier
      instruction; its timelock, as in force when it was queued, has run; fewer than
      MAX_APPLY_AGE_SLOTS slots have passed; and nothing of its kind was queued, applied or
      cancelled in between. */
  lemma ChangeLandsAsQueued(chain: Chain, w: World, trace: seq<Event>, j: nat, ch: Change) returns (i: nat)
    requires j < |trace| && Clocked(trace) && PendingOf(w, ch).None?
    requires Applies(trace[j].op, ch) && Succeeds(chain, w, trace, j)
    ensures i < j && Queues(trace[i].op, ch) && Succeeds(chain, w, trace, i)
    ensures TakesForce(After(chain, w, trace[..j]), After(chain, w, trace[..j + 1]), ch, ContentOf(trace[i].op))
    ensures OthersStay(After(chain, w, trace[..j]), After(chain, w, trace[..j + 1]), ch)
    ensures trace[j].clock.unixTimestamp >=
            trace[i].clock.unixTimestamp + AsI64(After(chain, w, trace[..i]).policy.timelockDuration)
    ensures trace[i].clock.slot <= trace[j].clock.slot < trace[i].clock.slot + MAX_APPLY_AGE_SLOTS
    ensures forall k :: i < k < j && Succeeds(chain, w, trace, k) ==> !Queues(trace[k].op, ch) && !Clears(trace[k].op, ch)
  {
    hide Exec;
    PendingStep(chain, After(chain, w, trace[..j]), trace[j], ch);
    ChangeTakesForce(chain, After(chain, w, trace[..j]), trace[j], ch);
    AfterStep(chain, w, trace, j);
    i := PendingWasQueued(chain, w, trace, j, ch);
  }

  /** At most once: between two applications of a kind of change it was queued anew. */
  lemma NoChangeLandsTwice(chain: Chain, w: World, trace: seq<Event>, j: nat, k: nat, ch: Change) returns (i: nat)
    requires j < k < |trace| && Clocked(trace) && PendingOf(w, ch).None?
    requires Applies(trace[j].op, ch) && Succeeds(chain, w, trace, j)
    requires Applies(trace[k].op, ch) && Succeeds(chain, w, trace, k)
    ensures j < i < k && Queues(trace[i].op, ch) && Succeeds(chain, w, trace, i)
  {
    hide Exec;
    i := ChangeLandsAsQueued(chain, w, trace, k, ch);
  }

  /** How long a queued change waits: at least the minimum timelock exactly when the stored
      duration fits a signed 64-bit integer. */
  lemma MinimumDelay(p: Policy, clock: Clock)
    requires LegalPolicy(p) && p.timelockDuration <= U64_MAX && ScheduleFrom(p, clock).Ok?
    ensures ScheduleFrom(p, clock).value.executesAt >= clock.unixTimestamp + MIN_TIMELOCK_DURATION <==>
            p.timelockDuration <= I64_MAX
  {
  }

  /** A legal policy whose duration does not fit lets a change land in the second it is queued. */
  lemma WrappedTimelockIsNoDelay(chain: Chain, w: World, u: PolicyUpdate, clock: Clock)
    requires Initial(w) && w.policy.timelockDuration == U64_MAX
    requires LegalUpdate(w.policy, u) && 0 < clock.unixTimestamp <= I64_MAX
    ensures var trace := [Event(QueuePolicy(u), clock), Event(ApplyPolicy, clock)];
            Succeeds(chain, w, trace, 0) && Succeeds(chain, w, trace, 1)
  {
    var trace := [Event(QueuePolicy(u), clock), Event(ApplyPolicy, clock)];
    var queued := QueuePolicyStep(w, u, clock);
    assert queued.Ok? && ApplyPolicyStep(queued.value, clock).Ok?;
    assert trace[..0] == [];
    AfterStep(chain, w, trace, 0);
  }

  // ---- What every stored policy satisfies ----

  /** Legal policy, a pending update that is still legal for it, and flags that agree with the
      accounts they describe. */
  ghost predicate LawfulPolicy(w: World) {
    && LegalPolicy(w.policy)
    && (w.pending.policy.Some? ==> LegalUpdate(w.policy, w.pending.policy.value.update))
    && w.policy.hasPendingPolicy == w.pending.policy.Some?
    && w.policy.hasConstraints == w.constraints.Some?
    && (w.constraints.Some? ==> w.constraints.value.vault == w.vault.key)
    && (w.pending.constraints.Some? ==> w.pending.constraints.value.content.vault == w.vault.key)
  }

  ghost predicate LawfulAgents(agents: seq<AgentEntry>, perms: map<Key, PendingPerms>) {
    && (forall i :: 0 <= i < |agents| ==> agents[i].capability <= CAPABILITY_OPERATOR)
    && (forall k :: k in perms ==> perms[k].newCapability <= CAPABILITY_OPERATOR)
  }

  ghost predicate Lawful(w: World) {
    LawfulPolicy(w) && LawfulAgents(w.vault.agents, w.pending.perms)
  }

  ghost predicate KeepsLawfulPolicy(w: World, r: Result<World>) {
    r.Ok? && LawfulPolicy(w) ==> LawfulPolicy(r.value)
  }

  lemma QueuedPolicyIsLawful(w: World, u: PolicyUpdate, clock: Clock)
    ensures KeepsLawfulPolicy(w, QueuePolicyStep(w, u, clock))
  {
    hide ScheduleFrom;
  }

  lemma OverlaidIsLegal(p: Policy, u: PolicyUpdate, version: nat)
    requires LegalPolicy(p) && LegalUpdate(p, u)
    ensures LegalPolicy(Overlaid(p, u).(hasPendingPolicy := false, policyVersion := version))
  {
  }

  lemma AppliedPolicyIsLawful(w: World, clock: Clock)
    ensures KeepsLawfulPolicy(w, ApplyPolicyStep(w, clock))
  {
    hide Due, LegalPolicy, LegalUpdate;
    if w.pending.policy.Some? && LawfulPolicy(w) {
      OverlaidIsLegal(w.policy, w.pending.policy.value.update, w.policy.policyVersion + 1);
    }
  }

  /** Rules that do not read the flags or the version. */
  lemma FlagsAreNoRules(p: Policy, u: PolicyUpdate, hasConstraints: bool, hasPending: bool, hasPost: bool, version: nat)
    ensures var q := p.(hasConstraints := hasConstraints, hasPendingPolicy := hasPending, hasPostAssertions := hasPost, policyVersion := version);
            (LegalPolicy(q) <==> LegalPolicy(p)) && (LegalUpdate(q, u) <==> LegalUpdate(p, u))
  {
  }

  ghost predicate OnlyFlags(p: Policy, q: Policy) {
    q == p.(hasConstraints := q.hasConstraints, hasPendingPolicy := q.hasPendingPolicy, hasPostAssertions := q.hasPostAssertions,
            policyVersion := q.policyVersion)
  }

  /** A state whose policy differs in flags and version only, and whose flags are right. */
  lemma FlagChangeIsLawful(w: World, w': World)
    requires LawfulPolicy(w) && OnlyFlags(w.policy, w'.policy)
    requires w'.pending.policy == w.pending.policy || w'.pending.policy.None?
    requires w'.policy.hasPendingPolicy == w'.pending.policy.Some? && w'.policy.hasConstraints == w'.constraints.Some?
    requires w'.constraints.Some? ==> w'.constraints.value.vault == w'.vault.key
    requires w'.pending.constraints.Some? ==> w'.pending.constraints.value.content.vault == w'.vault.key
    ensures LawfulPolicy(w')
  {
    var q := w'.policy;
    if w'.pending.policy.Some? {
      FlagsAreNoRules(w.policy, w.pending.policy.value.update, q.hasConstraints, q.hasPendingPolicy, q.hasPostAssertions, q.policyVersion);
    } else {
      FlagsAreNoRules(w.policy, PolicyUpdate(None, None, None, None, None, None, None, None, None, None, None, None),
        q.hasConstraints, q.hasPendingPolicy, q.hasPostAssertions, q.policyVersion);
    }
    hide LegalPolicy, LegalUpdate;
  }

  /** What such an instruction must get right. */
  ghost predicate FlagsFollow(w: World, r: Result<World>) {
    r.Ok? && LawfulPolicy(w) ==>
      var w' := r.value;
      && OnlyFlags(w.policy, w'.policy)
      && (w'.pending.policy == w.pending.policy || w'.pending.policy.None?)
      && w'.policy.hasPendingPolicy == w'.pending.policy.Some? && w'.policy.hasConstraints == w'.constraints.Some?
      && (w'.constraints.Some? ==> w'.constraints.value.vault == w'.vault.key)
      && (w'.pending.constraints.Some? ==> w'.pending.constraints.value.content.vault == w'.vault.key)
  }

  lemma ConstraintFlags(w: World, ev: Event)
    ensures ev.op.QueueConstraints? ==> FlagsFollow(w, QueueConstraintsStep(w, ev.op.content, ev.clock))
    ensures ev.op.ApplyConstraints? ==> FlagsFollow(w, ApplyConstraintsStep(w, ev.clock))
    ensures ev.op.CancelConstraints? ==> FlagsFollow(w, CancelConstraintsStep(w))
    ensures ev.op.QueueClose? ==> FlagsFollow(w, QueueCloseStep(w, ev.clock))
    ensures ev.op.ApplyClose? ==> FlagsFollow(w, ApplyCloseStep(w, ev.op.withPending, ev.clock))
  {
    hide LegalPolicy, LegalUpdate, ScheduleFrom, Due;
  }

  lemma OwnerFlags(w: World, ev: Event)
    ensures ev.op.CancelClose? ==> FlagsFollow(w, CancelCloseStep(w))
    ensures ev.op.CreateConstraints? ==> FlagsFollow(w, CreateConstraintsStep(w, ev.op.content))
    ensures ev.op.PostAssertions? ==> FlagsFollow(w, PostAssertionsStep(w, ev.op.exist))
    ensures ev.op.CancelPolicy? ==> FlagsFollow(w, CancelPolicyStep(w))
    ensures ev.op.QueuePerms? ==> FlagsFollow(w, QueuePermsStep(w, ev.op.agent, ev.op.capability, ev.op.limit, ev.clock))
    ensures ev.op.ApplyPerms? ==> FlagsFollow(w, ApplyPermsStep(w, ev.op.agent, ev.clock))
    ensures ev.op.CancelPerms? ==> FlagsFollow(w, CancelPermsStep(w, ev.op.agent))
  {
    hide LegalPolicy, LegalUpdate, ScheduleFrom, Due, FindAgent, UpdateAgent, RearrangeSlots;
  }

  lemma LawfulPolicyStep(chain: Chain, w: World, ev: Event)
    requires LawfulPolicy(w) && Exec(chain, w, ev).Ok?
    ensures LawfulPolicy(Exec(chain, w, ev).value)
  {
    hide TransferStep, QueuePolicyStep, ApplyPolicyStep, CancelPolicyStep, QueuePermsStep, ApplyPermsStep;
    hide CancelPermsStep, QueueConstraintsStep, ApplyConstraintsStep, CancelConstraintsStep, QueueCloseStep;
    hide ApplyCloseStep, CancelCloseStep, RegisterStep, RevokeStep, PauseStep, FreezeStep, ReactivateStep;
    hide CreateConstraintsStep, PostAssertionsStep, LegalPolicy, LegalUpdate;
    if ev.op.AgentTransfer? {
      TransferKeepsConfiguration(chain, w, ev.op.transfer, ev.clock);
    } else if ev.op.QueuePolicy? {
      QueuedPolicyIsLawful(w, ev.op.update, ev.clock);
    } else if ev.op.ApplyPolicy? {
      AppliedPolicyIsLawful(w, ev.clock);
    } else {
      NonTransferFrames(chain, w, ev);
      ConstraintFlags(w, ev);
      OwnerFlags(w, ev);
      FlagChangeIsLawful(w, Exec(chain, w, ev).value);
    }
  }

  ghost predicate KeepsLawfulAgents(w: World, r: Result<World>) {
    r.Ok? && LawfulAgents(w.vault.agents, w.pending.perms) ==> LawfulAgents(r.value.vault.agents, r.value.pending.perms)
  }

  lemma UpdatedAgentIsLawful(w: World, agent: Key, entry: AgentEntry)
    requires LawfulAgents(w.vault.agents, w.pending.perms) && FindAgent(w.vault.agents, agent).Some?
    requires entry.pubkey == agent && entry.capability <= CAPABILITY_OPERATOR
    ensures LawfulAgents(UpdateAgent(w.vault.agents, agent, entry), w.pending.perms)
    ensures LawfulAgents(UpdateAgent(w.vault.agents, agent, entry), w.pending.perms - {agent})
  {
    UpdateKeepsOthers(w.vault.agents, agent, entry);
    hide FindAgent, UpdateAgent;
  }

  lemma AppliedPermsAreLawful(w: World, agent: Key, clock: Clock)
    ensures KeepsLawfulAgents(w, ApplyPermsStep(w, agent, clock))
  {
    hide Due, RearrangeSlots, UpdateAgent;
    var entry := FindAgent(w.vault.agents, agent);
    if agent in w.pending.perms && entry.Some? && LawfulAgents(w.vault.agents, w.pending.perms) {
      var pending := w.pending.perms[agent];
      UpdatedAgentIsLawful(w, agent, entry.value.(capability := pending.newCapability, spendingLimitUsd := pending.spendingLimitUsd));
    }
    hide FindAgent, LawfulAgents;
  }

  lemma PausedAgentIsLawful(w: World, agent: Key, paused: bool)
    ensures KeepsLawfulAgents(w, PauseStep(w, agent, paused))
  {
    hide UpdateAgent;
    var entry := FindAgent(w.vault.agents, agent);
    if entry.Some? && LawfulAgents(w.vault.agents, w.pending.perms) {
      UpdatedAgentIsLawful(w, agent, entry.value.(paused := paused));
    }
  }

  lemma RevokedAgentIsLawful(w: World, agent: Key)
    ensures KeepsLawfulAgents(w, RevokeStep(w, agent))
  {
    hide O.FindSlot;
    var rest := RemoveAgent(w.vault.agents, agent);
    assert forall i :: 0 <= i < |rest| ==> rest[i] in w.vault.agents;
    hide RemoveAgent, FindAgent;
  }

  lemma NewAgentIsLawful(w: World, ev: Event)
    ensures ev.op.Register? ==> KeepsLawfulAgents(w, RegisterStep(w, ev.op.agent, ev.op.capability, ev.op.limit))
    ensures ev.op.Reactivate? ==> KeepsLawfulAgents(w, ReactivateStep(w, ev.op.newAgent))
  {
    hide O.FindSlot, FindAgent;
  }

  lemma QueuedPermsAreLawful(w: World, ev: Event)
    ensures ev.op.QueuePerms? ==> KeepsLawfulAgents(w, QueuePermsStep(w, ev.op.agent, ev.op.capability, ev.op.limit, ev.clock))
    ensures ev.op.CancelPerms? ==> KeepsLawfulAgents(w, CancelPermsStep(w, ev.op.agent))
  {
    hide ScheduleFrom, FindAgent;
  }

  lemma LawfulAgentsStep(chain: Chain, w: World, ev: Event)
    requires LawfulAgents(w.vault.agents, w.pending.perms) && Exec(chain, w, ev).Ok?
    ensures var w' := Exec(chain, w, ev).value; LawfulAgents(w'.vault.agents, w'.pending.perms)
  {
    hide TransferStep, QueuePolicyStep, ApplyPolicyStep, CancelPolicyStep, QueuePermsStep, ApplyPermsStep;
    hide CancelPermsStep, QueueConstraintsStep, ApplyConstraintsStep, CancelConstraintsStep, QueueCloseStep;
    hide ApplyCloseStep, CancelCloseStep, RegisterStep, RevokeStep, PauseStep, FreezeStep, ReactivateStep;
    hide CreateConstraintsStep, PostAssertionsStep, LawfulAgents;
    match ev.op
    case AgentTransfer(a) => TransferKeepsConfiguration(chain, w, a, ev.clock);
    case ApplyPerms(agent) => AppliedPermsAreLawful(w, agent, ev.clock);
    case Pause(agent, paused) => PausedAgentIsLawful(w, agent, paused);
    case Revoke(agent) => RevokedAgentIsLawful(w, agent);
    case _ =>
      NewAgentIsLawful(w, ev);
      QueuedPermsAreLawful(w, ev);
      NonTransferFrames(chain, w, ev);
  }

  /** In every reachable state: the timelock is at least the minimum, the destination mode is
      known, every rate and list is within bounds, per-protocol caps match their protocols, and
      a pending update checked when queued is still legal when applied. */
  lemma {:induction false} ReachableIsLawful(chain: Chain, w: World, trace: seq<Event>)
    requires Initial(w)
    ensures Lawful(After(chain, w, trace))
  {
    hide Exec;
    if trace != [] {
      var before := After(chain, w, trace[..|trace| - 1]);
      ReachableIsLawful(chain, w, trace[..|trace| - 1]);
      if Exec(chain, before, trace[|trace| - 1]).Ok? {
        LawfulPolicyStep(chain, before, trace[|trace| - 1]);
        LawfulAgentsStep(chain, before, trace[|trace| - 1]);
      }
    }
  }

  /** Every change that lands in a run from a new vault was queued at least the minimum timelock
      before, if the duration then in force fits a signed 64-bit integer. */
  lemma ChangesWaitTheMinimum(chain: Chain, w: World, trace: seq<Event>, j: nat, ch: Change) returns (i: nat)
    requires Initial(w) && j < |trace| && Clocked(trace)
    requires Applies(trace[j].op, ch) && Succeeds(chain, w, trace, j)
    ensures i < j && Queues(trace[i].op, ch) && Succeeds(chain, w, trace, i)
    ensures TakesForce(After(chain, w, trace[..j]), After(chain, w, trace[..j + 1]), ch, ContentOf(trace[i].op))
    ensures OthersStay(After(chain, w, trace[..j]), After(chain, w, trace[..j + 1]), ch)
    ensures After(chain, w, trace[..i]).policy.timelockDuration <= I64_MAX ==>
              trace[j].clock.unixTimestamp >= trace[i].clock.unixTimestamp + MIN_TIMELOCK_DURATION
  {
    hide Exec;
    i := ChangeLandsAsQueued(chain, w, trace, j, ch);
    ReachableIsLawful(chain, w, trace[..i]);
  }
}
