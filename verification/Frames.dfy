/** What each instruction of the program leaves alone. */
module Frames {
  import opened Program
  import O = AgentOverlay

  /** Balances, the vault's meter, counters and keys. */
  ghost predicate KeepsMoney(w: World, r: Result<World>) {
    r.Ok? ==>
      && r.value.balances == w.balances && r.value.tracker == w.tracker
      && r.value.vault == w.vault.(agents := r.value.vault.agents, status := r.value.vault.status)
  }

  ghost predicate KeepsAgents(w: World, r: Result<World>) {
    r.Ok? ==> r.value.vault.agents == w.vault.agents && r.value.overlay == w.overlay
  }

  /** Everything a version stands for, but the agents; the flag of a pending policy aside. */
  ghost predicate KeepsPolicy(w: World, r: Result<World>) {
    r.Ok? ==>
      && r.value.policy == w.policy.(hasPendingPolicy := r.value.policy.hasPendingPolicy)
      && r.value.constraints == w.constraints
  }

  ghost predicate KeepsPending(w: World, r: Result<World>) {
    r.Ok? ==> r.value.pending == w.pending && r.value.policy.hasPendingPolicy == w.policy.hasPendingPolicy
  }

  ghost predicate KeepsPerms(w: World, r: Result<World>) {
    r.Ok? ==> r.value.pending.perms == w.pending.perms
  }

  ghost predicate OnlyQueues(w: World, r: Result<World>) {
    KeepsMoney(w, r) && KeepsAgents(w, r) && KeepsPolicy(w, r)
  }

  lemma QueueFrames(w: World, ev: Event)
    ensures ev.op.QueuePolicy? ==>
              var r := QueuePolicyStep(w, ev.op.update, ev.clock); OnlyQueues(w, r) && KeepsPerms(w, r)
    ensures ev.op.QueuePerms? ==>
              OnlyQueues(w, QueuePermsStep(w, ev.op.agent, ev.op.capability, ev.op.limit, ev.clock))
    ensures ev.op.QueueConstraints? ==>
              var r := QueueConstraintsStep(w, ev.op.content, ev.clock); OnlyQueues(w, r) && KeepsPerms(w, r)
    ensures ev.op.QueueClose? ==>
              var r := QueueCloseStep(w, ev.clock); OnlyQueues(w, r) && KeepsPerms(w, r)
  {
    hide ScheduleFrom, LegalUpdate, FindAgent;
  }

  lemma CancelFrames(w: World, ev: Event)
    ensures ev.op.CancelPolicy? ==> var r := CancelPolicyStep(w); OnlyQueues(w, r) && KeepsPerms(w, r)
    ensures ev.op.CancelPerms? ==> OnlyQueues(w, CancelPermsStep(w, ev.op.agent))
    ensures ev.op.CancelConstraints? ==> var r := CancelConstraintsStep(w); OnlyQueues(w, r) && KeepsPerms(w, r)
    ensures ev.op.CancelClose? ==> var r := CancelCloseStep(w); OnlyQueues(w, r) && KeepsPerms(w, r)
  {
  }

  lemma ApplyFrames(w: World, ev: Event)
    ensures ev.op.ApplyPolicy? ==>
              var r := ApplyPolicyStep(w, ev.clock); KeepsMoney(w, r) && KeepsAgents(w, r) && KeepsPerms(w, r)
    ensures ev.op.ApplyPerms? ==> KeepsMoney(w, ApplyPermsStep(w, ev.op.agent, ev.clock))
    ensures ev.op.ApplyConstraints? ==>
              var r := ApplyConstraintsStep(w, ev.clock); KeepsMoney(w, r) && KeepsAgents(w, r) && KeepsPerms(w, r)
    ensures ev.op.ApplyClose? ==>
              var r := ApplyCloseStep(w, ev.op.withPending, ev.clock); KeepsMoney(w, r) && KeepsAgents(w, r) && KeepsPerms(w, r)
  {
    hide Due, Bumped, Overlaid, FindAgent, UpdateAgent, RearrangeSlots;
  }

  lemma MemberFrames(w: World, ev: Event)
    ensures ev.op.Register? ==>
              var r := RegisterStep(w, ev.op.agent, ev.op.capability, ev.op.limit); KeepsMoney(w, r) && KeepsPolicy(w, r) && KeepsPending(w, r)
    ensures ev.op.Revoke? ==>
              var r := RevokeStep(w, ev.op.agent); KeepsMoney(w, r) && KeepsPolicy(w, r) && KeepsPending(w, r)
    ensures ev.op.Pause? ==>
              var r := PauseStep(w, ev.op.agent, ev.op.paused); KeepsMoney(w, r) && KeepsPolicy(w, r) && KeepsPending(w, r)
    ensures ev.op.Reactivate? ==>
              var r := ReactivateStep(w, ev.op.newAgent); KeepsMoney(w, r) && KeepsPolicy(w, r) && KeepsPending(w, r)
  {
    hide FindAgent, UpdateAgent, RemoveAgent, O.FindSlot;
  }

  lemma OwnerFrames(w: World, ev: Event)
    ensures ev.op.Freeze? ==> var r := FreezeStep(w); OnlyQueues(w, r) && KeepsPending(w, r)
    ensures ev.op.CreateConstraints? ==>
              var r := CreateConstraintsStep(w, ev.op.content); KeepsMoney(w, r) && KeepsAgents(w, r) && KeepsPending(w, r)
    ensures ev.op.PostAssertions? ==>
              var r := PostAssertionsStep(w, ev.op.exist); KeepsMoney(w, r) && KeepsAgents(w, r) && KeepsPending(w, r)
  {
  }

  predicate ChangesAgents(op: Op) {
    op.ApplyPerms? || op.Register? || op.Revoke? || op.Pause? || op.Reactivate?
  }

  predicate ChangesPending(op: Op) {
    || op.QueuePolicy? || op.ApplyPolicy? || op.CancelPolicy? || op.QueuePerms? || op.ApplyPerms? || op.CancelPerms?
    || op.QueueConstraints? || op.ApplyConstraints? || op.CancelConstraints? || op.QueueClose? || op.ApplyClose? || op.CancelClose?
  }

  predicate ChangesPolicy(op: Op) {
    op.ApplyPolicy? || op.ApplyPerms? || op.ApplyConstraints? || op.ApplyClose? || op.CreateConstraints? || op.PostAssertions?
  }

  /** Every instruction but a transfer, all at once. */
  lemma NonTransferFrames(chain: Chain, w: World, ev: Event)
    requires !ev.op.AgentTransfer?
    ensures var r := Exec(chain, w, ev);
            && KeepsMoney(w, r)
            && (!ChangesAgents(ev.op) ==> KeepsAgents(w, r))
            && (!ChangesPending(ev.op) ==> KeepsPending(w, r))
            && (!ChangesPolicy(ev.op) ==> KeepsPolicy(w, r))
            && (!(ev.op.QueuePerms? || ev.op.ApplyPerms? || ev.op.CancelPerms?) ==> KeepsPerms(w, r))
  {
    hide QueuePolicyStep, ApplyPolicyStep, CancelPolicyStep, QueuePermsStep, ApplyPermsStep, CancelPermsStep;
    hide QueueConstraintsStep, ApplyConstraintsStep, CancelConstraintsStep, QueueCloseStep, ApplyCloseStep, CancelCloseStep;
    hide RegisterStep, RevokeStep, PauseStep, FreezeStep, ReactivateStep, CreateConstraintsStep, PostAssertionsStep;
    QueueFrames(w, ev);
    CancelFrames(w, ev);
    ApplyFrames(w, ev);
    MemberFrames(w, ev);
    OwnerFrames(w, ev);
  }
}
