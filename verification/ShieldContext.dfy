/** The context object: evaluation and recording as loops over the inspected transfers, proved
    against the shield machine. */
module ShieldContext {
  import opened Common
  import opened ShieldLog
  import opened Shield
  import opened ShieldRules
  import B = Sandwich

  lemma OutgoingStep(transfers: seq<TokenTransfer>, signer: Key, i: nat)
    requires i < |transfers|
    ensures var before := Outgoing(transfers[..i], signer);
            Outgoing(transfers[..i + 1], signer) == if transfers[i].authority == signer then before + [transfers[i]] else before
  {
    assert transfers[..i + 1][..i] == transfers[..i];
    assert Outgoing(transfers[..i], signer) + [] == Outgoing(transfers[..i], signer);
  }

  lemma SumsStep(out: seq<TokenTransfer>, t: TokenTransfer, mint: Key, stable: set<Key>)
    ensures TxSpend(out + [t], mint) == TxSpend(out, mint) + if t.mint == Some(mint) || t.mint == None then t.amount else 0
    ensures StablecoinUsd(out + [t], stable) ==
            StablecoinUsd(out, stable) + if t.mint.Some? && t.mint.value in stable then t.amount else 0
  {
    assert (out + [t])[..|out|] == out;
  }

  class ShieldedContext {
    const cfg: Config
    const state: ShieldState
    var paused: bool

    constructor (cfg: Config)
      ensures this.cfg == cfg && !paused && fresh(state) && state.Value() == EMPTY
    {
      this.cfg := cfg;
      state := new ShieldState();
      paused := false;
    }

    static method SpendOfTransaction(transfers: seq<TokenTransfer>, signer: Key, mint: Key) returns (sum: nat)
      ensures sum == TxSpend(Outgoing(transfers, signer), mint)
    {
      sum := 0;
      for i := 0 to |transfers|
        invariant sum == TxSpend(Outgoing(transfers[..i], signer), mint)
      {
        var t := transfers[i];
        OutgoingStep(transfers, signer, i);
        SumsStep(Outgoing(transfers[..i], signer), t, mint, {});
        if t.authority == signer && (t.mint == Some(mint) || t.mint == None) {
          sum := sum + t.amount;
        }
      }
      assert transfers[..|transfers|] == transfers;
    }

    static method ComputeStablecoinUsd(transfers: seq<TokenTransfer>, signer: Key, stable: set<Key>) returns (sum: nat)
      ensures sum == StablecoinUsd(Outgoing(transfers, signer), stable)
    {
      sum := 0;
      for i := 0 to |transfers|
        invariant sum == StablecoinUsd(Outgoing(transfers[..i], signer), stable)
      {
        var t := transfers[i];
        OutgoingStep(transfers, signer, i);
        SumsStep(Outgoing(transfers[..i], signer), t, 0, stable);
        if t.authority == signer && t.mint.Some? && t.mint.value in stable {
          sum := sum + t.amount;
        }
      }
      assert transfers[..|transfers|] == transfers;
    }

    /** The program allowlist. */
    method EvaluatePrograms(programs: seq<Key>) returns (allowed: bool)
      ensures allowed == ProgramsAllowed(cfg, programs)
    {
      allowed := true;
      if cfg.allowedPrograms.Some? {
        for i := 0 to |programs|
          invariant allowed == ProgramsAllowed(cfg, programs[..i])
        {
          assert forall j :: 0 <= j < i ==> programs[..i + 1][j] == programs[..i][j];
          assert programs[..i + 1][i] == programs[i];
          if programs[i] !in cfg.systemPrograms && programs[i] !in cfg.allowedPrograms.value {
            allowed := false;
          }
        }
        assert programs[..|programs|] == programs;
      }
    }

    /** evaluateInstructions, rule by rule: programs, every limit, the rate, and the size and the two
        caps of a synced state. The verdict of the caller's own check comes in as `custom`. */
    method Evaluate(programs: seq<Key>, transfers: seq<TokenTransfer>, signer: Key, looks: seq<int>, custom: bool) returns (allowed: bool)
      requires |looks| == |cfg.spendLimits| + 1
      ensures allowed == (ProgramsAllowed(cfg, programs) && custom && Approves(cfg, state.Value(), Outgoing(transfers, signer), looks))
      ensures allowed <==>
              && custom && ProgramsKnown(cfg, programs)
              && RulesHold(cfg, state.Value(), AmountsBy(transfers, signer), UsdBy(transfers, signer), looks)
    {
      hide RulesHold, ProgramsKnown, ProgramsAllowed, Approves, Outgoing, AmountsBy, UsdBy;
      ProgramsExactly(cfg, programs);
      VerdictExactly(cfg, state.Value(), transfers, signer, looks);
      allowed := RunRules(programs, transfers, signer, looks, custom);
    }

    /** The loops and comparisons. */
    method RunRules(programs: seq<Key>, transfers: seq<TokenTransfer>, signer: Key, looks: seq<int>, custom: bool) returns (allowed: bool)
      requires |looks| == |cfg.spendLimits| + 1
      ensures allowed == (ProgramsAllowed(cfg, programs) && custom && Approves(cfg, state.Value(), Outgoing(transfers, signer), looks))
    {
      ghost var out := Outgoing(transfers, signer);
      allowed := EvaluatePrograms(programs);
      ghost var others := allowed && custom;
      if !custom {
        allowed := false;
      }
      for i := 0 to |cfg.spendLimits|
        invariant allowed == (others && forall j :: 0 <= j < i ==> WithinLimit(state.Value(), out, cfg.spendLimits[j], looks[j]))
      {
        var limit := cfg.spendLimits[i];
        var currentSpend := state.GetSpendInWindow(limit.mint, limit.windowMs, looks[i]);
        var txSpend := SpendOfTransaction(transfers, signer, limit.mint);
        assert WithinLimit(state.Value(), out, limit, looks[i]) <==> currentSpend + txSpend <= limit.amount;
        if currentSpend + txSpend > limit.amount {
          allowed := false;
        }
      }
      if cfg.rateLimit.Some? {
        var count := |TimesSince(state.txEntries, looks[|cfg.spendLimits|] - cfg.rateLimit.value.windowMs)|;
        if count >= cfg.rateLimit.value.maxTransactions {
          allowed := false;
        }
      }
      var network := if cfg.syncNetwork.Some? then cfg.syncNetwork else state.network;
      if state.resolved.Some? && network.Some? {
        var usd := ComputeStablecoinUsd(transfers, signer, Stablecoins(cfg, network.value));
        var rs, local := state.resolved.value, state.localUsdAdditions;
        if usd > 0 {
          if usd > rs.maxTransactionUsd || rs.globalBudget.spent24h + local + usd > rs.globalBudget.cap {
            allowed := false;
          }
          if rs.agentBudget.Some? && rs.agentBudget.value.spent24h + local + usd > rs.agentBudget.value.cap {
            allowed := false;
          }
        }
      }
    }

    /** What enforce() and the signer both do once everything passed. */
    method Record(transfers: seq<TokenTransfer>, signer: Key, ticks: seq<Tick>)
      requires |ticks| == |Outgoing(transfers, signer)| + 1
      modifies state
      ensures state.Value() == RecordAll(old(state.Value()), Outgoing(transfers, signer), ticks, true)
    {
      var recorded := 0;
      for i := 0 to |transfers|
        invariant recorded == |Outgoing(transfers[..i], signer)| <= |Outgoing(transfers, signer)|
        invariant state.Value() == RecordSpends(old(state.Value()), Outgoing(transfers[..i], signer), ticks, true)
      {
        var t, before := transfers[i], Outgoing(transfers[..i], signer);
        OutgoingStep(transfers, signer, i);
        OutgoingGrows(transfers, signer, i + 1);
        if t.authority == signer {
          assert (before + [t])[..|before|] == before;
          state.RecordSpend(t.mint.GetOr(DEFAULT_KEY), t.amount, ticks[recorded].now, ticks[recorded].cut, ticks[recorded].prune);
          recorded := recorded + 1;
        }
      }
      assert transfers[..|transfers|] == transfers;
      state.RecordTransaction(ticks[recorded].now, ticks[recorded].cut, ticks[recorded].prune);
    }

    method Enforce(programs: seq<Key>, transfers: seq<TokenTransfer>, signer: Key, now: int, looks: seq<int>, ticks: seq<Tick>,
                   custom: bool) returns (allowed: bool)
      requires Timed(cfg, Outgoing(transfers, signer), looks, ticks)
      modifies state
      ensures var c, out := Context(old(state.Value()), map[], paused), Outgoing(transfers, signer);
              var ev := Shield.Enforce(out, now, looks, ticks, ProgramsAllowed(cfg, programs) && custom);
              && allowed == Recorded(cfg, c, ev).Some?
              && state.Value() == Shield.Step(cfg, c, ev, true).state
      ensures allowed <==>
              && !paused && custom && ProgramsKnown(cfg, programs)
              && RulesHold(cfg, old(state.Value()), AmountsBy(transfers, signer), UsdBy(transfers, signer), looks)
    {
      hide RulesHold, ProgramsKnown, ProgramsAllowed;
      if paused {
        return false;
      }
      allowed := Evaluate(programs, transfers, signer, looks, custom);
      if !allowed {
        return;
      }
      Record(transfers, signer, ticks);
      if state.resolved.Some? && cfg.syncNetwork.Some? {
        var usd := ComputeStablecoinUsd(transfers, signer, Stablecoins(cfg, cfg.syncNetwork.value));
        if usd > 0 {
          state.RecordUsdSpend(usd);
        }
      }
      state.MarkEnforceUsed();
    }

    /** The signer after its simulation returned: check, bind and record in one go. Without a
        session context nothing is bound, and a soft binding only warns. */
    method FinishSigning(programs: seq<Key>, transfers: seq<TokenTransfer>, signer: Key, now: int, looks: seq<int>, ticks: seq<Tick>,
                         custom: bool, simulated: bool, session: Option<B.Program>, hard: bool, msg: B.Message) returns (allowed: bool)
      requires Timed(cfg, Outgoing(transfers, signer), looks, ticks)
      modifies state
      ensures var out := Outgoing(transfers, signer);
              var c := Context(old(state.Value()), map[0 := out], paused);
              var bound := session.None? || !hard || B.SessionBound(msg, session.value);
              var ev := SignFinish(0, now, looks, ticks, simulated && ProgramsAllowed(cfg, programs) && custom && bound);
              && allowed == Recorded(cfg, c, ev).Some?
              && state.Value() == Shield.Step(cfg, c, ev, true).state
      ensures allowed <==>
              && simulated && !paused && custom && ProgramsKnown(cfg, programs)
              && RulesHold(cfg, old(state.Value()), AmountsBy(transfers, signer), UsdBy(transfers, signer), looks)
              && (session.None? || !hard || exists i, j :: B.BoundBetween(msg, session.value, i, j))
    {
      hide RulesHold, ProgramsKnown, ProgramsAllowed, Approves, AmountsBy, UsdBy, Outgoing, Shield.Step, B.SessionBound, B.BoundBetween;
      ProgramsExactly(cfg, programs);
      VerdictExactly(cfg, state.Value(), transfers, signer, looks);
      if session.Some? {
        B.BoundExactly(msg, session.value);
      }
      allowed := CheckAndRecord(programs, transfers, signer, now, looks, ticks, custom, simulated, session, hard, msg);
    }

    /** The steps of that. */
    method CheckAndRecord(programs: seq<Key>, transfers: seq<TokenTransfer>, signer: Key, now: int, looks: seq<int>, ticks: seq<Tick>,
                         custom: bool, simulated: bool, session: Option<B.Program>, hard: bool, msg: B.Message) returns (allowed: bool)
      requires Timed(cfg, Outgoing(transfers, signer), looks, ticks)
      modifies state
      ensures var out := Outgoing(transfers, signer);
              var c := Context(old(state.Value()), map[0 := out], paused);
              var bound := session.None? || !hard || B.SessionBound(msg, session.value);
              var ev := SignFinish(0, now, looks, ticks, simulated && ProgramsAllowed(cfg, programs) && custom && bound);
              && allowed == Recorded(cfg, c, ev).Some?
              && state.Value() == Shield.Step(cfg, c, ev, true).state
    {
      hide B.SessionBound, ProgramsAllowed, Approves, Outgoing, StablecoinUsd, Stablecoins, RecordSpends;
      if !simulated {
        return false;
      }
      if paused {
        return false;
      }
      allowed := Evaluate(programs, transfers, signer, looks, custom);
      if !allowed {
        return;
      }
      if session.Some? {
        var bound := B.CheckSessionBinding(msg, session.value);
        if !bound && hard {
          return false;
        }
      }
      RecordTouchesOnlyLogs(state.Value(), Outgoing(transfers, signer), ticks, true);
      Record(transfers, signer, ticks);
      if state.resolved.Some? && state.network.Some? {
        var usd := ComputeStablecoinUsd(transfers, signer, Stablecoins(cfg, state.network.value));
        if usd > 0 {
          state.RecordUsdSpend(usd);
        }
      }
    }
  }

  lemma {:induction false} OutgoingGrows(transfers: seq<TokenTransfer>, signer: Key, i: nat)
    requires i <= |transfers|
    ensures |Outgoing(transfers[..i], signer)| <= |Outgoing(transfers, signer)|
    decreases |transfers| - i
  {
    if i == |transfers| {
      assert transfers[..i] == transfers;
    } else {
      OutgoingStep(transfers, signer, i);
      OutgoingGrows(transfers, signer, i + 1);
    }
  }
}
