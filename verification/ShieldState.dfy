/** The client's in-memory spend log: pruned, checkpointed and rolled back, and why none of that
    shows in any window query of at most 24 hours. */
module ShieldLog {
  import opened Common

  const DAY_MS := 86_400_000
  const PRUNE_THRESHOLD := 10_000

  /** A recorded spend; transfers without a mint are recorded under the default key. */
  datatype SpendEntry = SpendEntry(mint: Key, amount: nat, timestamp: int)

  type Network = nat

  datatype Budget = Budget(spent24h: nat, cap: nat)

  /** What a sync brings from the chain. */
  datatype Resolved = Resolved(globalBudget: Budget, agentBudget: Option<Budget>, maxTransactionUsd: nat)

  datatype State = State(
    spendEntries: seq<SpendEntry>,
    txEntries: seq<int>,
    resolved: Option<Resolved>,
    localUsdAdditions: nat,
    network: Option<Network>,
    enforceUsed: bool)

  const EMPTY := State([], [], None, 0, None, false)

  // ---- Queries ----

  function SpendsSince(entries: seq<SpendEntry>, cutoff: int): seq<SpendEntry> {
    if entries == [] then []
    else
      var last := entries[|entries| - 1];
      SpendsSince(entries[..|entries| - 1], cutoff) + if last.timestamp >= cutoff then [last] else []
  }

  function TimesSince(times: seq<int>, cutoff: int): seq<int> {
    if times == [] then []
    else
      var last := times[|times| - 1];
      TimesSince(times[..|times| - 1], cutoff) + if last >= cutoff then [last] else []
  }

  function AmountOf(entries: seq<SpendEntry>, mint: Key): nat {
    if entries == [] then 0
    else
      var last := entries[|entries| - 1];
      AmountOf(entries[..|entries| - 1], mint) + if last.mint == mint then last.amount else 0
  }

  function TotalOf(entries: seq<SpendEntry>): nat {
    if entries == [] then 0 else TotalOf(entries[..|entries| - 1]) + entries[|entries| - 1].amount
  }

  function SpendInWindow(s: State, mint: Key, windowMs: int, now: int): nat {
    AmountOf(SpendsSince(s.spendEntries, now - windowMs), mint)
  }

  function TotalSpendInWindow(s: State, windowMs: int, now: int): nat {
    TotalOf(SpendsSince(s.spendEntries, now - windowMs))
  }

  function TransactionCountInWindow(s: State, windowMs: int, now: int): nat {
    |TimesSince(s.txEntries, now - windowMs)|
  }

  // ---- Updates; pruning reads the clock for the spends at `cut`, then for the transactions at `prune` ----

  function Pruned(s: State, cut: int, prune: int): State {
    s.(spendEntries := if |s.spendEntries| > PRUNE_THRESHOLD then SpendsSince(s.spendEntries, cut - DAY_MS) else s.spendEntries,
       txEntries := if |s.txEntries| > PRUNE_THRESHOLD then TimesSince(s.txEntries, prune - DAY_MS) else s.txEntries)
  }

  function WithSpend(s: State, mint: Key, amount: nat, now: int): State {
    s.(spendEntries := s.spendEntries + [SpendEntry(mint, amount, now)])
  }

  function WithTransaction(s: State, now: int): State {
    s.(txEntries := s.txEntries + [now])
  }

  // ---- Pruning is invisible ----

  lemma {:induction false} SinceTwice(entries: seq<SpendEntry>, times: seq<int>, earlier: int, cutoff: int)
    requires earlier <= cutoff
    ensures SpendsSince(SpendsSince(entries, earlier), cutoff) == SpendsSince(entries, cutoff)
    ensures TimesSince(TimesSince(times, earlier), cutoff) == TimesSince(times, cutoff)
    decreases |entries| + |times|
  {
    if entries != [] {
      var k := |entries| - 1;
      SinceTwice(entries[..k], [], earlier, cutoff);
      var kept := SpendsSince(entries[..k], earlier);
      if entries[k].timestamp >= earlier {
        assert (kept + [entries[k]])[..|kept|] == kept;
      } else {
        assert kept + [] == kept;
      }
    }
    if times != [] {
      var k := |times| - 1;
      SinceTwice([], times[..k], earlier, cutoff);
      var kept := TimesSince(times[..k], earlier);
      if times[k] >= earlier {
        assert (kept + [times[k]])[..|kept|] == kept;
      } else {
        assert kept + [] == kept;
      }
    }
  }

  /** A state and one that never discarded anything: alike but for entries before `horizon`. */
  ghost predicate Alike(s: State, full: State, horizon: int) {
    && SpendsSince(s.spendEntries, horizon) == SpendsSince(full.spendEntries, horizon)
    && TimesSince(s.txEntries, horizon) == TimesSince(full.txEntries, horizon)
    && s == full.(spendEntries := s.spendEntries, txEntries := s.txEntries)
  }

  lemma AlikeLater(s: State, full: State, horizon: int, later: int)
    requires Alike(s, full, horizon) && horizon <= later
    ensures Alike(s, full, later)
  {
    SinceTwice(s.spendEntries, s.txEntries, horizon, later);
    SinceTwice(full.spendEntries, full.txEntries, horizon, later);
  }

  lemma PrunedIsAlike(s: State, full: State, cut: int, prune: int)
    requires cut <= prune && Alike(s, full, prune - DAY_MS)
    ensures Alike(Pruned(s, cut, prune), full, prune - DAY_MS)
  {
    SinceTwice(s.spendEntries, s.txEntries, cut - DAY_MS, prune - DAY_MS);
    SinceTwice(s.spendEntries, s.txEntries, prune - DAY_MS, prune - DAY_MS);
  }

  lemma SinceAppend(entries: seq<SpendEntry>, e: SpendEntry, times: seq<int>, t: int, cutoff: int)
    ensures SpendsSince(entries + [e], cutoff) == SpendsSince(entries, cutoff) + if e.timestamp >= cutoff then [e] else []
    ensures TimesSince(times + [t], cutoff) == TimesSince(times, cutoff) + if t >= cutoff then [t] else []
  {
    assert (entries + [e])[..|entries|] == entries && (times + [t])[..|times|] == times;
  }

  lemma QueriesAgree(s: State, full: State, horizon: int, mint: Key, windowMs: int, now: int)
    requires Alike(s, full, horizon) && horizon <= now - windowMs
    ensures SpendInWindow(s, mint, windowMs, now) == SpendInWindow(full, mint, windowMs, now)
    ensures TotalSpendInWindow(s, windowMs, now) == TotalSpendInWindow(full, windowMs, now)
    ensures TransactionCountInWindow(s, windowMs, now) == TransactionCountInWindow(full, windowMs, now)
  {
    AlikeLater(s, full, horizon, now - windowMs);
  }

  // ---- Whole histories ----

  datatype Op =
    | RecordSpend(mint: Key, amount: nat)
    | RecordTransaction
    | RecordUsd(usd: nat)
    | Sync(resolved: Resolved, onNetwork: Option<Network>)
    | MarkEnforceUsed
    | TakeCheckpoint
    | Rollback(index: nat)
    | Reset

  /** An operation with its three clock readings. */
  datatype Call = Call(op: Op, now: int, cut: int, prune: int)

  /** A state and the checkpoints taken so far. */
  datatype Session = Session(state: State, checkpoints: seq<State>)

  /** One call; `pruning` tells the real state from the one that never discards. A rollback to a
      checkpoint that was never taken does not happen. */
  function Step(s: Session, c: Call, pruning: bool): Session {
    var st := s.state;
    match c.op
    case RecordSpend(mint, amount) =>
      var r := WithSpend(st, mint, amount, c.now);
      s.(state := if pruning then Pruned(r, c.cut, c.prune) else r)
    case RecordTransaction =>
      var r := WithTransaction(st, c.now);
      s.(state := if pruning then Pruned(r, c.cut, c.prune) else r)
    case RecordUsd(usd) => s.(state := st.(localUsdAdditions := st.localUsdAdditions + usd))
    case Sync(resolved, onNetwork) =>
      s.(state := st.(resolved := Some(resolved), localUsdAdditions := 0,
                      network := if onNetwork.Some? then onNetwork else st.network))
    case MarkEnforceUsed => s.(state := st.(enforceUsed := true))
    case TakeCheckpoint => s.(checkpoints := s.checkpoints + [st])
    case Rollback(i) => if i < |s.checkpoints| then s.(state := s.checkpoints[i]) else s
    case Reset => s.(state := EMPTY)
  }

  function Replay(calls: seq<Call>, pruning: bool): Session {
    if calls == [] then Session(EMPTY, []) else Step(Replay(calls[..|calls| - 1], pruning), calls[|calls| - 1], pruning)
  }

  /** The clock never goes back, within a call or between calls. */
  ghost predicate Clocked(calls: seq<Call>) {
    && (forall i :: 0 <= i < |calls| ==> calls[i].now <= calls[i].cut <= calls[i].prune)
    && (forall i, j :: 0 <= i < j < |calls| ==> calls[i].prune <= calls[j].now)
  }

  ghost predicate SessionsAlike(a: Session, b: Session, horizon: int) {
    && Alike(a.state, b.state, horizon)
    && |a.checkpoints| == |b.checkpoints|
    && forall i :: 0 <= i < |a.checkpoints| ==> Alike(a.checkpoints[i], b.checkpoints[i], horizon)
  }

  lemma SessionsAlikeLater(a: Session, b: Session, horizon: int, later: int)
    requires SessionsAlike(a, b, horizon) && horizon <= later
    ensures SessionsAlike(a, b, later)
  {
    AlikeLater(a.state, b.state, horizon, later);
    forall i | 0 <= i < |a.checkpoints|
      ensures Alike(a.checkpoints[i], b.checkpoints[i], later)
    {
      AlikeLater(a.checkpoints[i], b.checkpoints[i], horizon, later);
    }
  }

  lemma RecordedIsAlike(s: State, full: State, mint: Key, amount: nat, now: int, cut: int, prune: int)
    requires cut <= prune && Alike(s, full, prune - DAY_MS)
    ensures Alike(Pruned(WithSpend(s, mint, amount, now), cut, prune), WithSpend(full, mint, amount, now), prune - DAY_MS)
    ensures Alike(Pruned(WithTransaction(s, now), cut, prune), WithTransaction(full, now), prune - DAY_MS)
  {
    var e := SpendEntry(mint, amount, now);
    SinceAppend(s.spendEntries, e, s.txEntries, now, prune - DAY_MS);
    SinceAppend(full.spendEntries, e, full.txEntries, now, prune - DAY_MS);
    PrunedIsAlike(WithSpend(s, mint, amount, now), WithSpend(full, mint, amount, now), cut, prune);
    PrunedIsAlike(WithTransaction(s, now), WithTransaction(full, now), cut, prune);
  }

  lemma {:induction false} StepKeepsAlike(a: Session, b: Session, c: Call)
    requires c.cut <= c.prune && SessionsAlike(a, b, c.prune - DAY_MS)
    ensures SessionsAlike(Step(a, c, true), Step(b, c, false), c.prune - DAY_MS)
  {
    hide SpendsSince, TimesSince, Pruned, WithSpend, WithTransaction;
    match c.op
    case RecordSpend(mint, amount) => RecordedIsAlike(a.state, b.state, mint, amount, c.now, c.cut, c.prune);
    case RecordTransaction => RecordedIsAlike(a.state, b.state, 0, 0, c.now, c.cut, c.prune);
    case _ =>
  }

  lemma ClockedPrefix(calls: seq<Call>)
    requires Clocked(calls) && calls != []
    ensures Clocked(calls[..|calls| - 1])
    ensures calls[|calls| - 1].cut <= calls[|calls| - 1].prune
    ensures |calls| > 1 ==> calls[|calls| - 2].prune <= calls[|calls| - 1].prune
  {
  }

  lemma EmptySessionsAlike(horizon: int)
    ensures SessionsAlike(Replay([], true), Replay([], false), horizon)
  {
  }

  lemma {:induction false} PrunedReplayIsAlike(calls: seq<Call>, horizon: int)
    requires Clocked(calls) && (calls != [] ==> horizon >= calls[|calls| - 1].prune - DAY_MS)
    ensures SessionsAlike(Replay(calls, true), Replay(calls, false), horizon)
  {
    hide Step, SessionsAlike;
    if calls == [] {
      EmptySessionsAlike(horizon);
    } else {
      var k := |calls| - 1;
      var kept, full := Replay(calls[..k], true), Replay(calls[..k], false);
      ClockedPrefix(calls);
      hide Clocked;
      PrunedReplayIsAlike(calls[..k], calls[k].prune - DAY_MS);
      StepKeepsAlike(kept, full, calls[k]);
      SessionsAlikeLater(Step(kept, calls[k], true), Step(full, calls[k], false), calls[k].prune - DAY_MS, horizon);
    }
  }

  /** After any history of records, checkpoints, rollbacks, syncs and resets, every window
      query of at most 24 hours answers exactly as a log that never discards entries would. */
  lemma {:induction false} PruningIsInvisible(calls: seq<Call>, mint: Key, windowMs: int, now: int)
    requires Clocked(calls) && (calls != [] ==> calls[|calls| - 1].prune <= now) && windowMs <= DAY_MS
    ensures var s, full := Replay(calls, true).state, Replay(calls, false).state;
            && SpendInWindow(s, mint, windowMs, now) == SpendInWindow(full, mint, windowMs, now)
            && TotalSpendInWindow(s, windowMs, now) == TotalSpendInWindow(full, windowMs, now)
            && TransactionCountInWindow(s, windowMs, now) == TransactionCountInWindow(full, windowMs, now)
            && s == full.(spendEntries := s.spendEntries, txEntries := s.txEntries)
  {
    PrunedReplayIsAlike(calls, now - windowMs);
    QueriesAgree(Replay(calls, true).state, Replay(calls, false).state, now - windowMs, mint, windowMs, now);
  }

  // ---- What pruning drops, and what a rollback brings back ----

  lemma {:induction false} SinceExactly(entries: seq<SpendEntry>, times: seq<int>, cutoff: int, e: SpendEntry, t: int)
    ensures e in SpendsSince(entries, cutoff) <==> e in entries && e.timestamp >= cutoff
    ensures t in TimesSince(times, cutoff) <==> t in times && t >= cutoff
    decreases |entries| + |times|
  {
    if entries != [] {
      var k := |entries| - 1;
      SinceExactly(entries[..k], [], cutoff, e, t);
      assert entries == entries[..k] + [entries[k]];
    }
    if times != [] {
      var k := |times| - 1;
      SinceExactly([], times[..k], cutoff, e, t);
      assert times == times[..k] + [times[k]];
    }
  }

  /** A list of more than 10,000 loses exactly what is older than 24 hours at its own clock reading;
      a shorter one loses nothing. */
  lemma PrunedExactly(s: State, cut: int, prune: int, e: SpendEntry, t: int)
    ensures var p := Pruned(s, cut, prune);
            && (|s.spendEntries| <= 10_000 ==> p.spendEntries == s.spendEntries)
            && (|s.spendEntries| > 10_000 ==> (e in p.spendEntries <==> e in s.spendEntries && e.timestamp >= cut - 24 * 3600 * 1000))
            && (|s.txEntries| <= 10_000 ==> p.txEntries == s.txEntries)
            && (|s.txEntries| > 10_000 ==> (t in p.txEntries <==> t in s.txEntries && t >= prune - 24 * 3600 * 1000))
            && p == s.(spendEntries := p.spendEntries, txEntries := p.txEntries)
  {
    SinceExactly(s.spendEntries, [], cut - DAY_MS, e, t);
    SinceExactly([], s.txEntries, prune - DAY_MS, e, t);
  }

  lemma {:induction false} CheckpointsStay(calls: seq<Call>, n: nat, pruning: bool)
    requires n <= |calls|
    ensures Replay(calls[..n], pruning).checkpoints <= Replay(calls, pruning).checkpoints
    decreases |calls|
  {
    if n == |calls| {
      assert calls[..n] == calls;
    } else {
      var k := |calls| - 1;
      CheckpointsStay(calls[..k], n, pruning);
      assert calls[..k][..n] == calls[..n];
      hide Pruned, WithSpend, WithTransaction;
    }
  }

  /** Whatever happened since, rolling back to a checkpoint brings back every field as it was when the
      checkpoint was taken. */
  lemma RollbackRestores(calls: seq<Call>, i: nat, now: int, cut: int, prune: int, pruning: bool)
    requires i < |calls| && calls[i].op == TakeCheckpoint
    ensures var index := |Replay(calls[..i], pruning).checkpoints|;
            Replay(calls + [Call(Rollback(index), now, cut, prune)], pruning).state == Replay(calls[..i], pruning).state
  {
    var s, index := Replay(calls[..i], pruning), |Replay(calls[..i], pruning).checkpoints|;
    assert calls[..i + 1][..i] == calls[..i];
    assert Replay(calls[..i + 1], pruning).checkpoints == s.checkpoints + [s.state];
    CheckpointsStay(calls, i + 1, pruning);
    var back := calls + [Call(Rollback(index), now, cut, prune)];
    assert back[..|calls|] == calls;
    hide Pruned, WithSpend, WithTransaction;
  }

  /** The other operations, field by field. */
  lemma OperationsExactly(s: Session, c: Call, pruning: bool)
    ensures var s' := Step(s, c, pruning);
            && (c.op.RecordUsd? ==> s'.state == s.state.(localUsdAdditions := s.state.localUsdAdditions + c.op.usd))
            && (c.op.Sync? ==>
                  && s'.state.resolved == Some(c.op.resolved) && s'.state.localUsdAdditions == 0
                  && s'.state.network == (if c.op.onNetwork.None? then s.state.network else c.op.onNetwork)
                  && s'.state.spendEntries == s.state.spendEntries && s'.state.txEntries == s.state.txEntries)
            && (c.op.MarkEnforceUsed? ==> s'.state == s.state.(enforceUsed := true))
            && (c.op.Reset? ==> s'.state == State([], [], None, 0, None, false))
            && (c.op.RecordSpend? && !pruning ==>
                  s'.state == s.state.(spendEntries := s.state.spendEntries + [SpendEntry(c.op.mint, c.op.amount, c.now)]))
            && (c.op.RecordTransaction? && !pruning ==> s'.state == s.state.(txEntries := s.state.txEntries + [c.now]))
            && (c.op.TakeCheckpoint? ==> s'.state == s.state)
            && (!c.op.TakeCheckpoint? ==> s'.checkpoints == s.checkpoints)
  {
    hide Pruned;
  }

  // ---- The object ----

  class ShieldState {
    var spendEntries: seq<SpendEntry>
    var txEntries: seq<int>
    var resolved: Option<Resolved>
    var localUsdAdditions: nat
    var network: Option<Network>
    var enforceUsed: bool

    ghost function Value(): State
      reads this
    {
      State(spendEntries, txEntries, resolved, localUsdAdditions, network, enforceUsed)
    }

    constructor ()
      ensures Value() == EMPTY
    {
      spendEntries, txEntries, resolved, localUsdAdditions, network, enforceUsed := [], [], None, 0, None, false;
    }

    method GetSpendInWindow(mint: Key, windowMs: int, now: int) returns (sum: nat)
      ensures sum == SpendInWindow(Value(), mint, windowMs, now)
    {
      var recent := SpendsSince(spendEntries, now - windowMs);
      sum := 0;
      for i := 0 to |recent|
        invariant sum == AmountOf(recent[..i], mint)
      {
        assert recent[..i + 1][..i] == recent[..i];
        if recent[i].mint == mint {
          sum := sum + recent[i].amount;
        }
      }
      assert recent[..|recent|] == recent;
    }

    method Prune(cut: int, prune: int)
      modifies this`spendEntries, this`txEntries
      ensures Value() == Pruned(old(Value()), cut, prune)
    {
      if |spendEntries| > PRUNE_THRESHOLD {
        spendEntries := SpendsSince(spendEntries, cut - DAY_MS);
      }
      if |txEntries| > PRUNE_THRESHOLD {
        txEntries := TimesSince(txEntries, prune - DAY_MS);
      }
    }

    method RecordSpend(mint: Key, amount: nat, now: int, cut: int, prune: int)
      modifies this`spendEntries, this`txEntries
      ensures Value() == Pruned(WithSpend(old(Value()), mint, amount, now), cut, prune)
    {
      spendEntries := spendEntries + [SpendEntry(mint, amount, now)];
      Prune(cut, prune);
    }

    method RecordTransaction(now: int, cut: int, prune: int)
      modifies this`spendEntries, this`txEntries
      ensures Value() == Pruned(WithTransaction(old(Value()), now), cut, prune)
    {
      txEntries := txEntries + [now];
      Prune(cut, prune);
    }

    method SyncFromOnChain(state: Resolved, onNetwork: Option<Network>)
      modifies this`resolved, this`localUsdAdditions, this`network
      ensures Value() == old(Value()).(resolved := Some(state), localUsdAdditions := 0,
                                       network := if onNetwork.Some? then onNetwork else old(network))
    {
      resolved := Some(state);
      localUsdAdditions := 0;
      if onNetwork.Some? {
        network := onNetwork;
      }
    }

    method RecordUsdSpend(usd: nat)
      modifies this`localUsdAdditions
      ensures Value() == old(Value()).(localUsdAdditions := old(localUsdAdditions) + usd)
    {
      localUsdAdditions := localUsdAdditions + usd;
    }

    method MarkEnforceUsed()
      modifies this`enforceUsed
      ensures Value() == old(Value()).(enforceUsed := true)
    {
      enforceUsed := true;
    }

    method Checkpoint() returns (cp: State)
      ensures cp == Value()
    {
      cp := State(spendEntries, txEntries, resolved, localUsdAdditions, network, enforceUsed);
    }

    /** Every field returns to its checkpointed value. */
    method Rollback(cp: State)
      modifies this
      ensures Value() == cp
    {
      spendEntries, txEntries := cp.spendEntries, cp.txEntries;
      resolved, localUsdAdditions := cp.resolved, cp.localUsdAdditions;
      network, enforceUsed := cp.network, cp.enforceUsed;
    }
  }
}
