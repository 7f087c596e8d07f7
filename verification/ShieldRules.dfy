/** The shield's rules written out as sums over what is there, what the verdict has to do with
    them, and what every run records and books. */
module ShieldRules {
  import opened Common
  import opened ShieldLog
  import opened Shield

  // ---- Sums ----

  ghost function Sum<X>(xs: seq<X>, weight: X -> nat): nat {
    if xs == [] then 0 else Sum(xs[..|xs| - 1], weight) + weight(xs[|xs| - 1])
  }

  /** Spends of one mint, or of any, since a cutoff; transactions since a cutoff. */
  function OfMint(mint: Key, cutoff: int): SpendEntry -> nat {
    (e: SpendEntry) => if e.mint == mint && e.timestamp >= cutoff then e.amount else 0
  }

  function OfAny(cutoff: int): SpendEntry -> nat {
    (e: SpendEntry) => if e.timestamp >= cutoff then e.amount else 0
  }

  function Once(cutoff: int): int -> nat {
    (t: int) => if t >= cutoff then 1 else 0
  }

  /** Transfers that count against a mint's limit: of that mint, or of none that is named. */
  function Against(mint: Key): TokenTransfer -> nat {
    (t: TokenTransfer) => if t.mint == Some(mint) || t.mint == None then t.amount else 0
  }

  function Stable(mints: set<Key>): TokenTransfer -> nat {
    (t: TokenTransfer) => if t.mint.Some? && t.mint.value in mints then t.amount else 0
  }

  function By(signer: Key, weight: TokenTransfer -> nat): TokenTransfer -> nat {
    (t: TokenTransfer) => if t.authority == signer then weight(t) else 0
  }

  lemma SumAppend<X>(xs: seq<X>, x: X, weight: X -> nat)
    ensures Sum(xs + [x], weight) == Sum(xs, weight) + weight(x)
  {
    assert (xs + [x])[..|xs|] == xs;
  }

  lemma EntryAppend(kept: seq<SpendEntry>, e: SpendEntry, mint: Key)
    ensures AmountOf(kept + [e], mint) == AmountOf(kept, mint) + if e.mint == mint then e.amount else 0
    ensures TotalOf(kept + [e]) == TotalOf(kept) + e.amount
  {
    assert (kept + [e])[..|kept|] == kept;
  }

  lemma {:induction false} WindowSums(entries: seq<SpendEntry>, mint: Key, cutoff: int)
    ensures AmountOf(SpendsSince(entries, cutoff), mint) == Sum(entries, OfMint(mint, cutoff))
    ensures TotalOf(SpendsSince(entries, cutoff)) == Sum(entries, OfAny(cutoff))
  {
    if entries != [] {
      var k := |entries| - 1;
      WindowSums(entries[..k], mint, cutoff);
      var kept := SpendsSince(entries[..k], cutoff);
      assert SpendsSince(entries, cutoff) == if entries[k].timestamp >= cutoff then kept + [entries[k]] else kept;
      hide AmountOf, TotalOf, SpendsSince;
      EntryAppend(kept, entries[k], mint);
    }
  }

  lemma {:induction false} WindowCount(times: seq<int>, cutoff: int)
    ensures |TimesSince(times, cutoff)| == Sum(times, Once(cutoff))
  {
    if times != [] {
      WindowCount(times[..|times| - 1], cutoff);
    }
  }

  lemma {:induction false} TransferSums(out: seq<TokenTransfer>, mint: Key, mints: set<Key>)
    ensures TxSpend(out, mint) == Sum(out, Against(mint)) && StablecoinUsd(out, mints) == Sum(out, Stable(mints))
  {
    if out != [] {
      TransferSums(out[..|out| - 1], mint, mints);
    }
  }

  lemma {:induction false} OutgoingSum(transfers: seq<TokenTransfer>, signer: Key, weight: TokenTransfer -> nat)
    ensures Sum(Outgoing(transfers, signer), weight) == Sum(transfers, By(signer, weight))
  {
    if transfers != [] {
      var k := |transfers| - 1;
      OutgoingSum(transfers[..k], signer, weight);
      var out := Outgoing(transfers[..k], signer);
      SumAppend(out, transfers[k], weight);
      assert out + [] == out;
    }
  }

  // ---- The rules ----

  /** The configured network if there is one, else the one the state was synced for. */
  predicate ActsOn(cfg: Config, s: State, n: Network) {
    (cfg.syncNetwork == Some(n)) || (cfg.syncNetwork.None? && s.network == Some(n))
  }

  predicate IsStablecoin(cfg: Config, n: Network, mint: Key) {
    n in cfg.stablecoins && mint in cfg.stablecoins[n]
  }

  /** What a transaction may do, rule by rule: `amount` and `usd` are its own sums. */
  ghost predicate RulesHold(cfg: Config, s: State, amount: Key -> nat, usd: set<Key> -> nat, looks: seq<int>)
    requires |looks| == |cfg.spendLimits| + 1
  {
    && (forall i :: 0 <= i < |cfg.spendLimits| ==>
          var limit := cfg.spendLimits[i];
          Sum(s.spendEntries, OfMint(limit.mint, looks[i] - limit.windowMs)) + amount(limit.mint) <= limit.amount)
    && (cfg.rateLimit.Some? ==>
          Sum(s.txEntries, Once(looks[|cfg.spendLimits|] - cfg.rateLimit.value.windowMs)) < cfg.rateLimit.value.maxTransactions)
    && (forall n :: ActsOn(cfg, s, n) && s.resolved.Some? ==>
          var leaving, rs := usd(if n in cfg.stablecoins then cfg.stablecoins[n] else {}), s.resolved.value;
          leaving == 0 ||
          (&& leaving <= rs.maxTransactionUsd
           && rs.globalBudget.spent24h + s.localUsdAdditions + leaving <= rs.globalBudget.cap
           && (rs.agentBudget.Some? ==> rs.agentBudget.value.spent24h + s.localUsdAdditions + leaving <= rs.agentBudget.value.cap)))
  }

  /** The sums of transfers that are all outgoing. */
  ghost function AmountsOf(out: seq<TokenTransfer>): Key -> nat {
    (mint: Key) => Sum(out, Against(mint))
  }

  ghost function UsdOf(out: seq<TokenTransfer>): set<Key> -> nat {
    (mints: set<Key>) => Sum(out, Stable(mints))
  }

  /** The sums of what leaves under the signer, out of all transfers. */
  ghost function AmountsBy(transfers: seq<TokenTransfer>, signer: Key): Key -> nat {
    (mint: Key) => Sum(transfers, By(signer, Against(mint)))
  }

  ghost function UsdBy(transfers: seq<TokenTransfer>, signer: Key): set<Key> -> nat {
    (mints: set<Key>) => Sum(transfers, By(signer, Stable(mints)))
  }

  lemma LimitExactly(s: State, out: seq<TokenTransfer>, limit: SpendLimit, look: int)
    ensures WithinLimit(s, out, limit, look) <==>
            Sum(s.spendEntries, OfMint(limit.mint, look - limit.windowMs)) + AmountsOf(out)(limit.mint) <= limit.amount
  {
    hide AmountOf, SpendsSince, TxSpend, Sum;
    WindowSums(s.spendEntries, limit.mint, look - limit.windowMs);
    TransferSums(out, limit.mint, {});
  }

  lemma RateExactly(s: State, rate: Option<RateLimit>, look: int)
    ensures WithinRate(s, rate, look) <==>
            (rate.Some? ==> Sum(s.txEntries, Once(look - rate.value.windowMs)) < rate.value.maxTransactions)
  {
    hide TimesSince, Sum;
    if rate.Some? {
      WindowCount(s.txEntries, look - rate.value.windowMs);
    }
  }

  lemma LeavingExactly(cfg: Config, out: seq<TokenTransfer>, n: Network)
    ensures StablecoinUsd(out, Stablecoins(cfg, n)) == UsdOf(out)(if n in cfg.stablecoins then cfg.stablecoins[n] else {})
  {
    TransferSums(out, 0, Stablecoins(cfg, n));
  }

  lemma ApprovalExactly(cfg: Config, s: State, out: seq<TokenTransfer>, looks: seq<int>)
    requires |looks| == |cfg.spendLimits| + 1
    ensures Approves(cfg, s, out, looks) <==> RulesHold(cfg, s, AmountsOf(out), UsdOf(out), looks)
  {
    hide WithinLimit, WithinRate, StablecoinUsd, Stablecoins, Sum, AmountsOf, UsdOf, OfMint, Once;
    forall i | 0 <= i < |cfg.spendLimits|
      ensures WithinLimit(s, out, cfg.spendLimits[i], looks[i]) <==>
              Sum(s.spendEntries, OfMint(cfg.spendLimits[i].mint, looks[i] - cfg.spendLimits[i].windowMs))
              + AmountsOf(out)(cfg.spendLimits[i].mint) <= cfg.spendLimits[i].amount
    {
      LimitExactly(s, out, cfg.spendLimits[i], looks[i]);
    }
    RateExactly(s, cfg.rateLimit, looks[|cfg.spendLimits|]);
    forall n: Network
      ensures StablecoinUsd(out, Stablecoins(cfg, n)) == UsdOf(out)(if n in cfg.stablecoins then cfg.stablecoins[n] else {})
    {
      LeavingExactly(cfg, out, n);
    }
    if EffectiveNetwork(cfg, s).Some? {
      assert ActsOn(cfg, s, EffectiveNetwork(cfg, s).value);
    }
  }

  /** The verdict on a transaction is the rules over its own transfers. */
  lemma VerdictExactly(cfg: Config, s: State, transfers: seq<TokenTransfer>, signer: Key, looks: seq<int>)
    requires |looks| == |cfg.spendLimits| + 1
    ensures Approves(cfg, s, Outgoing(transfers, signer), looks) <==>
            RulesHold(cfg, s, AmountsBy(transfers, signer), UsdBy(transfers, signer), looks)
  {
    var out := Outgoing(transfers, signer);
    ApprovalExactly(cfg, s, out, looks);
    forall mint: Key
      ensures AmountsOf(out)(mint) == AmountsBy(transfers, signer)(mint)
    {
      OutgoingSum(transfers, signer, Against(mint));
    }
    forall mints: set<Key>
      ensures UsdOf(out)(mints) == UsdBy(transfers, signer)(mints)
    {
      OutgoingSum(transfers, signer, Stable(mints));
    }
    hide Approves, Outgoing, Sum;
  }

  /** Unless there is no list, every program is a system program or listed. */
  predicate ProgramsKnown(cfg: Config, programs: seq<Key>) {
    forall p :: p in programs && cfg.allowedPrograms.Some? ==> p in cfg.systemPrograms || p in cfg.allowedPrograms.value
  }

  lemma ProgramsExactly(cfg: Config, programs: seq<Key>)
    ensures ProgramsAllowed(cfg, programs) <==> ProgramsKnown(cfg, programs)
  {
  }

  /** An event records exactly when the context is not paused, the other rules pass and these do. */
  lemma RecordedExactly(cfg: Config, c: Context, ev: Event)
    ensures ev.Enforce? ==>
              (Recorded(cfg, c, ev).Some? <==>
                 && !c.paused && ev.otherRulesPass && |ev.looks| == |cfg.spendLimits| + 1 && |ev.ticks| == |ev.out| + 1
                 && RulesHold(cfg, c.state, AmountsOf(ev.out), UsdOf(ev.out), ev.looks))
    ensures ev.SignFinish? ==>
              (Recorded(cfg, c, ev).Some? <==>
                 && ev.id in c.inFlight && !c.paused && ev.simulationAndOtherRulesPass
                 && |ev.looks| == |cfg.spendLimits| + 1 && |ev.ticks| == |c.inFlight[ev.id]| + 1
                 && RulesHold(cfg, c.state, AmountsOf(c.inFlight[ev.id]), UsdOf(c.inFlight[ev.id]), ev.looks))
    ensures Recorded(cfg, c, ev).Some? ==>
              (ev.Enforce? && Recorded(cfg, c, ev).value == ev.out) || (ev.SignFinish? && Recorded(cfg, c, ev).value == c.inFlight[ev.id])
  {
    hide Approves, RulesHold;
    if ev.Enforce? && |ev.looks| == |cfg.spendLimits| + 1 {
      ApprovalExactly(cfg, c.state, ev.out, ev.looks);
    } else if ev.SignFinish? && ev.id in c.inFlight && |ev.looks| == |cfg.spendLimits| + 1 {
      ApprovalExactly(cfg, c.state, c.inFlight[ev.id], ev.looks);
    }
  }

  /** Over every run: a transaction that is recorded while a state is synced, and that moves
      stablecoins of the network acted on, is no larger than the synced maximum, and fits both
      budgets on top of what was added before. */
  lemma RecordedTransactionsFit(cfg: Config, events: seq<Event>, i: nat, pruning: bool, n: Network)
    requires i < |events|
    requires var c := Run(cfg, events[..i], pruning);
             Recorded(cfg, c, events[i]).Some? && c.state.resolved.Some? && ActsOn(cfg, c.state, n)
    ensures var c := Run(cfg, events[..i], pruning);
            var rs, local := c.state.resolved.value, c.state.localUsdAdditions;
            var usd := Sum(Recorded(cfg, c, events[i]).value, Stable(if n in cfg.stablecoins then cfg.stablecoins[n] else {}));
            usd > 0 ==>
              && usd <= rs.maxTransactionUsd && rs.globalBudget.spent24h + local + usd <= rs.globalBudget.cap
              && (rs.agentBudget.Some? ==> rs.agentBudget.value.spent24h + local + usd <= rs.agentBudget.value.cap)
  {
    hide Run, Recorded;
    RecordedExactly(cfg, Run(cfg, events[..i], pruning), events[i]);
  }

  // ---- What a run records and books ----

  /** Every spend recorded in a run, in order, at the clock of its record call. */
  function SpendsRecorded(cfg: Config, events: seq<Event>): seq<SpendEntry> {
    if events == [] then []
    else
      var c, ev := Run(cfg, events[..|events| - 1], false), events[|events| - 1];
      var out := Recorded(cfg, c, ev);
      SpendsRecorded(cfg, events[..|events| - 1]) +
      if out.None? || |TicksOf(ev)| < |out.value| then []
      else seq(|out.value|, i requires 0 <= i < |out.value| =>
             SpendEntry(if out.value[i].mint.Some? then out.value[i].mint.value else DEFAULT_KEY, out.value[i].amount, TicksOf(ev)[i].now))
  }

  /** And every transaction. */
  function TransactionsRecorded(cfg: Config, events: seq<Event>): seq<int> {
    if events == [] then []
    else
      var c, ev := Run(cfg, events[..|events| - 1], false), events[|events| - 1];
      TransactionsRecorded(cfg, events[..|events| - 1]) +
      if Recorded(cfg, c, ev).None? || TicksOf(ev) == [] then [] else [TicksOf(ev)[|TicksOf(ev)| - 1].now]
  }

  lemma RecordStep(cfg: Config, c: Context, ev: Event)
    ensures var s, s', out := c.state, Shield.Step(cfg, c, ev, false).state, Recorded(cfg, c, ev);
            && (out.None? ==> s'.spendEntries == s.spendEntries && s'.txEntries == s.txEntries)
            && (out.Some? ==>
                  && |TicksOf(ev)| == |out.value| + 1
                  && s'.spendEntries == s.spendEntries + NewEntries(out.value, TicksOf(ev))
                  && s'.txEntries == s.txEntries + [TicksOf(ev)[|out.value|].now])
  {
    hide Approves, StablecoinUsd, Stablecoins, RecordSpends;
    var out := Recorded(cfg, c, ev);
    if out.Some? {
      UnprunedRecord(c.state, out.value, TicksOf(ev));
    }
  }

  /** The full log is the history: exactly the outgoing transfers of every recorded transaction, and
      one transaction for each. */
  lemma {:induction false} FullLogIsHistory(cfg: Config, events: seq<Event>)
    ensures Run(cfg, events, false).state.spendEntries == SpendsRecorded(cfg, events)
    ensures Run(cfg, events, false).state.txEntries == TransactionsRecorded(cfg, events)
  {
    hide Shield.Step, Recorded, TicksOf;
    if events != [] {
      var k := |events| - 1;
      FullLogIsHistory(cfg, events[..k]);
      var c, ev := Run(cfg, events[..k], false), events[k];
      RecordStep(cfg, c, ev);
      var out := Recorded(cfg, c, ev);
      if out.Some? {
        var added := NewEntries(out.value, TicksOf(ev));
        assert SpendsRecorded(cfg, events) == SpendsRecorded(cfg, events[..k]) + added;
      } else {
        assert SpendsRecorded(cfg, events[..k]) + [] == SpendsRecorded(cfg, events[..k]);
      }
    }
  }

  predicate Syncs(cfg: Config, ev: Event) {
    ev.DirectSync? || (ev.ContextSync? && cfg.syncNetwork.Some?)
  }

  /** The network whose stablecoins an event books: enforce() the configured one, a signer the state's. */
  function BookingNetwork(cfg: Config, c: Context, ev: Event): Option<Network> {
    if ev.Enforce? then cfg.syncNetwork else c.state.network
  }

  /** What was booked since the last sync. */
  ghost function BookedSinceSync(cfg: Config, events: seq<Event>, pruning: bool): nat {
    if events == [] then 0
    else
      var c, ev := Run(cfg, events[..|events| - 1], pruning), events[|events| - 1];
      var out, n := Recorded(cfg, c, ev), BookingNetwork(cfg, c, ev);
      if Syncs(cfg, ev) then 0
      else BookedSinceSync(cfg, events[..|events| - 1], pruning) +
           if out.Some? && c.state.resolved.Some? && n.Some?
           then Sum(out.value, Stable(if n.value in cfg.stablecoins then cfg.stablecoins[n.value] else {})) else 0
  }

  lemma BookStep(cfg: Config, c: Context, ev: Event, pruning: bool)
    ensures var s, s', out, n := c.state, Shield.Step(cfg, c, ev, pruning).state, Recorded(cfg, c, ev), BookingNetwork(cfg, c, ev);
            s'.localUsdAdditions ==
              if Syncs(cfg, ev) then 0
              else s.localUsdAdditions +
                   if out.Some? && s.resolved.Some? && n.Some?
                   then Sum(out.value, Stable(if n.value in cfg.stablecoins then cfg.stablecoins[n.value] else {})) else 0
  {
    hide Approves, RecordSpends, SpendsSince, TimesSince;
    var out, n := Recorded(cfg, c, ev), BookingNetwork(cfg, c, ev);
    if out.Some? {
      RecordTouchesOnlyLogs(c.state, out.value, TicksOf(ev), pruning);
      if n.Some? {
        TransferSums(out.value, 0, Stablecoins(cfg, n.value));
      }
    }
    hide StablecoinUsd;
  }

  /** Local additions are exactly what was booked since the last sync. */
  lemma {:induction false} LocalAdditionsAreBooked(cfg: Config, events: seq<Event>, pruning: bool)
    ensures Run(cfg, events, pruning).state.localUsdAdditions == BookedSinceSync(cfg, events, pruning)
  {
    hide Shield.Step, Recorded, Syncs, BookingNetwork;
    if events != [] {
      LocalAdditionsAreBooked(cfg, events[..|events| - 1], pruning);
      BookStep(cfg, Run(cfg, events[..|events| - 1], pruning), events[|events| - 1], pruning);
    }
  }

  /** Syncing, pausing and the bookkeeping of suspended signers. */
  lemma ContextExactly(cfg: Config, c: Context, ev: Event, pruning: bool)
    ensures var c' := Shield.Step(cfg, c, ev, pruning);
            && c'.paused == (if ev.SetPaused? then ev.paused else c.paused)
            && c'.state.resolved == (if Syncs(cfg, ev) then Some(ev.resolved) else c.state.resolved)
            && c'.state.network == (if ev.ContextSync? && Syncs(cfg, ev) then cfg.syncNetwork
                                    else if ev.DirectSync? && ev.onNetwork.Some? then ev.onNetwork else c.state.network)
            && (c'.state.enforceUsed <==> c.state.enforceUsed || (ev.Enforce? && Recorded(cfg, c, ev).Some?))
            && (ev.SignStart? && ev.ceilingsPass ==> c'.inFlight == c.inFlight[ev.id := ev.out])
            && (ev.SignFinish? ==> ev.id !in c'.inFlight && c'.inFlight == c.inFlight - {ev.id})
            && (!(ev.SignStart? && ev.ceilingsPass) && !ev.SignFinish? ==> c'.inFlight == c.inFlight)
  {
    hide Approves, RecordSpends, SpendsSince, TimesSince, StablecoinUsd, Stablecoins;
    var out := Recorded(cfg, c, ev);
    if out.Some? {
      RecordTouchesOnlyLogs(c.state, out.value, TicksOf(ev), pruning);
    }
  }
}
