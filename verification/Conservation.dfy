/** Where the money of a run goes. */
module Conservation {
  import opened Common
  import opened Fees
  import opened Program
  import opened Frames
  import opened SpendingRuns
  import T = SpendTracking
  import O = AgentOverlay

  function ProtocolFee(a: Transfer): nat {
    ClientCeilFee(a.amount, PROTOCOL_FEE_RATE)
  }

  function DeveloperFee(w: World, a: Transfer): nat {
    ClientCeilFee(a.amount, w.policy.developerFeeRate)
  }

  /** What a transfer pays into account x: as destination, as treasury, as developer. */
  function Credit(w: World, a: Transfer, x: Key): int {
    var p, d := ProtocolFee(a), DeveloperFee(w, a);
    (if x == a.destination.address then a.amount - p - d else 0)
    + (if p > 0 && a.treasury.Some? && x == a.treasury.value.address then p else 0)
    + (if d > 0 && a.feeDestination.Some? && x == a.feeDestination.value.address then d else 0)
  }

  function Debit(a: Transfer, x: Key): nat {
    if x == a.vaultToken.address then a.amount else 0
  }

  lemma MoveEffect(b: map<Key, nat>, from: Key, to: Key, m: nat, x: Key)
    requires Move(b, from, to, m).Ok?
    ensures Balance(Move(b, from, to, m).value, x) ==
            Balance(b, x) - (if x == from then m else 0) + (if x == to then m else 0)
  {
  }

  lemma MoveFundsEffect(chain: Chain, w: World, a: Transfer, p: nat, d: nat, x: Key)
    requires p + d <= a.amount && p == ProtocolFee(a) && d == DeveloperFee(w, a)
    requires MoveFunds(chain, w.vault, w.balances, a, p, d).Ok?
    ensures Balance(MoveFunds(chain, w.vault, w.balances, a, p, d).value, x) == Balance(w.balances, x) - Debit(a, x) + Credit(w, a, x)
  {
    hide Move, Balance, ClientCeilFee;
    var from, net := a.vaultToken.address, Move(w.balances, a.vaultToken.address, a.destination.address, a.amount - p - d);
    MoveEffect(w.balances, from, a.destination.address, a.amount - p - d, x);
    var second := if p == 0 then net else Move(net.value, from, a.treasury.value.address, p);
    if p > 0 {
      MoveEffect(net.value, from, a.treasury.value.address, p, x);
    }
    if d > 0 {
      MoveEffect(second.value, from, a.feeDestination.value.address, d, x);
    }
  }

  /** One transfer, for any aliasing among its accounts: the fees and the net make up the
      amount, every balance moves by its debits and credits, and the counters follow. */
  lemma TransferConserves(chain: Chain, w: World, a: Transfer, clock: Clock)
    requires TransferStep(chain, w, a, clock).Ok?
    ensures var w' := TransferStep(chain, w, a, clock).value;
            && ProtocolFee(a) + DeveloperFee(w, a) <= a.amount
            && w'.vault.totalVolume == w.vault.totalVolume + a.amount
            && w'.vault.totalFeesCollected == w.vault.totalFeesCollected + DeveloperFee(w, a)
            && w'.vault.totalTransactions == w.vault.totalTransactions + 1
    ensures forall x :: Balance(TransferStep(chain, w, a, clock).value.balances, x) ==
                        Balance(w.balances, x) - Debit(a, x) + Credit(w, a, x)
  {
    hide T.Reading, T.Recorded, T.Recordable, O.Reading, O.Recorded, O.Recordable, O.FindSlot;
    ClientFeeAgrees(a.amount, PROTOCOL_FEE_RATE);
    ClientFeeAgrees(a.amount, w.policy.developerFeeRate);
    hide CeilFee, ClientCeilFee, MoveFunds, ChargeAgent, TransferChecks;
    forall x: Key
      ensures Balance(TransferStep(chain, w, a, clock).value.balances, x) ==
              Balance(w.balances, x) - Debit(a, x) + Credit(w, a, x)
    {
      MoveFundsEffect(chain, w, a, ProtocolFee(a), DeveloperFee(w, a), x);
    }
  }

  lemma OnlyTransfersMoveMoney(chain: Chain, w: World, ev: Event)
    requires Exec(chain, w, ev).Ok? && !ev.op.AgentTransfer?
    ensures var w' := Exec(chain, w, ev).value;
            && w'.balances == w.balances && w'.vault.totalVolume == w.vault.totalVolume
            && w'.vault.totalFeesCollected == w.vault.totalFeesCollected
  {
    hide Exec;
    NonTransferFrames(chain, w, ev);
  }

  /** Totals over a run, of the successful transfers only. */
  datatype Flow = Flow(volume: int, protocolFees: int, developerFees: int, debited: int, credited: int)

  ghost function FlowOf(chain: Chain, w: World, trace: seq<Event>, x: Key): Flow {
    if trace == [] then Flow(0, 0, 0, 0, 0)
    else
      var before, ev, rest := LastState(chain, w, trace), trace[|trace| - 1], FlowOf(chain, w, trace[..|trace| - 1], x);
      if !Spends(chain, before, ev) then rest
      else
        var a := ev.op.transfer;
        Flow(rest.volume + a.amount,
             rest.protocolFees + ProtocolFee(a),
             rest.developerFees + DeveloperFee(before, a),
             rest.debited + Debit(a, x),
             rest.credited + Credit(before, a, x))
  }

  ghost predicate Settles(w: World, w': World, flow: Flow, x: Key) {
    && Balance(w'.balances, x) == Balance(w.balances, x) - flow.debited + flow.credited
    && w'.vault.totalVolume == w.vault.totalVolume + flow.volume
    && w'.vault.totalFeesCollected == w.vault.totalFeesCollected + flow.developerFees
    && 0 <= flow.protocolFees && 0 <= flow.developerFees && flow.protocolFees + flow.developerFees <= flow.volume
  }

  /** Over every run, from any state, every token account ends with exactly what was credited to
      and debited from it, the volume counter grows by all amounts sent, and the fee counter by
      the developer fees. */
  lemma {:induction false} RunConserves(chain: Chain, w: World, trace: seq<Event>, x: Key)
    ensures Settles(w, After(chain, w, trace), FlowOf(chain, w, trace, x), x)
  {
    if trace != [] {
      var before, ev := LastState(chain, w, trace), trace[|trace| - 1];
      RunConserves(chain, w, trace[..|trace| - 1], x);
      if Spends(chain, before, ev) {
        TransferConserves(chain, before, ev.op.transfer, ev.clock);
        assert After(chain, w, trace) == TransferStep(chain, before, ev.op.transfer, ev.clock).value;
        hide Exec, TransferStep, ProtocolFee, DeveloperFee, Credit, Debit, Balance;
      } else if Exec(chain, before, ev).Ok? {
        OnlyTransfersMoveMoney(chain, before, ev);
        hide Exec, Balance;
      }
    }
  }

  /** With one vault account that is never a receiver: its decrease is the growth of the volume
      counter, and nothing but fees and net amounts leaves it. */
  lemma {:induction false} VaultPaysItsVolume(chain: Chain, w: World, trace: seq<Event>, vaultToken: Key)
    requires forall i :: 0 <= i < |trace| && trace[i].op.AgentTransfer? ==>
               var a := trace[i].op.transfer;
               && a.vaultToken.address == vaultToken && a.destination.address != vaultToken
               && (a.treasury.Some? ==> a.treasury.value.address != vaultToken)
               && (a.feeDestination.Some? ==> a.feeDestination.value.address != vaultToken)
    ensures var flow := FlowOf(chain, w, trace, vaultToken); flow.debited == flow.volume && flow.credited == 0
    ensures Balance(w.balances, vaultToken) - Balance(After(chain, w, trace).balances, vaultToken) ==
            After(chain, w, trace).vault.totalVolume - w.vault.totalVolume
  {
    RunConserves(chain, w, trace, vaultToken);
    hide Exec, Balance, ProtocolFee, DeveloperFee;
    if trace != [] {
      var k := |trace| - 1;
      assert forall i :: 0 <= i < k ==> trace[..k][i] == trace[i];
      VaultPaysItsVolume(chain, w, trace[..k], vaultToken);
      assert trace[k].op.AgentTransfer? ==> trace[k].op.transfer.vaultToken.address == vaultToken;
    }
  }

  // ---- Sums over accounts ----

  ghost function SumOver(accounts: seq<Key>, f: Key -> int): int {
    if accounts == [] then 0 else SumOver(accounts[..|accounts| - 1], f) + f(accounts[|accounts| - 1])
  }

  ghost predicate Distinct(accounts: seq<Key>) {
    forall i, j :: 0 <= i < j < |accounts| ==> accounts[i] != accounts[j]
  }

  lemma {:induction false} SumOfSums(accounts: seq<Key>, f: Key -> int, g: Key -> int, h: Key -> int)
    requires forall x :: h(x) == f(x) + g(x)
    ensures SumOver(accounts, h) == SumOver(accounts, f) + SumOver(accounts, g)
  {
    if accounts != [] {
      SumOfSums(accounts[..|accounts| - 1], f, g, h);
    }
  }

  function Only(y: Key, m: int): Key -> int {
    x => if x == y then m else 0
  }

  lemma {:induction false} SumOfOne(accounts: seq<Key>, y: Key, m: int)
    requires Distinct(accounts)
    ensures SumOver(accounts, Only(y, m)) == if y in accounts then m else 0
  {
    if accounts != [] {
      var k := |accounts| - 1;
      SumOfOne(accounts[..k], y, m);
      assert accounts == accounts[..k] + [accounts[k]];
    }
  }

  lemma {:induction false} SameSums(accounts: seq<Key>, f: Key -> int, g: Key -> int)
    requires forall x :: f(x) == g(x)
    ensures SumOver(accounts, f) == SumOver(accounts, g)
  {
    if accounts != [] {
      SameSums(accounts[..|accounts| - 1], f, g);
    }
  }

  function CreditsOf(w: World, a: Transfer): Key -> int {
    (x: Key) => Credit(w, a, x)
  }

  function DebitsOf(a: Transfer): Key -> int {
    (x: Key) => Debit(a, x)
  }

  ghost predicate Receives(a: Transfer, accounts: seq<Key>) {
    && a.destination.address in accounts
    && (a.treasury.Some? ==> a.treasury.value.address in accounts)
    && (a.feeDestination.Some? ==> a.feeDestination.value.address in accounts)
  }

  /** What a transfer credits to distinct accounts that hold all its receivers is its amount. */
  lemma CreditsMakeUpAmount(w: World, a: Transfer, receivers: seq<Key>)
    requires Distinct(receivers) && Receives(a, receivers)
    requires ProtocolFee(a) > 0 ==> a.treasury.Some?
    requires DeveloperFee(w, a) > 0 ==> a.feeDestination.Some?
    ensures SumOver(receivers, CreditsOf(w, a)) == a.amount
  {
    hide ClientCeilFee;
    var p, d := ProtocolFee(a), DeveloperFee(w, a);
    var net := Only(a.destination.address, a.amount - p - d);
    var treasury := if p > 0 then Only(a.treasury.value.address, p) else Only(0, 0);
    var developer := if d > 0 then Only(a.feeDestination.value.address, d) else Only(0, 0);
    var both := (x: Key) => net(x) + treasury(x);
    SumOfSums(receivers, net, treasury, both);
    SumOfSums(receivers, both, developer, CreditsOf(w, a));
    SumOfOne(receivers, a.destination.address, a.amount - p - d);
    SumOfOne(receivers, 0, 0);
    if p > 0 {
      SumOfOne(receivers, a.treasury.value.address, p);
    }
    if d > 0 {
      SumOfOne(receivers, a.feeDestination.value.address, d);
    }
  }

  lemma DebitIsAmount(a: Transfer, accounts: seq<Key>)
    requires Distinct(accounts)
    ensures SumOver(accounts, DebitsOf(a)) == if a.vaultToken.address in accounts then a.amount else 0
  {
    SumOfOne(accounts, a.vaultToken.address, a.amount);
    SameSums(accounts, DebitsOf(a), Only(a.vaultToken.address, a.amount));
  }

  /** A fee is only ever taken when its account is there. */
  lemma FeesNeedAccounts(chain: Chain, w: World, ev: Event)
    requires Spends(chain, w, ev)
    ensures ProtocolFee(ev.op.transfer) > 0 ==> ev.op.transfer.treasury.Some?
    ensures DeveloperFee(w, ev.op.transfer) > 0 ==> ev.op.transfer.feeDestination.Some?
  {
    ClientFeeAgrees(ev.op.transfer.amount, PROTOCOL_FEE_RATE);
    ClientFeeAgrees(ev.op.transfer.amount, w.policy.developerFeeRate);
    hide CeilFee, ClientCeilFee, Move, ChargeAgent, TransferChecks, T.Reading, T.Recorded, T.Recordable;
  }

  ghost function CreditedBy(chain: Chain, w: World, trace: seq<Event>): Key -> int {
    (x: Key) => FlowOf(chain, w, trace, x).credited
  }

  ghost function DebitedBy(chain: Chain, w: World, trace: seq<Event>): Key -> int {
    (x: Key) => FlowOf(chain, w, trace, x).debited
  }

  ghost predicate AllReceive(trace: seq<Event>, accounts: seq<Key>) {
    forall i :: 0 <= i < |trace| && trace[i].op.AgentTransfer? ==> Receives(trace[i].op.transfer, accounts)
  }

  /** Over every run, and any accounts that hold all receivers of its transfers: what they are
      credited together is the growth of the volume counter. */
  lemma {:induction false} ReceiversGetTheVolume(chain: Chain, w: World, trace: seq<Event>, receivers: seq<Key>)
    requires Distinct(receivers) && AllReceive(trace, receivers)
    ensures SumOver(receivers, CreditedBy(chain, w, trace)) == After(chain, w, trace).vault.totalVolume - w.vault.totalVolume
  {
    RunConserves(chain, w, trace, 0);
    hide Exec, Balance, ProtocolFee, DeveloperFee, Credit, Receives;
    if trace == [] {
      SumOfOne(receivers, 0, 0);
      SameSums(receivers, CreditedBy(chain, w, trace), Only(0, 0));
    } else {
      var k := |trace| - 1;
      var before, ev := LastState(chain, w, trace), trace[k];
      assert forall i :: 0 <= i < k ==> trace[..k][i] == trace[i];
      ReceiversGetTheVolume(chain, w, trace[..k], receivers);
      RunConserves(chain, w, trace[..k], 0);
      if Spends(chain, before, ev) {
        FeesNeedAccounts(chain, before, ev);
        CreditsMakeUpAmount(before, ev.op.transfer, receivers);
        SumOfSums(receivers, CreditedBy(chain, w, trace[..k]), CreditsOf(before, ev.op.transfer), CreditedBy(chain, w, trace));
      } else {
        SameSums(receivers, CreditedBy(chain, w, trace), CreditedBy(chain, w, trace[..k]));
      }
    }
  }

  lemma {:induction false} PayersLoseTheVolume(chain: Chain, w: World, trace: seq<Event>, accounts: seq<Key>)
    requires Distinct(accounts)
    requires forall i :: 0 <= i < |trace| && trace[i].op.AgentTransfer? ==> trace[i].op.transfer.vaultToken.address in accounts
    ensures SumOver(accounts, DebitedBy(chain, w, trace)) == After(chain, w, trace).vault.totalVolume - w.vault.totalVolume
  {
    RunConserves(chain, w, trace, 0);
    hide Exec, Balance, ProtocolFee, DeveloperFee, Debit;
    if trace == [] {
      SumOfOne(accounts, 0, 0);
      SameSums(accounts, DebitedBy(chain, w, trace), Only(0, 0));
    } else {
      var k := |trace| - 1;
      var before, ev := LastState(chain, w, trace), trace[k];
      assert forall i :: 0 <= i < k ==> trace[..k][i] == trace[i];
      PayersLoseTheVolume(chain, w, trace[..k], accounts);
      RunConserves(chain, w, trace[..k], 0);
      if Spends(chain, before, ev) {
        DebitIsAmount(ev.op.transfer, accounts);
        SumOfSums(accounts, DebitedBy(chain, w, trace[..k]), DebitsOf(ev.op.transfer), DebitedBy(chain, w, trace));
      } else {
        SameSums(accounts, DebitedBy(chain, w, trace), DebitedBy(chain, w, trace[..k]));
      }
    }
  }

  function BalancesOf(w: World): Key -> int {
    (x: Key) => Balance(w.balances, x)
  }

  /** No money is made or lost: over every run, from any state, the balances of accounts that
      hold all parties of its transfers add up to what they did before. */
  lemma MoneyIsConserved(chain: Chain, w: World, trace: seq<Event>, accounts: seq<Key>)
    requires Distinct(accounts) && AllReceive(trace, accounts)
    requires forall i :: 0 <= i < |trace| && trace[i].op.AgentTransfer? ==> trace[i].op.transfer.vaultToken.address in accounts
    ensures SumOver(accounts, BalancesOf(After(chain, w, trace))) == SumOver(accounts, BalancesOf(w))
  {
    ReceiversGetTheVolume(chain, w, trace, accounts);
    PayersLoseTheVolume(chain, w, trace, accounts);
    hide After, FlowOf, Balance;
    var debited, credited := DebitedBy(chain, w, trace), CreditedBy(chain, w, trace);
    var gross := (x: Key) => BalancesOf(w)(x) + credited(x);
    SumOfSums(accounts, BalancesOf(w), credited, gross);
    forall x: Key
      ensures gross(x) == BalancesOf(After(chain, w, trace))(x) + debited(x)
    {
      RunConserves(chain, w, trace, x);
    }
    SumOfSums(accounts, BalancesOf(After(chain, w, trace)), debited, gross);
  }

  /** Over every run in which developer fees go to one account that receives nothing else, that
      account is credited the growth of the fee counter. */
  lemma {:induction false} DeveloperGetsTheFees(chain: Chain, w: World, trace: seq<Event>, developer: Key)
    requires forall i :: 0 <= i < |trace| && trace[i].op.AgentTransfer? ==>
               var a := trace[i].op.transfer;
               && a.destination.address != developer && (a.treasury.Some? ==> a.treasury.value.address != developer)
               && (a.feeDestination.Some? ==> a.feeDestination.value.address == developer)
    ensures FlowOf(chain, w, trace, developer).credited ==
            After(chain, w, trace).vault.totalFeesCollected - w.vault.totalFeesCollected
  {
    RunConserves(chain, w, trace, developer);
    hide Exec, Balance, ProtocolFee, DeveloperFee;
    if trace != [] {
      var k := |trace| - 1;
      assert forall i :: 0 <= i < k ==> trace[..k][i] == trace[i];
      DeveloperGetsTheFees(chain, w, trace[..k], developer);
      RunConserves(chain, w, trace[..k], developer);
      if Spends(chain, LastState(chain, w, trace), trace[k]) {
        FeesNeedAccounts(chain, LastState(chain, w, trace), trace[k]);
      }
    }
  }
}
