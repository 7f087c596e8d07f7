/** Token transfers as the shield sees them: decoded from instruction bytes. */
module Inspector {
  import opened Common
  import opened Sandwich
  import S = Shield
  import R = ShieldRules

  const TRANSFER := 3
  const APPROVE := 4
  const REVOKE := 5
  const SET_AUTHORITY := 6
  const CLOSE_ACCOUNT := 9
  const TRANSFER_CHECKED := 12
  const APPROVE_CHECKED := 13

  datatype Danger = Approves | SetsAuthority | ClosesAccount | Revokes
  datatype DangerousOperation = DangerousOperation(kind: Danger, account: Key)

  /** A little-endian unsigned integer. */
  function FromLittleEndian(bytes: seq<Byte>): nat {
    if bytes == [] then 0 else bytes[0] + 256 * FromLittleEndian(bytes[1..])
  }

  function LittleEndian(n: nat, width: nat): seq<Byte> {
    if width == 0 then [] else [n % 256] + LittleEndian(n / 256, width - 1)
  }

  function Power256(k: nat): nat {
    if k == 0 then 1 else 256 * Power256(k - 1)
  }

  lemma {:induction false} LittleEndianRoundTrip(n: nat, width: nat)
    requires n < Power256(width)
    ensures |LittleEndian(n, width)| == width && FromLittleEndian(LittleEndian(n, width)) == n
  {
    if width > 0 {
      LittleEndianRoundTrip(n / 256, width - 1);
    }
  }

  /** The transfer an instruction makes, if it is one: plain transfers name no mint. */
  function Decode(tokenPrograms: set<Key>, ix: Instruction): Option<S.TokenTransfer> {
    if ix.program !in tokenPrograms || ix.data == [] then None
    else if ix.data[0] == TRANSFER && |ix.data| >= 9 && |ix.accounts| >= 3 then
      Some(S.TokenTransfer(None, FromLittleEndian(ix.data[1..9]), ix.accounts[0].address, ix.accounts[1].address, ix.accounts[2].address))
    else if ix.data[0] == TRANSFER_CHECKED && |ix.data| >= 10 && |ix.accounts| >= 4 then
      Some(S.TokenTransfer(Some(ix.accounts[1].address), FromLittleEndian(ix.data[1..9]), ix.accounts[0].address,
                           ix.accounts[2].address, ix.accounts[3].address))
    else None
  }

  function DecodeAll(tokenPrograms: set<Key>, ixs: seq<Instruction>): seq<S.TokenTransfer> {
    if ixs == [] then []
    else
      var last := Decode(tokenPrograms, ixs[|ixs| - 1]);
      DecodeAll(tokenPrograms, ixs[..|ixs| - 1]) + if last.Some? then [last.value] else []
  }

  function ValueOf(transfers: seq<S.TokenTransfer>, signer: Key): nat {
    if transfers == [] then 0
    else
      var last := transfers[|transfers| - 1];
      ValueOf(transfers[..|transfers| - 1], signer) + if last.authority == signer then last.amount else 0
  }

  function DangerOf(discriminator: Byte): Option<Danger> {
    if discriminator == APPROVE || discriminator == APPROVE_CHECKED then Some(Approves)
    else if discriminator == SET_AUTHORITY then Some(SetsAuthority)
    else if discriminator == CLOSE_ACCOUNT then Some(ClosesAccount)
    else if discriminator == REVOKE then Some(Revokes)
    else None
  }

  /** The dangerous operation an instruction is, if it is one on some account. */
  function Endangers(tokenPrograms: set<Key>, ix: Instruction): Option<DangerousOperation> {
    if ix.program !in tokenPrograms || ix.data == [] || ix.accounts == [] || DangerOf(ix.data[0]).None? then None
    else Some(DangerousOperation(DangerOf(ix.data[0]).value, ix.accounts[0].address))
  }

  function DangersOf(tokenPrograms: set<Key>, ixs: seq<Instruction>): seq<DangerousOperation> {
    if ixs == [] then []
    else
      var last := Endangers(tokenPrograms, ixs[|ixs| - 1]);
      DangersOf(tokenPrograms, ixs[..|ixs| - 1]) + if last.Some? then [last.value] else []
  }

  /** No instruction is both a transfer and dangerous. */
  lemma TransfersAreNotDangerous(tokenPrograms: set<Key>, ix: Instruction)
    ensures Decode(tokenPrograms, ix).None? || Endangers(tokenPrograms, ix).None?
  {
  }

  /** So an analysis never lists more than there are instructions. */
  lemma {:induction false} AnalysisIsBounded(tokenPrograms: set<Key>, ixs: seq<Instruction>)
    ensures |DecodeAll(tokenPrograms, ixs)| + |DangersOf(tokenPrograms, ixs)| <= |ixs|
  {
    hide Decode, Endangers;
    if ixs != [] {
      AnalysisIsBounded(tokenPrograms, ixs[..|ixs| - 1]);
      TransfersAreNotDangerous(tokenPrograms, ixs[|ixs| - 1]);
    }
  }

  lemma AnalysisStep(tokenPrograms: set<Key>, ixs: seq<Instruction>, i: nat)
    requires i < |ixs|
    ensures var before, after, one := DecodeAll(tokenPrograms, ixs[..i]), DecodeAll(tokenPrograms, ixs[..i + 1]), Decode(tokenPrograms, ixs[i]);
            && (one.None? ==> after == before)
            && (one.Some? ==> after == before + [one.value])
    ensures var before, after, one := DangersOf(tokenPrograms, ixs[..i]), DangersOf(tokenPrograms, ixs[..i + 1]), Endangers(tokenPrograms, ixs[i]);
            && (one.None? ==> after == before)
            && (one.Some? ==> after == before + [one.value])
  {
    hide Decode, Endangers;
    assert ixs[..i + 1][..i] == ixs[..i];
  }

  lemma ValueOfStep(transfers: seq<S.TokenTransfer>, t: S.TokenTransfer, signer: Key)
    ensures ValueOf(transfers + [t], signer) == ValueOf(transfers, signer) + if t.authority == signer then t.amount else 0
  {
    assert (transfers + [t])[..|transfers|] == transfers;
  }

  /** The programs of these instructions, each once. */
  ghost predicate ProgramsOf(programs: seq<Key>, ixs: seq<Instruction>) {
    && (forall i, j :: 0 <= i < j < |programs| ==> programs[i] != programs[j])
    && (forall k :: 0 <= k < |ixs| ==> ixs[k].program in programs)
    && (forall p :: p in programs ==> exists k :: 0 <= k < |ixs| && ixs[k].program == p)
  }

  method AddProgram(programs: seq<Key>, ghost ixs: seq<Instruction>, ix: Instruction) returns (r: seq<Key>)
    requires ProgramsOf(programs, ixs)
    ensures ProgramsOf(r, ixs + [ix]) && programs <= r
  {
    ghost var more := ixs + [ix];
    assert forall k :: 0 <= k < |ixs| ==> more[k] == ixs[k];
    assert more[|ixs|] == ix;
    if ix.program in programs {
      return programs;
    }
    return programs + [ix.program];
  }

  /** One instruction's share of the analysis: a transfer, or a dangerous operation, or neither. */
  method Inspect(tokenPrograms: set<Key>, ix: Instruction) returns (transfer: Option<S.TokenTransfer>, danger: Option<DangerousOperation>)
    ensures transfer == Decode(tokenPrograms, ix) && danger == Endangers(tokenPrograms, ix)
  {
    hide FromLittleEndian;
    transfer, danger := None, None;
    if ix.program !in tokenPrograms || |ix.data| == 0 {
      return;
    }
    var discriminator := ix.data[0];
    if discriminator == TRANSFER {
      if |ix.data| < 9 || |ix.accounts| < 3 {
        return;
      }
      transfer := Some(S.TokenTransfer(None, FromLittleEndian(ix.data[1..9]), ix.accounts[0].address, ix.accounts[1].address,
                                       ix.accounts[2].address));
    } else if discriminator == TRANSFER_CHECKED {
      if |ix.data| < 10 || |ix.accounts| < 4 {
        return;
      }
      transfer := Some(S.TokenTransfer(Some(ix.accounts[1].address), FromLittleEndian(ix.data[1..9]), ix.accounts[0].address,
                                       ix.accounts[2].address, ix.accounts[3].address));
    }
    if |ix.accounts| >= 1 {
      if discriminator == APPROVE || discriminator == APPROVE_CHECKED {
        danger := Some(DangerousOperation(Approves, ix.accounts[0].address));
      } else if discriminator == SET_AUTHORITY {
        danger := Some(DangerousOperation(SetsAuthority, ix.accounts[0].address));
      } else if discriminator == CLOSE_ACCOUNT {
        danger := Some(DangerousOperation(ClosesAccount, ix.accounts[0].address));
      } else if discriminator == REVOKE {
        danger := Some(DangerousOperation(Revokes, ix.accounts[0].address));
      }
    }
  }

  /** The inspection loop: programs once each, transfers and dangerous operations in order, and
      the value leaving under the signer. */
  method AnalyzeInstructions(tokenPrograms: set<Key>, ixs: seq<Instruction>, signer: Key)
    returns (programs: seq<Key>, transfers: seq<S.TokenTransfer>, estimatedValue: nat, dangers: seq<DangerousOperation>)
    ensures ProgramsOf(programs, ixs)
    ensures transfers == DecodeAll(tokenPrograms, ixs)
    ensures estimatedValue == ValueOf(transfers, signer)
    ensures dangers == DangersOf(tokenPrograms, ixs)
  {
    assert DecodeAll(tokenPrograms, ixs[..0]) == [] && ValueOf([], signer) == 0 && DangersOf(tokenPrograms, ixs[..0]) == [];
    assert ProgramsOf([], ixs[..0]);
    hide DecodeAll, ValueOf, DangersOf, Decode, Endangers, ProgramsOf;
    programs, transfers, estimatedValue, dangers := [], [], 0, [];
    for i := 0 to |ixs|
      invariant ProgramsOf(programs, ixs[..i])
      invariant transfers == DecodeAll(tokenPrograms, ixs[..i])
      invariant estimatedValue == ValueOf(transfers, signer)
      invariant dangers == DangersOf(tokenPrograms, ixs[..i])
    {
      var ix := ixs[i];
      assert ixs[..i + 1] == ixs[..i] + [ix];
      AnalysisStep(tokenPrograms, ixs, i);
      programs := AddProgram(programs, ixs[..i], ix);
      var transfer, danger := Inspect(tokenPrograms, ix);
      if transfer.Some? {
        ValueOfStep(transfers, transfer.value, signer);
        transfers := transfers + [transfer.value];
        if transfer.value.authority == signer {
          estimatedValue := estimatedValue + transfer.value.amount;
        }
      }
      if danger.Some? {
        dangers := dangers + [danger.value];
      }
    }
    assert ixs[..|ixs|] == ixs;
  }

  /** A checked transfer as the token program's layout writes it. */
  function TransferChecked(program: Key, source: AccountMeta, mint: AccountMeta, destination: AccountMeta,
                           authority: AccountMeta, amount: nat, decimals: Byte): Instruction {
    Instruction(program, [source, mint, destination, authority], [TRANSFER_CHECKED] + LittleEndian(amount, 8) + [decimals])
  }

  /** Decoding inverts encoding for every 64-bit amount. */
  lemma DecodesWhatWasEncoded(tokenPrograms: set<Key>, program: Key, source: AccountMeta, mint: AccountMeta,
                              destination: AccountMeta, authority: AccountMeta, amount: nat, decimals: Byte)
    requires program in tokenPrograms && amount < Power256(8)
    ensures Decode(tokenPrograms, TransferChecked(program, source, mint, destination, authority, amount, decimals)) ==
            Some(S.TokenTransfer(Some(mint.address), amount, source.address, destination.address, authority.address))
  {
    LittleEndianRoundTrip(amount, 8);
    var ix := TransferChecked(program, source, mint, destination, authority, amount, decimals);
    assert ix.data[1..9] == LittleEndian(amount, 8);
  }

  /** A plain transfer as the token program's layout writes it. */
  function PlainTransfer(program: Key, source: AccountMeta, destination: AccountMeta, authority: AccountMeta, amount: nat): Instruction {
    Instruction(program, [source, destination, authority], [TRANSFER] + LittleEndian(amount, 8))
  }

  lemma DecodesPlainTransfers(tokenPrograms: set<Key>, program: Key, source: AccountMeta, destination: AccountMeta,
                              authority: AccountMeta, amount: nat)
    requires program in tokenPrograms && amount < Power256(8)
    ensures Decode(tokenPrograms, PlainTransfer(program, source, destination, authority, amount)) ==
            Some(S.TokenTransfer(None, amount, source.address, destination.address, authority.address))
  {
    LittleEndianRoundTrip(amount, 8);
    var ix := PlainTransfer(program, source, destination, authority, amount);
    assert ix.data[1..9] == LittleEndian(amount, 8);
  }

  lemma {:induction false} LittleEndianInverse(bytes: seq<Byte>)
    ensures FromLittleEndian(bytes) < Power256(|bytes|) && LittleEndian(FromLittleEndian(bytes), |bytes|) == bytes
  {
    if bytes != [] {
      LittleEndianInverse(bytes[1..]);
      var n, rest := FromLittleEndian(bytes[1..]), bytes[1..];
      LowByte(bytes[0], n);
      assert LittleEndian(bytes[0] + 256 * n, |bytes|) == [bytes[0]] + LittleEndian(n, |rest|);
      hide LittleEndian;
      assert bytes == [bytes[0]] + rest;
    }
  }

  lemma LowByte(b: Byte, n: nat)
    ensures (b + 256 * n) % 256 == b && (b + 256 * n) / 256 == n
  {
  }

  /** An instruction of a token program that starts with this tag and amount. */
  predicate Says(tokenPrograms: set<Key>, ix: Instruction, tag: Byte, amount: nat) {
    ix.program in tokenPrograms && amount < Power256(8) && [tag] + LittleEndian(amount, 8) <= ix.data
  }

  lemma SaysExactly(tokenPrograms: set<Key>, ix: Instruction, tag: Byte, amount: nat)
    ensures Says(tokenPrograms, ix, tag, amount) <==>
            && ix.program in tokenPrograms && |ix.data| >= 9 && ix.data[0] == tag && FromLittleEndian(ix.data[1..9]) == amount
  {
    if |ix.data| >= 9 {
      LittleEndianInverse(ix.data[1..9]);
    }
    if amount < Power256(8) {
      LittleEndianRoundTrip(amount, 8);
      var head := [tag] + LittleEndian(amount, 8);
      if head <= ix.data {
        assert ix.data[..9] == head && ix.data[1..9] == head[1..] == LittleEndian(amount, 8);
      }
    }
    if |ix.data| >= 9 {
      assert ix.data[..9] == [ix.data[0]] + ix.data[1..9];
    }
    hide FromLittleEndian, LittleEndian, Power256;
  }

  /** The inspector sees exactly the two transfer layouts, and reads each field from its place. */
  lemma DecodeExactly(tokenPrograms: set<Key>, ix: Instruction, t: S.TokenTransfer)
    ensures Decode(tokenPrograms, ix) == Some(t) <==>
            || (&& Says(tokenPrograms, ix, 3, t.amount) && |ix.accounts| >= 3 && t.mint.None?
                && t.source == ix.accounts[0].address && t.destination == ix.accounts[1].address && t.authority == ix.accounts[2].address)
            || (&& Says(tokenPrograms, ix, 12, t.amount) && |ix.data| >= 10 && |ix.accounts| >= 4
                && t.mint == Some(ix.accounts[1].address)
                && t.source == ix.accounts[0].address && t.destination == ix.accounts[2].address && t.authority == ix.accounts[3].address)
  {
    SaysExactly(tokenPrograms, ix, 3, t.amount);
    SaysExactly(tokenPrograms, ix, 12, t.amount);
    hide Says, FromLittleEndian;
  }

  /** And exactly these operations as dangerous. */
  lemma EndangersExactly(tokenPrograms: set<Key>, ix: Instruction, op: DangerousOperation)
    ensures Endangers(tokenPrograms, ix) == Some(op) <==>
            && ix.program in tokenPrograms && ix.data != [] && ix.accounts != [] && op.account == ix.accounts[0].address
            && match op.kind
               case Approves => ix.data[0] == 4 || ix.data[0] == 13
               case Revokes => ix.data[0] == 5
               case SetsAuthority => ix.data[0] == 6
               case ClosesAccount => ix.data[0] == 9
  {
  }

  /** Both lists go through the instructions in order. */
  lemma {:induction false} AnalysisInOrder(tokenPrograms: set<Key>, a: seq<Instruction>, b: seq<Instruction>)
    ensures DecodeAll(tokenPrograms, a + b) == DecodeAll(tokenPrograms, a) + DecodeAll(tokenPrograms, b)
    ensures DangersOf(tokenPrograms, a + b) == DangersOf(tokenPrograms, a) + DangersOf(tokenPrograms, b)
  {
    hide Decode, Endangers;
    if b == [] {
      assert a + b == a;
    } else {
      var k := |b| - 1;
      AnalysisInOrder(tokenPrograms, a, b[..k]);
      assert (a + b)[..|a + b| - 1] == a + b[..k];
    }
  }

  lemma AnalysisOfOne(tokenPrograms: set<Key>, ix: Instruction)
    ensures DecodeAll(tokenPrograms, [ix]) == if Decode(tokenPrograms, ix).Some? then [Decode(tokenPrograms, ix).value] else []
    ensures DangersOf(tokenPrograms, [ix]) == if Endangers(tokenPrograms, ix).Some? then [Endangers(tokenPrograms, ix).value] else []
  {
    hide Decode, Endangers;
    assert [ix][..0] == [];
  }

  function Whole(): S.TokenTransfer -> nat {
    (t: S.TokenTransfer) => t.amount
  }

  /** The value is the sum of what leaves under the signer. */
  lemma {:induction false} ValueExactly(transfers: seq<S.TokenTransfer>, signer: Key)
    ensures ValueOf(transfers, signer) == R.Sum(transfers, R.By(signer, Whole()))
  {
    if transfers != [] {
      ValueExactly(transfers[..|transfers| - 1], signer);
    }
  }

  lemma {:induction false} ValueOfOutgoing(transfers: seq<S.TokenTransfer>, signer: Key, mint: Key)
    ensures S.TxSpend(S.Outgoing(transfers, signer), mint) <= ValueOf(transfers, signer)
  {
    if transfers != [] {
      var k := |transfers| - 1;
      ValueOfOutgoing(transfers[..k], signer, mint);
      var out := S.Outgoing(transfers[..k], signer);
      assert out + [] == out;
      assert (out + [transfers[k]])[..|out|] == out;
    }
  }

  /** What the shield holds against any one limit never exceeds the value the inspector
      reports as leaving. */
  lemma LimitsSeeAtMostTheValue(tokenPrograms: set<Key>, ixs: seq<Instruction>, signer: Key, mint: Key)
    ensures S.TxSpend(S.Outgoing(DecodeAll(tokenPrograms, ixs), signer), mint) <= ValueOf(DecodeAll(tokenPrograms, ixs), signer)
  {
    ValueOfOutgoing(DecodeAll(tokenPrograms, ixs), signer, mint);
  }
}
