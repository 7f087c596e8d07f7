/** Composing the validate / DeFi / finalize sandwich, rewriting the agent's token accounts, and
    reading a compiled message back. */
module Sandwich {
  import opened Common

  datatype Role = Readonly | Writable | ReadonlySigner | WritableSigner
  datatype AccountMeta = AccountMeta(address: Key, role: Role)
  datatype Instruction = Instruction(program: Key, accounts: seq<AccountMeta>, data: seq<Byte>)

  predicate IsWritable(r: Role) {
    r == Writable || r == WritableSigner
  }

  // ---- replaceAgentAtas ----

  function RewriteMeta(a: AccountMeta, m: map<Key, Key>): AccountMeta {
    if a.address in m && IsWritable(a.role) then a.(address := m[a.address]) else a
  }

  function RewriteInstruction(ix: Instruction, m: map<Key, Key>): Instruction {
    ix.(accounts := seq(|ix.accounts|, i requires 0 <= i < |ix.accounts| => RewriteMeta(ix.accounts[i], m)))
  }

  function Rewrite(ixs: seq<Instruction>, m: map<Key, Key>): seq<Instruction> {
    if m == map[] then ixs
    else seq(|ixs|, i requires 0 <= i < |ixs| => RewriteInstruction(ixs[i], m))
  }

  /** Only mapped writable addresses change; order, programs, data, roles and counts stay. */
  lemma RewriteChangesOnlyMappedWritables(ixs: seq<Instruction>, m: map<Key, Key>, i: nat, j: nat)
    requires i < |ixs| && j < |ixs[i].accounts|
    ensures |Rewrite(ixs, m)| == |ixs| && |Rewrite(ixs, m)[i].accounts| == |ixs[i].accounts|
    ensures Rewrite(ixs, m)[i].program == ixs[i].program && Rewrite(ixs, m)[i].data == ixs[i].data
    ensures var a, b := ixs[i].accounts[j], Rewrite(ixs, m)[i].accounts[j];
            && b.role == a.role
            && (b != a ==> a.address in m && IsWritable(a.role) && b.address == m[a.address])
            && (a.address in m && IsWritable(a.role) ==> b.address == m[a.address])
  {
    assert Rewrite(ixs, m)[i] == if m == map[] then ixs[i] else RewriteInstruction(ixs[i], m);
  }

  /** No target is itself rewritten to something else. */
  predicate Settled(m: map<Key, Key>) {
    forall k :: k in m && m[k] in m ==> m[m[k]] == m[k]
  }

  ghost predicate Idempotent(m: map<Key, Key>) {
    forall ixs: seq<Instruction> :: Rewrite(Rewrite(ixs, m), m) == Rewrite(ixs, m)
  }

  lemma RewriteTwice(ix: Instruction, m: map<Key, Key>)
    requires Settled(m)
    ensures RewriteInstruction(RewriteInstruction(ix, m), m) == RewriteInstruction(ix, m)
  {
    var once := RewriteInstruction(ix, m);
    forall i | 0 <= i < |ix.accounts|
      ensures RewriteMeta(once.accounts[i], m) == once.accounts[i]
    {
      assert once.accounts[i] == RewriteMeta(ix.accounts[i], m);
    }
    assert RewriteInstruction(once, m).accounts == once.accounts;
  }

  /** The rewrite is idempotent on all instruction lists exactly when every target that is also
      a key maps to itself. */
  lemma IdempotentExactly(m: map<Key, Key>)
    ensures Idempotent(m) <==> Settled(m)
  {
    if Settled(m) {
      forall ixs: seq<Instruction>
        ensures Rewrite(Rewrite(ixs, m), m) == Rewrite(ixs, m)
      {
        forall i | 0 <= i < |ixs|
          ensures RewriteInstruction(RewriteInstruction(ixs[i], m), m) == RewriteInstruction(ixs[i], m)
        {
          RewriteTwice(ixs[i], m);
        }
        assert Rewrite(Rewrite(ixs, m), m) == Rewrite(ixs, m);
      }
    } else {
      var k :| k in m && m[k] in m && m[m[k]] != m[k];
      var ixs := [Instruction(0, [AccountMeta(k, Writable)], [])];
      assert Rewrite(ixs, m)[0].accounts[0] == AccountMeta(m[k], Writable);
      assert Rewrite(Rewrite(ixs, m), m)[0].accounts[0] == AccountMeta(m[m[k]], Writable);
    }
  }

  /** Replacements that no extra pair may override: the agent's token account, and its stablecoin
      account when there is one to put in its place. */
  predicate Reserved(agentTokenAta: Key, agentStableAta: Option<Key>, outputStable: Option<Key>, k: Key) {
    k == agentTokenAta || (agentStableAta == Some(k) && outputStable.Some?)
  }

  /** One of the first n extra pairs is for key k. */
  predicate Named(extra: seq<(Key, Key)>, n: nat, k: Key)
    requires n <= |extra|
  {
    exists j :: 0 <= j < n && extra[j].0 == k
  }

  /** The replacement map is the reserved pairs and every extra one, the stablecoin pair winning over
      the token pair; it is refused exactly when some extra pair would override another. */
  method BuildReplacements(agentTokenAta: Key, vaultTokenAccount: Key, agentStableAta: Option<Key>, outputStable: Option<Key>,
                           extra: seq<(Key, Key)>) returns (r: Option<map<Key, Key>>)
    ensures r.Some? <==> forall i :: 0 <= i < |extra| ==>
                           !Reserved(agentTokenAta, agentStableAta, outputStable, extra[i].0) && !Named(extra, i, extra[i].0)
    ensures r.Some? ==> forall i :: 0 <= i < |extra| ==> extra[i].0 in r.value && r.value[extra[i].0] == extra[i].1
    ensures r.Some? && agentStableAta.Some? && outputStable.Some? ==>
              agentStableAta.value in r.value && r.value[agentStableAta.value] == outputStable.value
    ensures r.Some? && (agentStableAta == Some(agentTokenAta) ==> outputStable.None?) ==>
              agentTokenAta in r.value && r.value[agentTokenAta] == vaultTokenAccount
    ensures r.Some? ==> forall k :: k in r.value ==>
                          Reserved(agentTokenAta, agentStableAta, outputStable, k) || Named(extra, |extra|, k)
  {
    var m: map<Key, Key> := map[agentTokenAta := vaultTokenAccount];
    if agentStableAta.Some? && outputStable.Some? {
      m := m[agentStableAta.value := outputStable.value];
    }
    ghost var reserved := m;
    for i := 0 to |extra|
      invariant forall k :: k in reserved ==> k in m && m[k] == reserved[k]
      invariant forall j :: 0 <= j < i ==> extra[j].0 in m && m[extra[j].0] == extra[j].1
      invariant forall k :: k in m ==> k in reserved || Named(extra, i, k)
      invariant forall j :: 0 <= j < i ==> extra[j].0 !in reserved && !Named(extra, j, extra[j].0)
    {
      if extra[i].0 in m {
        return None;
      }
      m := m[extra[i].0 := extra[i].1];
    }
    return Some(m);
  }

  // ---- Composition and the session-binding check ----

  const COMPUTE_BUDGET: Key := 1

  /** The program's address and the two discriminators are parameters of the check. */
  datatype Program = Program(address: Key, validate: seq<Byte>, finalize: seq<Byte>)

  function Compose(limitData: seq<Byte>, price: Option<seq<Byte>>, validateIx: Instruction, defi: seq<Instruction>,
                   finalizeIx: Instruction): seq<Instruction> {
    [Instruction(COMPUTE_BUDGET, [], limitData)]
    + (if price.Some? then [Instruction(COMPUTE_BUDGET, [], price.value)] else [])
    + [validateIx] + defi + [finalizeIx]
  }

  /** The composer, pushing one instruction after the other: a compute limit, a price if one is set,
      then the sandwich with every DeFi instruction in its place. */
  method ComposeTransaction(limitData: seq<Byte>, price: Option<seq<Byte>>, validateIx: Instruction, defi: seq<Instruction>,
                            finalizeIx: Instruction) returns (ixs: seq<Instruction>)
    ensures ixs == Compose(limitData, price, validateIx, defi, finalizeIx)
    ensures var v := if price.Some? then 2 else 1;
            && |ixs| == v + |defi| + 2
            && ixs[0] == Instruction(COMPUTE_BUDGET, [], limitData) && (price.Some? ==> ixs[1] == Instruction(COMPUTE_BUDGET, [], price.value))
            && ixs[v] == validateIx && ixs[|ixs| - 1] == finalizeIx
            && forall k :: 0 <= k < |defi| ==> ixs[v + 1 + k] == defi[k]
  {
    ixs := [Instruction(COMPUTE_BUDGET, [], limitData)];
    if price.Some? {
      ixs := ixs + [Instruction(COMPUTE_BUDGET, [], price.value)];
    }
    ixs := ixs + [validateIx];
    ixs := ixs + defi;
    ixs := ixs + [finalizeIx];
  }

  datatype CompiledInstruction = CompiledInstruction(programIndex: nat, accountIndices: seq<nat>, data: seq<Byte>)
  datatype Lookup = Lookup(table: Key, writableIndexes: seq<nat>, readonlyIndexes: seq<nat>)
  datatype Message = Message(staticAccounts: seq<Key>, instructions: seq<CompiledInstruction>, lookups: seq<Lookup>)

  /** A message carries the instructions in order, with each program among its static accounts. */
  ghost predicate Carries(msg: Message, ixs: seq<Instruction>) {
    && |msg.instructions| == |ixs|
    && forall i :: 0 <= i < |ixs| ==>
         && msg.instructions[i].programIndex < |msg.staticAccounts|
         && msg.staticAccounts[msg.instructions[i].programIndex] == ixs[i].program
         && msg.instructions[i].data == ixs[i].data
  }

  predicate IsOf(msg: Message, ix: CompiledInstruction, program: Key) {
    ix.programIndex < |msg.staticAccounts| && msg.staticAccounts[ix.programIndex] == program
  }

  function ProgramInstructions(msg: Message, ixs: seq<CompiledInstruction>, program: Key): seq<CompiledInstruction> {
    if ixs == [] then []
    else
      (if IsOf(msg, ixs[0], program) then [ixs[0]] else []) + ProgramInstructions(msg, ixs[1..], program)
  }

  predicate Matches(data: seq<Byte>, discriminator: seq<Byte>) {
    |data| >= 8 && discriminator <= data
  }

  /** checkSessionBinding with severity "hard": true is acceptance, false a denial. */
  predicate SessionBound(msg: Message, p: Program) {
    msg.staticAccounts != [] && msg.instructions != [] &&
    var own := ProgramInstructions(msg, msg.instructions, p.address);
    own != [] && Matches(own[0].data, p.validate) && Matches(own[|own| - 1].data, p.finalize)
  }

  lemma {:induction false} FirstOwn(msg: Message, ixs: seq<CompiledInstruction>, program: Key, i: nat)
    requires i < |ixs| && IsOf(msg, ixs[i], program)
    requires forall j :: 0 <= j < i ==> !IsOf(msg, ixs[j], program)
    ensures var own := ProgramInstructions(msg, ixs, program); own != [] && own[0] == ixs[i]
  {
    if i > 0 {
      FirstOwn(msg, ixs[1..], program, i - 1);
    }
  }

  lemma {:induction false} LastOwn(msg: Message, ixs: seq<CompiledInstruction>, program: Key)
    requires ixs != [] && IsOf(msg, ixs[|ixs| - 1], program)
    ensures var own := ProgramInstructions(msg, ixs, program); own != [] && own[|own| - 1] == ixs[|ixs| - 1]
  {
    if |ixs| > 1 {
      LastOwn(msg, ixs[1..], program);
    }
  }

  /** Instruction k of the message is one of the program's. */
  predicate Owns(msg: Message, p: Program, k: int) {
    && 0 <= k < |msg.instructions| && msg.instructions[k].programIndex < |msg.staticAccounts|
    && msg.staticAccounts[msg.instructions[k].programIndex] == p.address
  }

  /** Instructions i and j are the program's first and last, a validate and a finalize. */
  ghost predicate BoundBetween(msg: Message, p: Program, i: int, j: int) {
    && i <= j && Owns(msg, p, i) && Owns(msg, p, j)
    && (forall k :: 0 <= k < i ==> !Owns(msg, p, k)) && (forall k :: j < k < |msg.instructions| ==> !Owns(msg, p, k))
    && |msg.instructions[i].data| >= 8 && p.validate <= msg.instructions[i].data
    && |msg.instructions[j].data| >= 8 && p.finalize <= msg.instructions[j].data
  }

  lemma {:induction false} LastOwnAt(msg: Message, ixs: seq<CompiledInstruction>, program: Key, j: nat)
    requires j < |ixs| && IsOf(msg, ixs[j], program)
    requires forall k :: j < k < |ixs| ==> !IsOf(msg, ixs[k], program)
    ensures var own := ProgramInstructions(msg, ixs, program); own != [] && own[|own| - 1] == ixs[j]
  {
    if j > 0 {
      LastOwnAt(msg, ixs[1..], program, j - 1);
    } else {
      NoneOwn(msg, ixs[1..], program);
    }
  }

  lemma {:induction false} NoneOwn(msg: Message, ixs: seq<CompiledInstruction>, program: Key)
    requires forall k :: 0 <= k < |ixs| ==> !IsOf(msg, ixs[k], program)
    ensures ProgramInstructions(msg, ixs, program) == []
  {
    if ixs != [] {
      NoneOwn(msg, ixs[1..], program);
    }
  }

  lemma FirstAndLast(msg: Message, ixs: seq<CompiledInstruction>, program: Key) returns (i: nat, j: nat)
    requires ProgramInstructions(msg, ixs, program) != []
    ensures i <= j < |ixs| && IsOf(msg, ixs[i], program) && IsOf(msg, ixs[j], program)
    ensures forall k :: 0 <= k < i ==> !IsOf(msg, ixs[k], program)
    ensures forall k :: j < k < |ixs| ==> !IsOf(msg, ixs[k], program)
  {
    if forall k :: 0 <= k < |ixs| ==> !IsOf(msg, ixs[k], program) {
      NoneOwn(msg, ixs, program);
    }
    i := 0;
    while !IsOf(msg, ixs[i], program)
      invariant i < |ixs| && forall k :: 0 <= k < i ==> !IsOf(msg, ixs[k], program)
      decreases |ixs| - i
    {
      i := i + 1;
    }
    j := |ixs| - 1;
    while !IsOf(msg, ixs[j], program)
      invariant i <= j < |ixs| && forall k :: j < k < |ixs| ==> !IsOf(msg, ixs[k], program)
      decreases j
    {
      j := j - 1;
    }
  }

  /** The hard check accepts exactly the messages in which the program's first own instruction is a
      validate and its last a finalize, wherever they are. */
  lemma BoundExactly(msg: Message, p: Program)
    ensures SessionBound(msg, p) <==> exists i, j :: BoundBetween(msg, p, i, j)
  {
    var ixs := msg.instructions;
    if ProgramInstructions(msg, ixs, p.address) != [] {
      var i, j := FirstAndLast(msg, ixs, p.address);
      FirstOwn(msg, ixs, p.address, i);
      LastOwnAt(msg, ixs, p.address, j);
      hide ProgramInstructions;
      assert Owns(msg, p, i) && Owns(msg, p, j);
      if SessionBound(msg, p) {
        assert BoundBetween(msg, p, i, j);
      }
      forall a, b | BoundBetween(msg, p, a, b)
        ensures a == i && b == j
      {
        assert Owns(msg, p, a) && Owns(msg, p, b);
      }
    } else {
      forall a, b | BoundBetween(msg, p, a, b)
        ensures false
      {
        forall k | b < k < |ixs|
          ensures !IsOf(msg, ixs[k], p.address)
        {
          assert !Owns(msg, p, k);
        }
        LastOwnAt(msg, ixs, p.address, b);
      }
    }
  }

  /** However the composed instructions are compiled, and whatever DeFi instructions are between,
      the program's own included, the hard check accepts. */
  lemma ComposedIsBound(p: Program, limitData: seq<Byte>, price: Option<seq<Byte>>, validateIx: Instruction,
                        defi: seq<Instruction>, finalizeIx: Instruction, msg: Message)
    requires p.address != COMPUTE_BUDGET
    requires validateIx.program == p.address && Matches(validateIx.data, p.validate)
    requires finalizeIx.program == p.address && Matches(finalizeIx.data, p.finalize)
    requires Carries(msg, Compose(limitData, price, validateIx, defi, finalizeIx))
    ensures SessionBound(msg, p)
  {
    var ixs := Compose(limitData, price, validateIx, defi, finalizeIx);
    var v := if price.Some? then 2 else 1;
    assert ixs[v] == validateIx && ixs[|ixs| - 1] == finalizeIx;
    assert forall j :: 0 <= j < v ==> ixs[j].program == COMPUTE_BUDGET;
    FirstOwn(msg, msg.instructions, p.address, v);
    LastOwn(msg, msg.instructions, p.address);
  }

  /** Rewriting the DeFi instructions first changes nothing about that. */
  lemma RewrittenIsBound(p: Program, limitData: seq<Byte>, price: Option<seq<Byte>>, validateIx: Instruction,
                         defi: seq<Instruction>, m: map<Key, Key>, finalizeIx: Instruction, msg: Message)
    requires p.address != COMPUTE_BUDGET
    requires validateIx.program == p.address && Matches(validateIx.data, p.validate)
    requires finalizeIx.program == p.address && Matches(finalizeIx.data, p.finalize)
    requires Carries(msg, Compose(limitData, price, validateIx, Rewrite(defi, m), finalizeIx))
    ensures SessionBound(msg, p)
  {
    ComposedIsBound(p, limitData, price, validateIx, Rewrite(defi, m), finalizeIx, msg);
  }

  /** Byte by byte comparison of a prefix. */
  method MatchesDiscriminator(data: seq<Byte>, discriminator: seq<Byte>) returns (ok: bool)
    ensures ok <==> discriminator <= data
  {
    if |data| < |discriminator| {
      return false;
    }
    for i := 0 to |discriminator|
      invariant data[..i] == discriminator[..i]
    {
      if data[i] != discriminator[i] {
        return false;
      }
    }
    return true;
  }

  /** checkSessionBinding: the program's own instructions picked out, then the first and the
      last of them looked at. */
  method CheckSessionBinding(msg: Message, p: Program) returns (ok: bool)
    ensures ok == SessionBound(msg, p)
    ensures ok <==> exists i, j :: BoundBetween(msg, p, i, j)
  {
    BoundExactly(msg, p);
    hide BoundBetween;
    if msg.staticAccounts == [] || msg.instructions == [] {
      return false;
    }
    var own := [];
    for i := 0 to |msg.instructions|
      invariant own == ProgramInstructions(msg, msg.instructions[..i], p.address)
    {
      OwnStep(msg, msg.instructions, p.address, i);
      if IsOf(msg, msg.instructions[i], p.address) {
        own := own + [msg.instructions[i]];
      }
    }
    assert msg.instructions[..|msg.instructions|] == msg.instructions;
    if own == [] {
      return false;
    }
    var first, last := own[0].data, own[|own| - 1].data;
    var hasValidate := MatchesDiscriminator(first, p.validate);
    var hasFinalize := MatchesDiscriminator(last, p.finalize);
    return |first| >= 8 && hasValidate && |last| >= 8 && hasFinalize;
  }

  lemma {:induction false} OwnStep(msg: Message, ixs: seq<CompiledInstruction>, program: Key, i: nat)
    requires i < |ixs|
    ensures ProgramInstructions(msg, ixs[..i + 1], program) ==
            ProgramInstructions(msg, ixs[..i], program) + if IsOf(msg, ixs[i], program) then [ixs[i]] else []
  {
    if i > 0 {
      OwnStep(msg, ixs[1..], program, i - 1);
      assert ixs[..i + 1][1..] == ixs[1..][..i] && ixs[..i][1..] == ixs[1..][..i - 1];
    } else {
      assert ixs[..1][1..] == [] && ixs[..0] == [];
    }
  }

  // ---- Reading a compiled message back ----

  type Tables = map<Key, seq<Key>>

  function Pick(table: seq<Key>, indexes: seq<nat>): seq<Key> {
    seq(|indexes|, i requires 0 <= i < |indexes| => if indexes[i] < |table| then table[indexes[i]] else DEFAULT_KEY)
  }

  /** One pass over the lookups whose table is known: all writable or all readonly entries. */
  function Pass(lookups: seq<Lookup>, tables: Tables, writable: bool): seq<Key> {
    if lookups == [] then []
    else
      var l := lookups[0];
      (if l.table in tables then Pick(tables[l.table], if writable then l.writableIndexes else l.readonlyIndexes) else [])
      + Pass(lookups[1..], tables, writable)
  }

  /** The combined table: static accounts, then all writables of all lookups, then all readonlys.
      Each pass asks the cache anew, so a table may be there for the first and gone for the second. */
  function AccountTable(msg: Message, first: Tables, second: Tables): seq<Key> {
    msg.staticAccounts + Pass(msg.lookups, first, true) + Pass(msg.lookups, second, false)
  }

  /** How many addresses the first k lookups bring to a pass, when all their tables are there. */
  function Brought(lookups: seq<Lookup>, k: nat, writable: bool): nat
    requires k <= |lookups|
  {
    if k == 0 then 0
    else Brought(lookups, k - 1, writable) + |if writable then lookups[k - 1].writableIndexes else lookups[k - 1].readonlyIndexes|
  }

  lemma {:induction false} PassAt(lookups: seq<Lookup>, tables: Tables, writable: bool, k: nat, j: nat)
    requires forall i :: 0 <= i < |lookups| ==> lookups[i].table in tables
    requires k < |lookups|
    requires j < |if writable then lookups[k].writableIndexes else lookups[k].readonlyIndexes|
    ensures |Pass(lookups, tables, writable)| == Brought(lookups, |lookups|, writable)
    ensures var l := lookups[k];
            var table, index := tables[l.table], (if writable then l.writableIndexes else l.readonlyIndexes)[j];
            && Brought(lookups, k, writable) + j < |Pass(lookups, tables, writable)|
            && Pass(lookups, tables, writable)[Brought(lookups, k, writable) + j] == if index < |table| then table[index] else DEFAULT_KEY
  {
    hide Pass, Brought, Pick;
    PassSplit(lookups, tables, writable, k);
    PassLength(lookups, tables, writable, |lookups|);
    assert lookups[..|lookups|] == lookups;
    PassLength(lookups, tables, writable, k);
    assert lookups[k..] == [lookups[k]] + lookups[k + 1..];
    PassConcat([lookups[k]], lookups[k + 1..], tables, writable);
    OnePass(lookups[k], tables, writable);
    var l := lookups[k];
    var indexes := if writable then l.writableIndexes else l.readonlyIndexes;
    PickAt(tables[l.table], indexes, j);
    InTheMiddle(Pass(lookups[..k], tables, writable), Pick(tables[l.table], indexes), Pass(lookups[k + 1..], tables, writable), j);
  }

  lemma PickAt(table: seq<Key>, indexes: seq<nat>, j: nat)
    requires j < |indexes|
    ensures |Pick(table, indexes)| == |indexes|
    ensures Pick(table, indexes)[j] == if indexes[j] < |table| then table[indexes[j]] else DEFAULT_KEY
  {
  }

  lemma InTheMiddle(a: seq<Key>, x: seq<Key>, b: seq<Key>, j: nat)
    requires j < |x|
    ensures |a| + j < |a + (x + b)| && (a + (x + b))[|a| + j] == x[j]
  {
  }

  lemma PassSplit(lookups: seq<Lookup>, tables: Tables, writable: bool, k: nat)
    requires k <= |lookups|
    ensures Pass(lookups, tables, writable) == Pass(lookups[..k], tables, writable) + Pass(lookups[k..], tables, writable)
  {
    assert lookups == lookups[..k] + lookups[k..];
    PassConcat(lookups[..k], lookups[k..], tables, writable);
  }

  lemma {:induction false} PassLength(lookups: seq<Lookup>, tables: Tables, writable: bool, k: nat)
    requires k <= |lookups| && forall i :: 0 <= i < |lookups| ==> lookups[i].table in tables
    ensures |Pass(lookups[..k], tables, writable)| == Brought(lookups, k, writable)
  {
    if k > 0 {
      PassLength(lookups, tables, writable, k - 1);
      assert lookups[..k] == lookups[..k - 1] + [lookups[k - 1]];
      PassConcat(lookups[..k - 1], [lookups[k - 1]], tables, writable);
      OnePass(lookups[k - 1], tables, writable);
    }
  }

  /** Where everything is in the combined table: static accounts first; then writable j of lookup k
      after all writables of earlier lookups; then the readonlys in the same way, after all
      writables of all lookups. An index beyond its table gives the system program. */
  lemma TableLayout(msg: Message, tables: Tables, k: nat, j: nat, writable: bool)
    requires forall i :: 0 <= i < |msg.lookups| ==> msg.lookups[i].table in tables
    requires k < |msg.lookups|
    requires j < |if writable then msg.lookups[k].writableIndexes else msg.lookups[k].readonlyIndexes|
    ensures msg.staticAccounts <= AccountTable(msg, tables, tables)
    ensures var l := msg.lookups[k];
            var table, index := tables[l.table], (if writable then l.writableIndexes else l.readonlyIndexes)[j];
            var at := |msg.staticAccounts| + (if writable then 0 else Brought(msg.lookups, |msg.lookups|, true)) + Brought(msg.lookups, k, writable) + j;
            && at < |AccountTable(msg, tables, tables)|
            && AccountTable(msg, tables, tables)[at] == if index < |table| then table[index] else DEFAULT_KEY
  {
    hide Pass, Brought;
    PassAt(msg.lookups, tables, writable, k, j);
    PassLength(msg.lookups, tables, true, |msg.lookups|);
    assert msg.lookups[..|msg.lookups|] == msg.lookups;
    var a, x, y, n := msg.staticAccounts, Pass(msg.lookups, tables, true), Pass(msg.lookups, tables, false), Brought(msg.lookups, k, writable) + j;
    if writable {
      InTheMiddle(a, x, y, n);
    } else {
      InTheMiddle(a + x, y, [], n);
      assert y + [] == y;
    }
    assert a + (x + y) == a + x + y;
  }

  /** Every table the message draws an address from is cached when it does. */
  predicate Covered(lookups: seq<Lookup>, first: Tables, second: Tables) {
    forall i :: 0 <= i < |lookups| ==>
      && (lookups[i].table !in first ==> lookups[i].writableIndexes == [])
      && (lookups[i].table !in second ==> lookups[i].readonlyIndexes == [])
  }

  ghost predicate Genuine(cached: Tables, actual: Tables) {
    forall k :: k in cached && k in actual ==> cached[k] == actual[k]
  }

  lemma {:induction false} PassLengths(lookups: seq<Lookup>, actual: Tables, cached: Tables, writable: bool)
    requires forall i :: 0 <= i < |lookups| ==> lookups[i].table in actual
    requires forall k :: k in cached && k in actual ==> cached[k] == actual[k]
    ensures |Pass(lookups, cached, writable)| <= |Pass(lookups, actual, writable)|
    ensures |Pass(lookups, cached, writable)| == |Pass(lookups, actual, writable)| ==>
              && Pass(lookups, cached, writable) == Pass(lookups, actual, writable)
              && forall i :: 0 <= i < |lookups| && lookups[i].table !in cached ==>
                   (if writable then lookups[i].writableIndexes else lookups[i].readonlyIndexes) == []
    ensures (forall i :: 0 <= i < |lookups| && lookups[i].table !in cached ==>
               (if writable then lookups[i].writableIndexes else lookups[i].readonlyIndexes) == []) ==>
              |Pass(lookups, cached, writable)| == |Pass(lookups, actual, writable)|
  {
    if lookups != [] {
      PassLengths(lookups[1..], actual, cached, writable);
      assert forall i :: 0 < i < |lookups| ==> lookups[i] == lookups[1..][i - 1];
    }
  }

  /** Extraction rebuilds the account table the message really has exactly when every table it
      draws an address from is cached at the pass that draws it. */
  lemma ExtractionIsExact(msg: Message, actual: Tables, first: Tables, second: Tables)
    requires forall i :: 0 <= i < |msg.lookups| ==> msg.lookups[i].table in actual
    requires Genuine(first, actual) && Genuine(second, actual)
    ensures AccountTable(msg, first, second) == AccountTable(msg, actual, actual) <==> Covered(msg.lookups, first, second)
  {
    PassLengths(msg.lookups, actual, first, true);
    PassLengths(msg.lookups, actual, second, false);
    var rebuilt, truth := AccountTable(msg, first, second), AccountTable(msg, actual, actual);
    assert |rebuilt| == |msg.staticAccounts| + |Pass(msg.lookups, first, true)| + |Pass(msg.lookups, second, false)|;
    assert |truth| == |msg.staticAccounts| + |Pass(msg.lookups, actual, true)| + |Pass(msg.lookups, actual, false)|;
  }

  lemma {:induction false} PassConcat(a: seq<Lookup>, b: seq<Lookup>, tables: Tables, writable: bool)
    ensures Pass(a + b, tables, writable) == Pass(a, tables, writable) + Pass(b, tables, writable)
  {
    if a == [] {
      assert a + b == b;
    } else {
      assert (a + b)[1..] == a[1..] + b;
      PassConcat(a[1..], b, tables, writable);
    }
  }

  /** A lookup whose table is missing leaves no gap: every address of a later lookup is found at an
      index too low by as many as the missing table would have brought. Shown for the writables of
      a message in which only lookup k is missing at the first pass. */
  lemma MissingTableShifts(msg: Message, actual: Tables, first: Tables, second: Tables, k: nat, j: nat)
    requires k < |msg.lookups| && forall i :: 0 <= i < |msg.lookups| ==> msg.lookups[i].table in actual
    requires Genuine(first, actual)
    requires forall i :: 0 <= i < |msg.lookups| ==> (msg.lookups[i].table in first <==> i != k)
    requires j < |Pass(msg.lookups[k + 1..], actual, true)|
    ensures var missing := |msg.lookups[k].writableIndexes|;
            var at := |msg.staticAccounts| + |Pass(msg.lookups[..k], actual, true)| + missing + j;
            && at < |AccountTable(msg, actual, actual)| && 0 <= at - missing < |AccountTable(msg, first, second)|
            && AccountTable(msg, first, second)[at - missing] == AccountTable(msg, actual, actual)[at]
  {
    var l := msg.lookups;
    hide Pass, Pick, Genuine;
    var before, later := l[..k], l[k + 1..];
    assert l == before + ([l[k]] + later);
    SamePass(before, actual, first, true);
    SamePass(later, actual, first, true);
    OnePass(l[k], actual, true);
    OnePass(l[k], first, true);
    PassConcat(before, [l[k]] + later, actual, true);
    PassConcat([l[k]], later, actual, true);
    PassConcat(before, [l[k]] + later, first, true);
    PassConcat([l[k]], later, first, true);
    Shift(msg.staticAccounts, Pass(before, actual, true), Pass([l[k]], actual, true), Pass(later, actual, true),
      Pass(l, actual, false), Pass(l, second, false), j);
    assert Pass(l, first, true) == Pass(before, actual, true) + ([] + Pass(later, actual, true));
  }

  lemma OnePass(l: Lookup, tables: Tables, writable: bool)
    ensures Pass([l], tables, writable) ==
            if l.table in tables then Pick(tables[l.table], if writable then l.writableIndexes else l.readonlyIndexes) else []
    ensures l.table in tables ==> |Pass([l], tables, writable)| == |if writable then l.writableIndexes else l.readonlyIndexes|
  {
    assert [l][1..] == [];
  }

  lemma Shift(a: seq<Key>, b: seq<Key>, missing: seq<Key>, later: seq<Key>, rest: seq<Key>, rest': seq<Key>, j: nat)
    requires j < |later|
    ensures var at := |a| + |b| + |missing| + j;
            var full, short := a + (b + (missing + later)) + rest, a + (b + ([] + later)) + rest';
            at < |full| && at - |missing| < |short| && short[at - |missing|] == full[at] == later[j]
  {
  }

  lemma {:induction false} SamePass(lookups: seq<Lookup>, actual: Tables, cached: Tables, writable: bool)
    requires forall i :: 0 <= i < |lookups| ==> lookups[i].table in actual && lookups[i].table in cached
    requires Genuine(cached, actual)
    ensures Pass(lookups, cached, writable) == Pass(lookups, actual, writable)
  {
    if lookups != [] {
      SamePass(lookups[1..], actual, cached, writable);
    }
  }
}
