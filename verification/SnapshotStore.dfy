/** BalanceSnapshotStore: a map and a list kept in step, bounded from the front, with a baseline
    that is never evicted, and a serialised form. */
module SnapshotStore {
  import opened Common
  import opened OrderedMap

  datatype TokenBalance = TokenBalance(mint: Key, balance: int, symbol: string, decimals: nat)
  type Balances = seq<TokenBalance>
  datatype Snapshot = Snapshot(timestamp: int, balances: Balances)
  datatype Store = Store(maxEntries: nat, baseline: Option<Snapshot>, snapshots: seq<(int, Balances)>, order: seq<int>)

  function Empty(maxEntries: nat): Store {
    Store(maxEntries, None, [], [])
  }

  function Evicted(s: Store): Store
    decreases |s.order|
  {
    if |s.order| <= s.maxEntries then s
    else Evicted(s.(order := s.order[1..], snapshots := Delete(s.snapshots, s.order[0])))
  }

  function Snapped(s: Store, timestamp: int, balances: Balances): Store {
    var s' := if s.baseline.None? then s.(baseline := Some(Snapshot(timestamp, balances))) else s;
    if Get(s.snapshots, timestamp).Some? then s'.(snapshots := Put(s.snapshots, timestamp, balances))
    else Evicted(s'.(snapshots := Put(s.snapshots, timestamp, balances), order := s.order + [timestamp]))
  }

  // ---- Every history ----

  datatype Op = Take(timestamp: int, balances: Balances) | Clear

  function Applied(s: Store, op: Op): Store {
    match op
    case Take(timestamp, balances) => Snapped(s, timestamp, balances)
    case Clear => Empty(s.maxEntries)
  }

  function After(maxEntries: nat, ops: seq<Op>): Store {
    if ops == [] then Empty(maxEntries) else Applied(After(maxEntries, ops[..|ops| - 1]), ops[|ops| - 1])
  }

  /** The list is the map's keys in insertion order, without duplicates. */
  ghost predicate InStep(s: Store) {
    Keys(s.snapshots) == s.order && Distinct(s.order)
  }

  /** Evicting keeps the map and the list in step and leaves exactly the newest entries. */
  lemma {:induction false} EvictionKeepsNewest(s: Store)
    requires InStep(s)
    ensures InStep(Evicted(s)) && |Evicted(s).order| <= s.maxEntries
    ensures var drop := if |s.order| <= s.maxEntries then 0 else |s.order| - s.maxEntries;
            Evicted(s) == s.(order := s.order[drop..], snapshots := s.snapshots[drop..])
    decreases |s.order|
  {
    if |s.order| > s.maxEntries {
      assert s.order[0] == Keys(s.snapshots)[0];
      DeleteFirst(s.snapshots);
      var rest := s.(order := s.order[1..], snapshots := s.snapshots[1..]);
      assert Keys(rest.snapshots) == rest.order;
      EvictionKeepsNewest(rest);
    }
  }

  lemma SnappedInStep(s: Store, timestamp: int, balances: Balances)
    requires InStep(s) && |s.order| <= s.maxEntries
    ensures InStep(Snapped(s, timestamp, balances)) && |Snapped(s, timestamp, balances).order| <= s.maxEntries
    ensures Snapped(s, timestamp, balances).maxEntries == s.maxEntries
    ensures Snapped(s, timestamp, balances).baseline ==
            if s.baseline.None? then Some(Snapshot(timestamp, balances)) else s.baseline
  {
    if Get(s.snapshots, timestamp).Some? {
      PutOld(s.snapshots, timestamp, balances);
    } else {
      AddedInStep(s, timestamp, balances);
      var added := s.(snapshots := Put(s.snapshots, timestamp, balances), order := s.order + [timestamp],
                      baseline := if s.baseline.None? then Some(Snapshot(timestamp, balances)) else s.baseline);
      EvictionKeepsNewest(added);
    }
  }

  /** The first snapshot since the last clear. */
  function FirstSinceClear(ops: seq<Op>): Option<Snapshot> {
    if ops == [] then None
    else
      var last, before := ops[|ops| - 1], FirstSinceClear(ops[..|ops| - 1]);
      if last.Clear? then None else if before.Some? then before else Some(Snapshot(last.timestamp, last.balances))
  }

  /** After any history: list and map in step, no duplicates, never more than maxEntries, and
      the baseline is the first snapshot since the last clear. */
  lemma {:induction false} AlwaysInStep(maxEntries: nat, ops: seq<Op>)
    ensures var s := After(maxEntries, ops);
            && InStep(s) && |s.order| <= maxEntries && s.maxEntries == maxEntries
            && s.baseline == FirstSinceClear(ops)
  {
    if ops != [] {
      AlwaysInStep(maxEntries, ops[..|ops| - 1]);
      var s, op := After(maxEntries, ops[..|ops| - 1]), ops[|ops| - 1];
      hide Snapped;
      if op.Take? {
        SnappedInStep(s, op.timestamp, op.balances);
      }
    }
  }

  /** The balances last taken at a timestamp since the last clear. */
  function LastTaken(ops: seq<Op>, timestamp: int): Option<Balances> {
    if ops == [] then None
    else
      var last := ops[|ops| - 1];
      if last.Clear? then None
      else if last.timestamp == timestamp then Some(last.balances)
      else LastTaken(ops[..|ops| - 1], timestamp)
  }

  /** What a snapshot does to any one timestamp: sets it, leaves it, or evicts it. */
  lemma SnappedGet(s: Store, timestamp: int, balances: Balances, k: int)
    requires InStep(s)
    ensures var r := Get(Snapped(s, timestamp, balances).snapshots, k);
            r.None? || r == if k == timestamp then Some(balances) else Get(s.snapshots, k)
  {
    GetPut(s.snapshots, timestamp, balances, k);
    if Get(s.snapshots, timestamp).None? {
      var added := s.(snapshots := Put(s.snapshots, timestamp, balances), order := s.order + [timestamp],
                      baseline := if s.baseline.None? then Some(Snapshot(timestamp, balances)) else s.baseline);
      AddedInStep(s, timestamp, balances);
      hide Get, Put;
      EvictionKeepsNewest(added);
      GetDropped(added.snapshots, if |added.order| <= added.maxEntries then 0 else |added.order| - added.maxEntries, k);
      hide Evicted;
    }
  }

  lemma AddedInStep(s: Store, timestamp: int, balances: Balances)
    requires InStep(s) && Get(s.snapshots, timestamp).None?
    ensures Keys(Put(s.snapshots, timestamp, balances)) == s.order + [timestamp] && Distinct(s.order + [timestamp])
    ensures |s.snapshots| == |s.order| && |Put(s.snapshots, timestamp, balances)| == |s.order| + 1
  {
    PutNew(s.snapshots, timestamp, balances);
    assert forall i :: 0 <= i < |s.order| ==> s.order[i] == s.snapshots[i].0;
  }

  /** Each retained timestamp holds the balances last taken at it. */
  lemma {:induction false} RetainedAreLatest(maxEntries: nat, ops: seq<Op>, timestamp: int)
    ensures var r := Get(After(maxEntries, ops).snapshots, timestamp); r.None? || r == LastTaken(ops, timestamp)
  {
    if ops != [] {
      hide Snapped, InStep;
      var k := |ops| - 1;
      var s, op := After(maxEntries, ops[..k]), ops[k];
      RetainedAreLatest(maxEntries, ops[..k], timestamp);
      AlwaysInStep(maxEntries, ops[..k]);
      if op.Take? {
        SnappedGet(s, op.timestamp, op.balances, timestamp);
      }
    }
  }

  // ---- What is kept, from the history alone ----

  function Newest(ts: seq<int>, n: nat): seq<int> {
    if |ts| <= n then ts else ts[|ts| - n..]
  }

  /** The timestamps that arrived since the last clear: each take at a time that was not among the
      newest arrivals when it came. */
  function Arrivals(maxEntries: nat, ops: seq<Op>): seq<int> {
    if ops == [] then []
    else
      var last, before := ops[|ops| - 1], Arrivals(maxEntries, ops[..|ops| - 1]);
      if last.Clear? then [] else if last.timestamp in Newest(before, maxEntries) then before else before + [last.timestamp]
  }

  /** A take on any store in step: the list keeps its order, a new time comes last, and only the
      oldest of a full store goes. */
  lemma TakeExactly(s: Store, t: int, balances: Balances)
    requires InStep(s) && |s.order| <= s.maxEntries
    ensures var s' := Snapped(s, t, balances);
            && s'.order == (if t in s.order then s.order else Newest(s.order + [t], s.maxEntries))
            && (s.maxEntries > 0 ==> Get(s'.snapshots, t) == Some(balances))
            && (t !in s.order && s.maxEntries > 0 ==> s'.order != [] && s'.order[|s'.order| - 1] == t)
            && forall k :: k != t ==>
                 Get(s'.snapshots, k) ==
                 if t !in s.order && |s.order| == s.maxEntries && s.order != [] && s.order[0] == k then None else Get(s.snapshots, k)
  {
    KnownIsListed(s, t);
    if Get(s.snapshots, t).Some? {
      forall k: int
        ensures Get(Put(s.snapshots, t, balances), k) == if k == t then Some(balances) else Get(s.snapshots, k)
      {
        GetPut(s.snapshots, t, balances, k);
      }
    } else {
      AddedExactly(s, t, balances);
    }
  }

  lemma KnownIsListed(s: Store, t: int)
    requires InStep(s)
    ensures Get(s.snapshots, t).Some? <==> t in s.order
  {
    hide Get;
    if t in s.order {
      var i :| 0 <= i < |s.order| && s.order[i] == t;
      assert s.snapshots[i].0 == t;
    }
    if Get(s.snapshots, t).Some? {
      var i := PlaceOf(s.snapshots, t);
      assert s.order[i] == t;
    }
  }

  lemma AddedExactly(s: Store, t: int, balances: Balances)
    requires InStep(s) && |s.order| <= s.maxEntries && Get(s.snapshots, t).None?
    ensures var s' := Snapped(s, t, balances);
            && s'.order == Newest(s.order + [t], s.maxEntries)
            && (s.maxEntries > 0 ==> Get(s'.snapshots, t) == Some(balances))
            && (s.maxEntries > 0 ==> s'.order != [] && s'.order[|s'.order| - 1] == t)
            && forall k :: k != t ==>
                 Get(s'.snapshots, k) ==
                 if |s.order| == s.maxEntries && s.order != [] && s.order[0] == k then None else Get(s.snapshots, k)
  {
    var m, order, full := Put(s.snapshots, t, balances), s.order + [t], |s.order| == s.maxEntries;
    AddedShape(s, t, balances);
    AddedInStep(s, t, balances);
    forall k: int
      ensures Get(m, k) == (if k == t then Some(balances) else Get(s.snapshots, k))
      ensures Get(m[1..], k) == if k == order[0] then None else Get(m, k)
    {
      GetPut(s.snapshots, t, balances, k);
      assert order[0] == Keys(m)[0] == m[0].0;
      GetRest(m, k);
    }
    hide Get, Put, Snapped, InStep, Keys, Distinct;
  }

  /** One entry more, or one more and the oldest gone. */
  lemma AddedShape(s: Store, t: int, balances: Balances)
    requires InStep(s) && |s.order| <= s.maxEntries && Get(s.snapshots, t).None?
    ensures var s', m, order := Snapped(s, t, balances), Put(s.snapshots, t, balances), s.order + [t];
            && |m| == |order| > 0
            && s'.order == (if |s.order| == s.maxEntries then order[1..] else order)
            && s'.snapshots == (if |s.order| == s.maxEntries then m[1..] else m)
  {
    hide Get, Put, Evicted;
    var added := s.(snapshots := Put(s.snapshots, t, balances), order := s.order + [t],
                    baseline := if s.baseline.None? then Some(Snapshot(t, balances)) else s.baseline);
    AddedInStep(s, t, balances);
    EvictionKeepsNewest(added);
    assert added.order[0..] == added.order && added.snapshots[0..] == added.snapshots;
  }

  /** After any history the list is the newest arrivals, in order. */
  lemma {:induction false} OrderIsNewestArrivals(maxEntries: nat, ops: seq<Op>)
    ensures After(maxEntries, ops).order == Newest(Arrivals(maxEntries, ops), maxEntries)
  {
    if ops != [] {
      var k := |ops| - 1;
      OrderIsNewestArrivals(maxEntries, ops[..k]);
      AlwaysInStep(maxEntries, ops[..k]);
      var s, before := After(maxEntries, ops[..k]), Arrivals(maxEntries, ops[..k]);
      if ops[k].Take? {
        TakeExactly(s, ops[k].timestamp, ops[k].balances);
        hide Snapped, InStep;
        NewestAppend(before, ops[k].timestamp, maxEntries);
      }
    }
  }

  lemma NewestAppend(ts: seq<int>, t: int, n: nat)
    ensures Newest(Newest(ts, n) + [t], n) == Newest(ts + [t], n)
  {
  }

  /** After any history, a take is there to be looked up, and is the latest if its time was new. */
  lemma TakenIsKept(maxEntries: nat, ops: seq<Op>, t: int, balances: Balances)
    requires maxEntries > 0
    ensures var s, s' := After(maxEntries, ops), After(maxEntries, ops + [Take(t, balances)]);
            && Get(s'.snapshots, t) == Some(balances)
            && (t !in s.order ==> s'.order != [] && s'.order[|s'.order| - 1] == t)
            && forall k :: k != t ==>
                 Get(s'.snapshots, k) ==
                 if t !in s.order && |s.order| == maxEntries && s.order[0] == k then None else Get(s.snapshots, k)
  {
    AlwaysInStep(maxEntries, ops);
    assert (ops + [Take(t, balances)])[..|ops|] == ops;
    TakeExactly(After(maxEntries, ops), t, balances);
  }

  // ---- Integers as decimal strings ----

  function Digit(d: nat): char
    requires d < 10
  {
    ['0', '1', '2', '3', '4', '5', '6', '7', '8', '9'][d]
  }

  function DigitValue(c: char): Option<nat> {
    if '0' <= c <= '9' then Some((c - '0') as nat) else None
  }

  function Digits(n: nat): string {
    if n < 10 then [Digit(n)] else Digits(n / 10) + [Digit(n % 10)]
  }

  function ParseDigits(s: string): Option<nat> {
    if s == "" then None
    else
      var last := DigitValue(s[|s| - 1]);
      if |s| == 1 then last
      else
        var front := ParseDigits(s[..|s| - 1]);
        if last.None? || front.None? then None else Some(front.value * 10 + last.value)
  }

  function ToDecimal(x: int): string {
    if x < 0 then "-" + Digits(-x) else Digits(x)
  }

  /** Reading a decimal integer; anything else is None, which the store reads as 0. */
  function ParseDecimal(s: string): Option<int> {
    if |s| > 0 && s[0] == '-' then
      var n := ParseDigits(s[1..]);
      if n.None? then None else Some(0 - n.value)
    else
      var n := ParseDigits(s);
      if n.None? then None else Some(n.value)
  }

  lemma {:induction false} ParseOfDigits(n: nat)
    ensures |Digits(n)| > 0 && Digits(n)[0] != '-' && ParseDigits(Digits(n)) == Some(n)
  {
    hide ParseDigits, Digit, DigitValue;
    if n >= 10 {
      ParseOfDigits(n / 10);
      assert Digits(n) == Digits(n / 10) + [Digit(n % 10)];
      DigitsValue(n % 10);
      ParseAppend(Digits(n / 10), Digit(n % 10));
    } else {
      DigitsValue(n);
      ParseOne(Digit(n));
    }
  }

  lemma ParseOne(c: char)
    ensures ParseDigits([c]) == DigitValue(c)
  {
  }

  lemma DigitsValue(d: nat)
    requires d < 10
    ensures Digit(d) != '-' && DigitValue(Digit(d)) == Some(d)
  {
  }

  lemma ParseAppend(front: string, c: char)
    requires front != "" && ParseDigits(front).Some? && DigitValue(c).Some?
    ensures ParseDigits(front + [c]) == Some(ParseDigits(front).value * 10 + DigitValue(c).value)
  {
    hide DigitValue;
    assert (front + [c])[..|front|] == front;
  }

  lemma ParseOfDecimal(x: int)
    ensures ParseDecimal(ToDecimal(x)) == Some(x)
  {
    hide Digits, ParseDigits;
    if x < 0 {
      ParseOfDigits(-x);
      assert ToDecimal(x)[1..] == Digits(-x);
    } else {
      ParseOfDigits(x);
    }
  }

  // ---- The serialised form ----

  datatype BalanceDoc = BalanceDoc(mint: Key, balance: string, symbol: string, decimals: nat)
  datatype SnapshotDoc = SnapshotDoc(timestamp: string, balances: seq<BalanceDoc>)
  const DEFAULT_ENTRIES := 144

  /** The parsed document; a bound that is no integer is as good as none. */
  datatype Doc = Doc(baseline: Option<SnapshotDoc>, snapshots: seq<SnapshotDoc>, maxEntries: Option<nat>)

  function SafeBigInt(s: string): int {
    ParseDecimal(s).GetOr(0)
  }

  function ToBalanceDoc(b: TokenBalance): BalanceDoc {
    BalanceDoc(b.mint, ToDecimal(b.balance), b.symbol, b.decimals)
  }

  function FromBalanceDoc(d: BalanceDoc): TokenBalance {
    TokenBalance(d.mint, SafeBigInt(d.balance), d.symbol, d.decimals)
  }

  function ToSnapshotDoc(timestamp: int, balances: Balances): SnapshotDoc {
    SnapshotDoc(ToDecimal(timestamp), seq(|balances|, i requires 0 <= i < |balances| => ToBalanceDoc(balances[i])))
  }

  function FromSnapshotDoc(d: SnapshotDoc): Snapshot {
    Snapshot(SafeBigInt(d.timestamp), seq(|d.balances|, i requires 0 <= i < |d.balances| => FromBalanceDoc(d.balances[i])))
  }

  function ToDoc(s: Store): Doc {
    Doc(if s.baseline.None? then None else Some(ToSnapshotDoc(s.baseline.value.timestamp, s.baseline.value.balances)),
        seq(|s.snapshots|, i requires 0 <= i < |s.snapshots| => ToSnapshotDoc(s.snapshots[i].0, s.snapshots[i].1)),
        Some(s.maxEntries))
  }

  /** Rebuilding puts each snapshot and appends its timestamp, without looking for duplicates. */
  function Rebuilt(d: Doc, n: nat): Store
    requires n <= |d.snapshots|
  {
    if n == 0 then
      Store(d.maxEntries.GetOr(DEFAULT_ENTRIES), if d.baseline.None? then None else Some(FromSnapshotDoc(d.baseline.value)), [], [])
    else
      var s, snap := Rebuilt(d, n - 1), FromSnapshotDoc(d.snapshots[n - 1]);
      s.(snapshots := Put(s.snapshots, snap.timestamp, snap.balances), order := s.order + [snap.timestamp])
  }

  function FromDoc(d: Doc): Store {
    Rebuilt(d, |d.snapshots|)
  }

  lemma SnapshotRoundTrip(timestamp: int, balances: Balances)
    ensures FromSnapshotDoc(ToSnapshotDoc(timestamp, balances)) == Snapshot(timestamp, balances)
  {
    ParseOfDecimal(timestamp);
    forall i | 0 <= i < |balances|
      ensures FromBalanceDoc(ToBalanceDoc(balances[i])) == balances[i]
    {
      ParseOfDecimal(balances[i].balance);
    }
    assert FromSnapshotDoc(ToSnapshotDoc(timestamp, balances)).balances == balances;
  }

  lemma {:induction false} RebuiltPrefix(s: Store, n: nat)
    requires InStep(s) && n <= |s.snapshots| == |s.order|
    ensures Rebuilt(ToDoc(s), n) == s.(snapshots := s.snapshots[..n], order := s.order[..n])
  {
    hide ToSnapshotDoc, FromSnapshotDoc, Put, Keys, InStep;
    if n == 0 {
      if s.baseline.Some? {
        SnapshotRoundTrip(s.baseline.value.timestamp, s.baseline.value.balances);
      }
    } else {
      var k := n - 1;
      RebuiltPrefix(s, k);
      SnapshotRoundTrip(s.snapshots[k].0, s.snapshots[k].1);
      PutNext(s, k);
      assert s.order[..n] == s.order[..k] + [s.order[k]];
    }
  }

  lemma PutNext(s: Store, k: nat)
    requires InStep(s) && k < |s.snapshots|
    ensures |s.order| == |s.snapshots| && s.order[k] == s.snapshots[k].0
    ensures Put(s.snapshots[..k], s.snapshots[k].0, s.snapshots[k].1) == s.snapshots[..k + 1]
  {
    forall i | 0 <= i < k
      ensures s.snapshots[..k][i].0 != s.snapshots[k].0
    {
      assert Keys(s.snapshots)[i] != Keys(s.snapshots)[k];
    }
    PutNew(s.snapshots[..k], s.snapshots[k].0, s.snapshots[k].1);
    assert s.snapshots[..k + 1] == s.snapshots[..k] + [s.snapshots[k]];
  }

  /** A store that went through its serialised form is the store it was, after any history; so
      it behaves the same under every later operation. */
  lemma RoundTrip(maxEntries: nat, ops: seq<Op>)
    ensures FromDoc(ToDoc(After(maxEntries, ops))) == After(maxEntries, ops)
  {
    var s := After(maxEntries, ops);
    AlwaysInStep(maxEntries, ops);
    RebuiltPrefix(s, |s.snapshots|);
    assert s.snapshots[..|s.snapshots|] == s.snapshots && s.order[..|s.order|] == s.order;
  }

  // ---- The object ----

  class BalanceSnapshotStore {
    const maxEntries: nat
    var baseline: Option<Snapshot>
    var snapshots: seq<(int, Balances)>
    var orderedTimestamps: seq<int>

    ghost function Value(): Store
      reads this
    {
      Store(maxEntries, baseline, snapshots, orderedTimestamps)
    }

    constructor (maxEntries: nat)
      ensures Value() == Empty(maxEntries)
    {
      this.maxEntries := maxEntries;
      baseline, snapshots, orderedTimestamps := None, [], [];
    }

    method Take(timestamp: int, balances: Balances)
      modifies this
      ensures Value() == Snapped(old(Value()), timestamp, balances)
      ensures InStep(old(Value())) && |old(orderedTimestamps)| <= maxEntries ==>
                && orderedTimestamps == (if timestamp in old(orderedTimestamps) then old(orderedTimestamps)
                                         else Newest(old(orderedTimestamps) + [timestamp], maxEntries))
                && (maxEntries > 0 ==> Get(snapshots, timestamp) == Some(balances))
    {
      if InStep(Value()) && |orderedTimestamps| <= maxEntries {
        TakeExactly(Value(), timestamp, balances);
      }
      hide InStep, Newest;
      if baseline.None? {
        baseline := Some(Snapshot(timestamp, balances));
      }
      if Get(snapshots, timestamp).Some? {
        snapshots := Put(snapshots, timestamp, balances);
        return;
      }
      snapshots := Put(snapshots, timestamp, balances);
      orderedTimestamps := orderedTimestamps + [timestamp];
      ghost var added := Value();
      while |orderedTimestamps| > maxEntries
        invariant Evicted(Value()) == Evicted(added)
      {
        var oldest := orderedTimestamps[0];
        orderedTimestamps := orderedTimestamps[1..];
        snapshots := Delete(snapshots, oldest);
      }
    }

    /** The latest entry; the lookup never misses while list and map are in step. */
    method GetLatest() returns (r: Option<Snapshot>)
      requires InStep(Value())
      ensures r.None? <==> orderedTimestamps == []
      ensures r.Some? ==> (r.value.timestamp, r.value.balances) == snapshots[|snapshots| - 1]
    {
      if |orderedTimestamps| == 0 {
        return None;
      }
      var ts := orderedTimestamps[|orderedTimestamps| - 1];
      LastIsFound(snapshots);
      r := Some(Snapshot(ts, Get(snapshots, ts).value));
    }

    method Clear()
      modifies this
      ensures Value() == Empty(maxEntries)
    {
      baseline, snapshots, orderedTimestamps := None, [], [];
    }

    static method FromJSON(d: Doc) returns (store: BalanceSnapshotStore)
      ensures fresh(store) && store.Value() == FromDoc(d)
      ensures store.maxEntries == if d.maxEntries.Some? then d.maxEntries.value else 144
    {
      store := new BalanceSnapshotStore(d.maxEntries.GetOr(DEFAULT_ENTRIES));
      if d.baseline.Some? {
        store.baseline := Some(FromSnapshotDoc(d.baseline.value));
      }
      for n := 0 to |d.snapshots|
        invariant fresh(store) && store.Value() == Rebuilt(d, n)
      {
        var snap := FromSnapshotDoc(d.snapshots[n]);
        store.snapshots := Put(store.snapshots, snap.timestamp, snap.balances);
        store.orderedTimestamps := store.orderedTimestamps + [snap.timestamp];
      }
    }
  }

  lemma {:induction false} LastIsFound(m: seq<(int, Balances)>)
    requires m != [] && Distinct(Keys(m))
    ensures Get(m, m[|m| - 1].0) == Some(m[|m| - 1].1)
  {
    if |m| > 1 {
      assert Keys(m)[0] != Keys(m)[|m| - 1];
      assert forall i :: 0 <= i < |m[1..]| ==> Keys(m[1..])[i] == Keys(m)[i + 1];
      LastIsFound(m[1..]);
    }
  }
}
