/** The ghost history every meter is judged against: a log of all spends ever made, and the
    total spent at the instants of a given set. */
module SpendLog {

  const U64_MAX: nat := 0xFFFF_FFFF_FFFF_FFFF
  const I64_MAX: nat := 0x7FFF_FFFF_FFFF_FFFF

  /** One recorded spend: its clock reading in seconds, and its size in USD base units. */
  datatype Spend = Spend(time: int, usd: nat)

  predicate Between(first: int, t: int, last: int) {
    first <= t <= last
  }

  ghost function Interval(first: int, last: int): iset<int> {
    iset t: int | Between(first, t, last)
  }

  /** What the spends made at instants of `times` add up to. */
  ghost function SpentIn(log: seq<Spend>, times: iset<int>): nat {
    if log == [] then 0
    else
      var last := log[|log| - 1];
      SpentIn(log[..|log| - 1], times) + (if last.time in times then last.usd else 0)
  }

  /** The clock of a run never goes back, and recording needs a positive clock. */
  ghost predicate WellTimed(log: seq<Spend>) {
    && (forall i :: 0 <= i < |log| ==> 0 < log[i].time)
    && (forall i, j :: 0 <= i < j < |log| ==> log[i].time <= log[j].time)
  }

  lemma SpentInAppend(log: seq<Spend>, s: Spend, times: iset<int>)
    ensures SpentIn(log + [s], times) == SpentIn(log, times) + (if s.time in times then s.usd else 0)
  {
    assert (log + [s])[..|log|] == log;
  }

  lemma {:induction false} SpentInConcat(a: seq<Spend>, b: seq<Spend>, times: iset<int>)
    ensures SpentIn(a + b, times) == SpentIn(a, times) + SpentIn(b, times)
  {
    if b == [] {
      assert a + b == a;
    } else {
      var k := |b| - 1;
      assert a + b == (a + b[..k]) + [b[k]];
      SpentInAppend(a + b[..k], b[k], times);
      SpentInConcat(a, b[..k], times);
    }
  }

  /** Disjoint sets of instants add up. */
  lemma {:induction false} SpentInUnion(log: seq<Spend>, a: iset<int>, b: iset<int>)
    requires a !! b
    ensures SpentIn(log, a + b) == SpentIn(log, a) + SpentIn(log, b)
  {
    if log != [] {
      SpentInUnion(log[..|log| - 1], a, b);
    }
  }

  /** Only instants at which something was spent matter. */
  lemma {:induction false} SpentInMonotone(log: seq<Spend>, a: iset<int>, b: iset<int>)
    requires forall i :: 0 <= i < |log| && log[i].time in a ==> log[i].time in b
    ensures SpentIn(log, a) <= SpentIn(log, b)
  {
    if log != [] {
      assert log[|log| - 1].time in a ==> log[|log| - 1].time in b;
      SpentInMonotone(log[..|log| - 1], a, b);
    }
  }

  lemma {:induction false} NothingSpentIn(log: seq<Spend>, a: iset<int>)
    requires forall i :: 0 <= i < |log| ==> log[i].time !in a
    ensures SpentIn(log, a) == 0
  {
    if log != [] {
      assert log[|log| - 1].time !in a;
      NothingSpentIn(log[..|log| - 1], a);
    }
  }

  lemma WellTimedPrefix(log: seq<Spend>)
    requires WellTimed(log) && log != []
    ensures WellTimed(log[..|log| - 1])
    ensures forall i :: 0 <= i < |log| - 1 ==> log[i].time <= log[|log| - 1].time
  {
  }
}
