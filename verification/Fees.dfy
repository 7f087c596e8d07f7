/** Ceiling fees in checked 64-bit arithmetic, and stablecoin amounts as USD. */
module Fees {
  import opened Common
  import opened SpendLog
  import opened Metering

  const FEE_RATE_DENOMINATOR := 1_000_000
  const PROTOCOL_FEE_RATE := 200
  const MAX_DEVELOPER_FEE_RATE := 500
  const USD_DECIMALS := 6

  /** The client's ceilFee: the exact ceiling of amount * rate / denominator. */
  function ClientCeilFee(amount: nat, rate: nat): nat {
    (amount * rate + FEE_RATE_DENOMINATOR - 1) / FEE_RATE_DENOMINATOR
  }

  /** The program's ceil_fee: fails where a 64-bit intermediate would overflow. */
  function CeilFee(amount: nat, rate: nat): Option<nat> {
    if amount * rate > U64_MAX then None
    else if amount * rate + (FEE_RATE_DENOMINATOR - 1) > U64_MAX then None
    else Some((amount * rate + (FEE_RATE_DENOMINATOR - 1)) / FEE_RATE_DENOMINATOR)
  }

  /** A rounded-up fee: the least whole number of units that covers the exact share. */
  lemma CeilFeeIsLeast(amount: nat, rate: nat, units: nat)
    ensures ClientCeilFee(amount, rate) <= units <==> amount * rate <= units * FEE_RATE_DENOMINATOR
  {
  }

  /** Splitting an amount never lowers its total fee. */
  lemma SplittingNeverSaves(a: nat, b: nat, rate: nat)
    ensures ClientCeilFee(a + b, rate) <= ClientCeilFee(a, rate) + ClientCeilFee(b, rate)
  {
    assert (a + b) * rate == a * rate + b * rate;
  }

  function Net(amount: nat, developerRate: nat): Option<nat> {
    var p, v := CeilFee(amount, PROTOCOL_FEE_RATE), CeilFee(amount, developerRate);
    if p.None? || v.None? || p.value + v.value > amount then None else Some(amount - p.value - v.value)
  }

  /** Exactly when both fees can be taken out of a positive amount, for every legal rate: the
      products fit 64 bits, and it is not a single unit that owes two fees of one unit. */
  lemma NetExists(amount: nat, developerRate: nat)
    requires amount > 0 && developerRate <= MAX_DEVELOPER_FEE_RATE
    ensures Net(amount, developerRate).Some? <==>
            && amount * PROTOCOL_FEE_RATE + FEE_RATE_DENOMINATOR - 1 <= U64_MAX
            && amount * developerRate + FEE_RATE_DENOMINATOR - 1 <= U64_MAX
            && (amount == 1 ==> developerRate == 0)
  {
    assert 0 <= amount * developerRate <= amount * MAX_DEVELOPER_FEE_RATE;
    if amount == 1 {
      assert amount * developerRate == developerRate;
    }
    if developerRate == 0 {
      assert amount * developerRate == 0;
    }
  }

  /** The client's fee is the program's whenever the program computes one. */
  lemma ClientFeeAgrees(amount: nat, rate: nat)
    ensures CeilFee(amount, rate).Some? ==> CeilFee(amount, rate).value == ClientCeilFee(amount, rate)
    ensures CeilFee(amount, rate).None? <==> amount * rate + FEE_RATE_DENOMINATOR - 1 > U64_MAX
  {
  }

  /** The protocol's fee is one part in 5,000, rounded up: 2 basis points. */
  lemma ProtocolFeeIsTwoBps(amount: nat)
    ensures ClientCeilFee(amount, PROTOCOL_FEE_RATE) == (amount + 4999) / 5000
  {
  }

  function Power10(n: nat): (p: nat)
    ensures p > 0
  {
    if n == 0 then 1 else 10 * Power10(n - 1)
  }

  function Times(a: nat, b: nat): nat {
    a * b
  }

  function Over(a: nat, b: nat): nat
    requires b > 0
  {
    a / b
  }

  /** stablecoin_to_usd: one to one at 6 decimals, scaled up or rounded down otherwise. */
  function StablecoinToUsd(amount: nat, decimals: nat): Option<nat> {
    if decimals == USD_DECIMALS then Some(amount)
    else if decimals < USD_DECIMALS then
      var scaled := Times(amount, Power10(USD_DECIMALS - decimals));
      if scaled > U64_MAX then None else Some(scaled)
    else
      var divisor := Power10(decimals - USD_DECIMALS);
      if divisor > U64_MAX then None else Some(Over(amount, divisor))
  }

  // ---- What the conversion means ----

  lemma {:induction false} Power10Sum(a: nat, b: nat)
    ensures Power10(a + b) == Power10(a) * Power10(b)
  {
    if a > 0 {
      Power10Sum(a - 1, b);
      Reassociate(10, Power10(a - 1), Power10(b));
    }
  }

  lemma Reassociate(a: nat, b: nat, c: nat)
    ensures a * (b * c) == (a * b) * c
  {
  }

  lemma FloorOfExact(x: nat, d: nat)
    requires d > 0
    ensures (x * d) / d == x
  {
    QuotientIs(x * d, d, x, 0);
  }

  lemma FloorCancels(x: nat, d: nat, k: nat)
    requires d > 0 && k > 0
    ensures d * k > 0 && (x * k) / (d * k) == x / d
  {
    var q, r := x / d, x % d;
    assert x == q * d + r;
    assert x * k == q * (d * k) + r * k;
    assert 0 <= r * k < d * k;
    QuotientIs(x * k, d * k, q, r * k);
  }

  lemma QuotientIs(x: nat, d: nat, q: nat, r: nat)
    requires x == q * d + r && r < d
    ensures x / d == q
  {
    var p := EpochAt(x, d);
    EpochBounds(x, d);
    hide EpochAt;
    assert (p + 1) * d == p * d + d && (q + 1) * d == q * d + d;
    MultipleOrder(p + 1, q, d);
    MultipleOrder(q + 1, p, d);
  }

  /** The amount in USD base units, rounded down. */
  function FloorUsd(amount: nat, decimals: nat): nat {
    Over(Times(amount, Power10(USD_DECIMALS)), Power10(decimals))
  }

  /** Fewer decimals: the product must fit 64 bits. More: the divisor must. */
  predicate UsdFits(amount: nat, decimals: nat) {
    && (decimals < USD_DECIMALS ==> FloorUsd(amount, decimals) <= U64_MAX)
    && (decimals > USD_DECIMALS ==> Power10(decimals - USD_DECIMALS) <= U64_MAX)
  }

  /** Whatever the token's decimals, the conversion is amount * 10^6 / 10^decimals rounded down,
      and exists exactly when its one intermediate result fits 64 bits. */
  lemma UsdIsFloor(amount: nat, decimals: nat)
    ensures StablecoinToUsd(amount, decimals) == if UsdFits(amount, decimals) then Some(FloorUsd(amount, decimals)) else None
  {
    hide Power10;
    if decimals == USD_DECIMALS {
      FloorOfExact(amount, Power10(USD_DECIMALS));
    } else if decimals < USD_DECIMALS {
      var k := USD_DECIMALS - decimals;
      Power10Sum(k, decimals);
      Reassociate(amount, Power10(k), Power10(decimals));
      FloorOfExact(amount * Power10(k), Power10(decimals));
    } else {
      var k := decimals - USD_DECIMALS;
      Power10Sum(k, USD_DECIMALS);
      FloorCancels(amount, Power10(k), Power10(USD_DECIMALS));
    }
  }
}
