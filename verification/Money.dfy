/** Decimal arithmetic of the counter amount: a product in the default 28-digit context (rounded
    half to even), then a quantize to cents rounded half up. Amounts are in 1/100, rates in
    1/1,000,000, so a product counts units of 1/100,000,000. */
module Money {
  import opened Domain

  const CENT := 1_000_000
  const HALF_CENT := 500_000

  /** Ten to the 28th: a coefficient in the default decimal context stays below it. */
  const CONTEXT_LIMIT := 10_000_000_000_000_000_000_000_000_000

  function Abs(x: int): nat {
    if x < 0 then -x else x
  }

  function Pow10(k: nat): (p: nat)
    ensures p >= 1
  {
    if k == 0 then 1 else 10 * Pow10(k - 1)
  }

  /** How many low digits do not fit the context. */
  function Excess(n: nat): nat {
    if n < CONTEXT_LIMIT then 0 else 1 + Excess(n / 10)
  }

  function RoundHalfEven(n: nat, p: nat): nat
    requires p > 0
  {
    var q, r := n / p, n % p;
    if 2 * r > p || (2 * r == p && q % 2 == 1) then q + 1 else q
  }

  /** The value of a coefficient after the context has rounded it. */
  function Working(n: nat): nat {
    var p := Pow10(Excess(n));
    RoundHalfEven(n, p) * p
  }

  /** The nearest whole cent, ties away from zero. */
  function HalfUp(n: nat): nat {
    (n + HALF_CENT) / CENT
  }

  /** Working product, then quantize; quantize raises when the result needs more than 28 digits. */
  function CounterMagnitude(n: nat): Option<nat> {
    var cents := HalfUp(Working(n));
    if cents >= CONTEXT_LIMIT then None else Some(cents)
  }

  function CounterAmount(amount: int, rate: int): Option<int> {
    var product := amount * rate;
    match CounterMagnitude(Abs(product))
    case None => None
    case Some(cents) => var c: int := cents; Some(if product < 0 then -c else c)
  }

  // ----- the working precision never reaches a stored amount

  lemma {:induction false} ExcessLeavesFullCoefficient(n: nat)
    requires n >= CONTEXT_LIMIT
    ensures Excess(n) >= 1
    ensures Pow10(Excess(n)) * (CONTEXT_LIMIT / 10) <= n < Pow10(Excess(n)) * CONTEXT_LIMIT
  {
    if n / 10 >= CONTEXT_LIMIT {
      ExcessLeavesFullCoefficient(n / 10);
    }
  }

  lemma CancelFactor(p: int, x: int, y: int)
    requires p > 0
    requires p * x < p * y
    ensures x < y
  {
  }

  lemma QuotientBetween(n: nat, p: nat, lo: nat, hi: nat)
    requires p > 0
    requires p * lo <= n < p * hi
    ensures lo <= n / p < hi
  {
    var q := n / p;
    assert p * q <= n < p * q + p;
    assert p * (lo - 1) == p * lo - p;
    CancelFactor(p, lo - 1, q);
    CancelFactor(p, q, hi);
  }

  /** A product too long for the context stays too long after rounding. */
  lemma LongProductStaysLong(n: nat)
    requires n >= CONTEXT_LIMIT
    ensures Working(n) >= CONTEXT_LIMIT
  {
    var p := Pow10(Excess(n));
    ExcessLeavesFullCoefficient(n);
    assert p >= 10;
    QuotientBetween(n, p, CONTEXT_LIMIT / 10, CONTEXT_LIMIT);
    var m := RoundHalfEven(n, p);
    assert m * p >= (CONTEXT_LIMIT / 10) * p;
  }

  lemma ShortProductIsExact(n: nat)
    requires n < CONTEXT_LIMIT
    ensures Working(n) == n
  {
    assert Pow10(0) == 1;
  }

  /** A counter amount that fits its column is the exact product rounded half up to the cent: the
      28-digit rounding before it was the identity. And it fits exactly when the exact one does. */
  lemma StoredCounterIsExact(amount: nat, rate: nat)
    ensures (exists c :: CounterAmount(amount, rate) == Some(c) && FitsNumeric(c))
       <==> HalfUp(amount * rate) < NUMERIC_LIMIT
    ensures HalfUp(amount * rate) < NUMERIC_LIMIT ==>
              && amount * rate < CONTEXT_LIMIT
              && Working(amount * rate) == amount * rate
              && CounterAmount(amount, rate) == Some(HalfUp(amount * rate))
  {
    var n := amount * rate;
    if n < CONTEXT_LIMIT {
      ShortProductIsExact(n);
      assert CounterAmount(amount, rate) == Some(HalfUp(n));
    } else {
      LongProductStaysLong(n);
    }
  }

  /** Against any limit a Numeric(18, 2) column can hold, the two-stage rounding and quantize's
      error decide as exact arithmetic does. */
  lemma LimitDecisionIsExact(amount: nat, rate: nat, limit: int)
    requires FitsNumeric(limit)
    ensures (CounterAmount(amount, rate).None? || CounterAmount(amount, rate).value > limit)
       <==> HalfUp(amount * rate) > limit
  {
    var n := amount * rate;
    if n < CONTEXT_LIMIT {
      ShortProductIsExact(n);
    } else {
      LongProductStaysLong(n);
    }
  }

  /** HalfUp is the one whole number of cents within half a cent, ties upward. */
  lemma HalfUpIsNearest(n: nat, c: int)
    ensures c == HalfUp(n) <==> -500_000 <= n - c * 1_000_000 < 500_000
  {
  }

  /** The context keeps products of up to 28 digits as they are, and quantize takes results of up to 28. */
  lemma ContextHolds28Digits(n: nat)
    ensures Excess(n) == 0 <==> n < 10_000_000_000_000_000_000_000_000_000
    ensures n < 10_000_000_000_000_000_000_000_000_000 ==> Working(n) == n
    ensures CounterMagnitude(n).Some? <==> HalfUp(Working(n)) < 10_000_000_000_000_000_000_000_000_000
  {
    if n < CONTEXT_LIMIT {
      ShortProductIsExact(n);
    }
  }

  /** Rounding is away from zero on both sides: changing the sign of the amount changes the sign of the
      counter amount and nothing else. */
  lemma CounterIsOdd(amount: int, rate: int)
    ensures CounterAmount(-amount, rate).Some? <==> CounterAmount(amount, rate).Some?
    ensures CounterAmount(amount, rate).Some? ==>
              CounterAmount(-amount, rate).value == -CounterAmount(amount, rate).value
  {
    assert (-amount) * rate == -(amount * rate);
    assert HalfUp(Working(0)) == 0 by {
      ShortProductIsExact(0);
    }
  }

  lemma RoundHalfEvenMonotone(m: nat, n: nat, p: nat)
    requires p > 0 && m <= n
    ensures RoundHalfEven(m, p) <= RoundHalfEven(n, p)
  {
    var q, q' := m / p, n / p;
    assert m == p * q + m % p && n == p * q' + n % p;
    assert p * (q' + 1) == p * q' + p;
    CancelFactor(p, q, q' + 1);
    if q == q' {
      assert m % p <= n % p;
    }
  }

  lemma {:induction false} ExcessMonotone(m: nat, n: nat)
    requires m <= n
    ensures Excess(m) <= Excess(n)
  {
    if m >= CONTEXT_LIMIT {
      ExcessMonotone(m / 10, n / 10);
    }
  }

  lemma {:induction false} Pow10Monotone(j: nat, k: nat)
    requires j < k
    ensures 10 * Pow10(j) <= Pow10(k)
  {
    if j + 1 < k {
      Pow10Monotone(j, k - 1);
    }
  }

  lemma WorkingBounds(n: nat)
    requires n >= CONTEXT_LIMIT
    ensures Pow10(Excess(n)) * (CONTEXT_LIMIT / 10) <= Working(n) <= Pow10(Excess(n)) * CONTEXT_LIMIT
  {
    var p := Pow10(Excess(n));
    ExcessLeavesFullCoefficient(n);
    QuotientBetween(n, p, CONTEXT_LIMIT / 10, CONTEXT_LIMIT);
    ScaleBetween(p, CONTEXT_LIMIT / 10, RoundHalfEven(n, p), CONTEXT_LIMIT);
  }

  lemma ScaleBetween(p: nat, lo: nat, m: nat, hi: nat)
    requires lo <= m <= hi
    ensures p * lo <= m * p <= p * hi
  {
  }

  lemma WorkingMonotoneAcross(m: nat, n: nat)
    requires CONTEXT_LIMIT <= m <= n && Excess(m) < Excess(n)
    ensures Working(m) <= Working(n)
  {
    WorkingBounds(m);
    WorkingBounds(n);
    Pow10Monotone(Excess(m), Excess(n));
    ChainBounds(Pow10(Excess(m)), Pow10(Excess(n)), CONTEXT_LIMIT / 10, Working(m), Working(n));
  }

  lemma ChainBounds(p: nat, q: nat, c: nat, x: nat, y: nat)
    requires 10 * p <= q
    requires x <= p * (10 * c) && q * c <= y
    ensures x <= y
  {
    assert p * (10 * c) == (10 * p) * c;
    ScaleBetween(c, 10 * p, q, q);
  }

  lemma WorkingMonotoneWithin(m: nat, n: nat)
    requires m <= n && Excess(m) == Excess(n)
    ensures Working(m) <= Working(n)
  {
    var p := Pow10(Excess(n));
    RoundHalfEvenMonotone(m, n, p);
    ScaleBetween(p, 0, RoundHalfEven(m, p), RoundHalfEven(n, p));
  }

  lemma WorkingMonotone(m: nat, n: nat)
    requires m <= n
    ensures Working(m) <= Working(n)
  {
    ExcessMonotone(m, n);
    if Excess(m) == Excess(n) {
      WorkingMonotoneWithin(m, n);
    } else if m >= CONTEXT_LIMIT {
      WorkingMonotoneAcross(m, n);
    } else {
      ShortProductIsExact(m);
      LongProductStaysLong(n);
    }
  }

  /** Lowering amount or rate never raises the counter amount and never makes quantize fail. */
  lemma CounterMonotone(amount: nat, rate: nat, amount': nat, rate': nat)
    requires amount' <= amount && rate' <= rate
    requires CounterAmount(amount, rate).Some?
    ensures CounterAmount(amount', rate').Some?
    ensures 0 <= CounterAmount(amount', rate').value <= CounterAmount(amount, rate).value
  {
    assert amount' * rate' <= amount * rate' <= amount * rate;
    WorkingMonotone(amount' * rate', amount * rate);
  }
}
