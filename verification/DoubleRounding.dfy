/** Where the two roundings of the counter amount part from exact arithmetic: only beyond 28 digits,
    so never for a stored amount, and exactly on the products characterised here. */
module DoubleRounding {
  import opened Domain
  import opened Money

  /** Beyond 28 digits the two roundings do not compose: here the half-even step carries a product
      up to the tie, and the half-up step then adds a cent the exact product does not have. */
  lemma TwoStageRoundingMayDiffer()
    ensures var amount, rate := 100_000_000_000_499_950, 1_000_000_000_001;
      && FitsNumeric(amount)
      && FitsNumeric(rate)
      && CounterAmount(amount, rate) == Some(HalfUp(amount * rate) + 1)
  {
    var n := 100_000_000_000_499_950 * 1_000_000_000_001;
    assert Excess(n / 100) == 0;
    assert Excess(n / 10) == 1 + Excess(n / 100) by {
      assert n / 10 / 10 == n / 100;
    }
    assert Excess(n) == 2;
    assert Pow10(2) == 10 * Pow10(1) && Pow10(1) == 10 * Pow10(0);
    assert RoundHalfEven(n, 100) == n / 100 + 1;
  }

  lemma DropDigits(n: nat, p: nat, e: nat)
    requires p > 0 && e > 0 && p * e == CENT
    ensures n / p == e * (n / CENT) + (n % CENT) / p
    ensures n % p == (n % CENT) % p
  {
    var c, t := n / CENT, n % CENT;
    assert n == p * (e * c) + t by {
      assert CENT * c == p * (e * c);
    }
    assert n == p * (e * c + t / p) + t % p by {
      assert p * (e * c + t / p) == p * (e * c) + p * (t / p);
    }
    QuotientIs(n, p, e * c + t / p, t % p);
  }

  lemma QuotientIs(n: nat, p: nat, q: nat, r: nat)
    requires n == p * q + r && r < p
    ensures n / p == q && n % p == r
  {
    assert p * (q + 1) == p * q + p;
    QuotientBetween(n, p, q, q + 1);
  }

  /** t rounded to a multiple of p, a tie going up when the quotient is odd. */
  function RoundTo(t: nat, p: nat, odd: bool): nat
    requires p > 0
  {
    p * (t / p) + if 2 * (t % p) > p || (2 * (t % p) == p && odd) then p else 0
  }

  lemma Distribute(a: nat, b: nat, up: nat, p: nat)
    ensures (a + b + up) * p == p * a + p * b + up * p
  {
  }

  lemma Associate(p: nat, e: nat, c: nat)
    ensures p * (e * c) == (p * e) * c
  {
  }

  lemma TailOf(n: nat, p: nat, a: nat, t: nat, whole: nat)
    requires p > 0 && n / p == a + t / p && n % p == t % p && p * a == whole
    ensures RoundHalfEven(n, p) * p == whole + RoundTo(t, p, (a + t / p) % 2 == 1)
  {
    var up := if 2 * (t % p) > p || (2 * (t % p) == p && (a + t / p) % 2 == 1) then 1 else 0;
    Distribute(a, t / p, up, p);
    assert RoundHalfEven(n, p) == a + t / p + up;
  }

  /** Rounding to the context rounds the part below the cents. */
  lemma WorkingByTail(n: nat, e: nat)
    requires e > 0 && Pow10(Excess(n)) * e == CENT
    ensures var p, c, t := Pow10(Excess(n)), n / CENT, n % CENT;
      Working(n) == CENT * c + RoundTo(t, p, (e * c + t / p) % 2 == 1)
  {
    var p, c, t := Pow10(Excess(n)), n / CENT, n % CENT;
    DropDigits(n, p, e);
    Associate(p, e, c);
    TailOf(n, p, e * c, t, CENT * c);
  }

  lemma EvenMultiple(e: nat, c: nat, x: nat)
    requires e % 2 == 0
    ensures (e * c + x) % 2 == x % 2
  {
    var h := e / 2;
    assert e * c == 2 * (h * c);
  }

  lemma TailReachesHalf(t: nat)
    requires t < CENT
    ensures RoundTo(t, 10, (t / 10) % 2 == 1) >= HALF_CENT <==> t >= HALF_CENT - 5
    ensures RoundTo(t, 100, (t / 100) % 2 == 1) >= HALF_CENT <==> t >= HALF_CENT - 50
    ensures RoundTo(t, 1000, (t / 1000) % 2 == 1) >= HALF_CENT <==> t >= HALF_CENT - 500
  {
  }

  lemma LongTailReachesHalf(t: nat, odd: bool)
    requires t < CENT
    ensures RoundTo(t, 10000, (t / 10000) % 2 == 1) >= HALF_CENT <==> t >= HALF_CENT - 5000
    ensures RoundTo(t, 100000, (t / 100000) % 2 == 1) >= HALF_CENT <==> t > HALF_CENT - 50000
    ensures RoundTo(t, 1000000, odd) >= HALF_CENT <==> t > HALF_CENT || (t == HALF_CENT && odd)
  {
  }

  lemma SmallPowers()
    ensures Pow10(0) == 1 && Pow10(1) == 10 && Pow10(2) == 100 && Pow10(3) == 1000
    ensures Pow10(4) == 10000 && Pow10(5) == 100000 && Pow10(6) == 1000000 && Pow10(7) == 10000000
  {
    assert Pow10(3) == 10 * Pow10(2) && Pow10(2) == 10 * Pow10(1);
    assert Pow10(6) == 10 * Pow10(5) && Pow10(5) == 10 * Pow10(4);
  }

  lemma ComplementaryPower(k: nat)
    requires 1 <= k <= 6
    ensures Pow10(k) * Pow10(6 - k) == CENT
    ensures k <= 5 ==> Pow10(6 - k) % 2 == 0
  {
    SmallPowers();
  }

  /** The parity that decides a tie when k digits are dropped. */
  predicate OddQuotient(c: nat, t: nat, k: nat) {
    if k <= 5 then (t / Pow10(k)) % 2 == 1 else c % 2 == 1
  }

  lemma OddQuotientIs(c: nat, t: nat, k: nat)
    requires t < CENT && 1 <= k <= 6
    ensures (Pow10(6 - k) * c + t / Pow10(k)) % 2 == 1 <==> OddQuotient(c, t, k)
  {
    if k <= 5 {
      ComplementaryPower(k);
      EvenMultiple(Pow10(6 - k), c, t / Pow10(k));
    } else {
      SmallPowers();
      assert Pow10(0) * c == c;
    }
  }

  lemma CarriedTail(n: nat, k: nat)
    requires k == Excess(n) && 1 <= k <= 6
    ensures var c, t := n / CENT, n % CENT;
      Working(n) == CENT * c + RoundTo(t, Pow10(k), OddQuotient(c, t, k))
  {
    ComplementaryPower(k);
    WorkingByTail(n, Pow10(6 - k));
    OddQuotientIs(n / CENT, n % CENT, k);
  }

  lemma HalfUpOfTail(c: nat, tail: nat)
    requires tail <= CENT
    ensures HalfUp(CENT * c + tail) == c + if tail >= HALF_CENT then 1 else 0
  {
  }

  /** With k digits dropped, a tail below whole cents that the half-even step lifts to the tie. */
  predicate LiftedToTie(c: nat, t: nat, k: nat) {
    if k <= 4 then HALF_CENT - Pow10(k) / 2 <= t < HALF_CENT
    else if k == 5 then HALF_CENT - Pow10(k) / 2 < t < HALF_CENT
    else t == HALF_CENT && c % 2 == 0
  }

  lemma RoundToAtMostCent(t: nat, k: nat, odd: bool)
    requires t < CENT && 1 <= k <= 6
    ensures RoundTo(t, Pow10(k), odd) <= CENT
  {
    SmallPowers();
    RoundToBounds(t, odd);
  }

  lemma RoundToBounds(t: nat, odd: bool)
    requires t < CENT
    ensures RoundTo(t, 10, odd) <= CENT && RoundTo(t, 100, odd) <= CENT && RoundTo(t, 1000, odd) <= CENT
    ensures RoundTo(t, 10000, odd) <= CENT && RoundTo(t, 100000, odd) <= CENT && RoundTo(t, 1000000, odd) <= CENT
  {
  }

  lemma TailVerdict(c: nat, t: nat, k: nat)
    requires t < CENT && 1 <= k <= 6
    ensures (RoundTo(t, Pow10(k), OddQuotient(c, t, k)) >= HALF_CENT) == (t >= HALF_CENT) <==> !LiftedToTie(c, t, k)
  {
    SmallPowers();
    TailReachesHalf(t);
    LongTailReachesHalf(t, c % 2 == 1);
  }

  /** The half-even step takes the product across the tie of its last cent. */
  predicate CarriesToTie(n: nat) {
    Excess(n) >= 1 && LiftedToTie(n / CENT, n % CENT, Excess(n))
  }

  /** For every product the code can quantize, the two roundings give the exact half-up cents
      exactly when the first one does not carry the product up to a tie (or, with six digits
      dropped, does not settle an exact tie downwards). */
  lemma TwoStageRoundingExactIff(n: nat)
    requires CounterMagnitude(n).Some?
    ensures CounterMagnitude(n) == Some(HalfUp(n)) <==> !CarriesToTie(n)
  {
    var k, c, t := Excess(n), n / CENT, n % CENT;
    if k == 0 {
      SmallPowers();
    } else if k <= 6 {
      CarriedTail(n, k);
      RoundToAtMostCent(t, k, OddQuotient(c, t, k));
      HalfUpOfTail(c, t);
      HalfUpOfTail(c, RoundTo(t, Pow10(k), OddQuotient(c, t, k)));
      TailVerdict(c, t, k);
    } else {
      LongDropFails(n);
    }
  }

  /** Seven or more dropped digits leave too many for quantize. */
  lemma LongDropFails(n: nat)
    requires Excess(n) >= 7
    ensures CounterMagnitude(n).None?
  {
    WorkingBounds(n);
    if Excess(n) > 7 {
      Pow10Monotone(7, Excess(n));
    }
    SmallPowers();
    ScaleBetween(CONTEXT_LIMIT / 10, 10_000_000, Pow10(Excess(n)), Pow10(Excess(n)));
  }
}
