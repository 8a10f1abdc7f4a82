/** The decimal-places check: a Decimal is normalized (rounded to the context, trailing zeros
    stripped) and its exponent is compared with the places the currency allows. */
module Precision {
  import opened Money

  /** The number coefficient * 10^exponent. */
  datatype Decimal = Decimal(coefficient: int, exponent: int)

  function Fold(d: Decimal): Decimal {
    var m := Abs(d.coefficient);
    var k := Excess(m);
    var r: int := RoundHalfEven(m, Pow10(k));
    Decimal(if d.coefficient < 0 then -r else r, d.exponent + k)
  }

  function StripZeros(d: Decimal): Decimal
    decreases Abs(d.coefficient)
  {
    if d.coefficient == 0 then Decimal(0, 0)
    else if d.coefficient % 10 == 0 then StripZeros(Decimal(d.coefficient / 10, d.exponent + 1))
    else d
  }

  function Normalize(d: Decimal): Decimal {
    StripZeros(Fold(d))
  }

  predicate DecimalsValid(value: Decimal, maxPlaces: int) {
    var exponent := Normalize(value).exponent;
    if exponent < 0 then Abs(exponent) <= maxPlaces else true
  }

  /** d * 10^places is a whole number. */
  predicate WholeAt(d: Decimal, places: nat) {
    d.exponent + places >= 0 || d.coefficient % Pow10(-(d.exponent + places)) == 0
  }

  lemma MultipleOfTen(c: int, p: int)
    requires p >= 1 && c % (10 * p) == 0
    ensures c % 10 == 0
  {
    var q := c / (10 * p);
    assert c == 10 * (p * q);
  }

  lemma DropTen(c: int, p: int)
    requires p >= 1 && c % 10 == 0
    ensures c % (10 * p) == 0 <==> (c / 10) % p == 0
  {
    var d := c / 10;
    assert c == 10 * d;
    if c % (10 * p) == 0 {
      var q := c / (10 * p);
      assert 10 * d == 10 * (p * q);
      ModOfMultiple(p, q);
    }
    if d % p == 0 {
      var q := d / p;
      assert d == p * q;
      assert c == (10 * p) * q;
      ModOfMultiple(10 * p, q);
    }
  }

  lemma ModOfMultiple(p: int, q: int)
    requires p >= 1
    ensures (p * q) % p == 0
  {
    var r := (p * q) % p;
    var k := (p * q) / p;
    assert p * q == p * k + r;
    assert p * (q - k) == r;
    CancelFactor(p, q - k, 1);
    CancelFactor(p, -1, q - k);
  }

  lemma {:induction false} StrippingKeepsWholeness(d: Decimal, places: nat)
    ensures (StripZeros(d).exponent < 0 && -StripZeros(d).exponent > places) <==> !WholeAt(d, places)
    decreases Abs(d.coefficient)
  {
    var k := -(d.exponent + places);
    if d.coefficient == 0 {
    } else if d.coefficient % 10 == 0 {
      var d' := Decimal(d.coefficient / 10, d.exponent + 1);
      StrippingKeepsWholeness(d', places);
      if k >= 1 {
        DropTen(d.coefficient, Pow10(k - 1));
        assert Pow10(k) == 10 * Pow10(k - 1);
        assert Pow10(0) == 1;
      }
    } else if k >= 1 {
      assert Pow10(k) == 10 * Pow10(k - 1);
      if d.coefficient % Pow10(k) == 0 {
        MultipleOfTen(d.coefficient, Pow10(k - 1));
      }
    }
  }

  /** For every representation of a value within 28 digits the check holds exactly when the value
      has at most maxPlaces decimals; a negative maxPlaces allows whole numbers only. */
  lemma DecimalsValidIffWhole(d: Decimal, maxPlaces: int)
    requires Abs(d.coefficient) < CONTEXT_LIMIT
    ensures DecimalsValid(d, maxPlaces) <==> WholeAt(d, if maxPlaces < 0 then 0 else maxPlaces)
  {
    assert Pow10(0) == 1;
    assert Fold(d) == d;
    StrippingKeepsWholeness(d, if maxPlaces < 0 then 0 else maxPlaces);
  }

  /** Writing the same value with one more trailing zero does not change the verdict. */
  lemma TrailingZeroIsIrrelevant(d: Decimal, maxPlaces: int)
    requires Abs(d.coefficient) * 10 < CONTEXT_LIMIT
    ensures DecimalsValid(Decimal(d.coefficient * 10, d.exponent - 1), maxPlaces) == DecimalsValid(d, maxPlaces)
  {
    assert Pow10(0) == 1;
    var d' := Decimal(d.coefficient * 10, d.exponent - 1);
    assert Fold(d) == d && Fold(d') == d';
    assert StripZeros(d') == StripZeros(d);
  }

  /** A stored amount, counted in hundredths. */
  lemma StoredAmountPrecision(amount: int, maxPlaces: int)
    requires Abs(amount) < CONTEXT_LIMIT
    ensures DecimalsValid(Decimal(amount, -2), maxPlaces) <==>
              (if maxPlaces <= 0 then amount % 100 == 0
               else if maxPlaces == 1 then amount % 10 == 0
               else true)
  {
    DecimalsValidIffWhole(Decimal(amount, -2), maxPlaces);
    assert Pow10(2) == 10 * Pow10(1) && Pow10(1) == 10 * Pow10(0);
  }
}
