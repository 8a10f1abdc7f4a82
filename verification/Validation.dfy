/** Format and logic control of a deal before payments are calculated. */
module Validation {
  import opened Domain
  import opened Tables
  import opened Precision

  datatype Issue =
    | NotDraft
    | SameCurrency
    | AmountNotPositive
    | RateNotPositive
    | BuyCurrencyUnknown
    | AmountTooPrecise
    | SellCurrencyUnknown
    | CounterpartyUnknown
    | CounterpartyInactive
    | ValueDateMissing

  /** Amounts are stored in hundredths. */
  function AmountDecimal(amount: int): Decimal {
    Decimal(amount, -2)
  }

  predicate Applies(issue: Issue, d: Deal, cp: Option<Counterparty>, currencies: map<string, Currency>) {
    match issue
    case NotDraft => !d.state.Draft?
    case SameCurrency => d.terms.buy == d.terms.sell
    case AmountNotPositive => d.terms.amount <= 0
    case RateNotPositive => d.terms.rate <= 0
    case BuyCurrencyUnknown => d.terms.buy !in currencies
    case AmountTooPrecise =>
      d.terms.buy in currencies && !DecimalsValid(AmountDecimal(d.terms.amount), currencies[d.terms.buy].decimalPlaces)
    case SellCurrencyUnknown => d.terms.sell !in currencies
    case CounterpartyUnknown => cp.None?
    case CounterpartyInactive => cp.Some? && !cp.value.active
    case ValueDateMissing => d.terms.dealType.Forward? && d.valueDate.None?
  }

  /** No issue applies. */
  predicate Passes(d: Deal, cp: Option<Counterparty>, currencies: map<string, Currency>) {
    && d.state.Draft?
    && d.terms.buy != d.terms.sell
    && d.terms.amount > 0
    && d.terms.rate > 0
    && d.terms.buy in currencies
    && d.terms.sell in currencies
    && DecimalsValid(AmountDecimal(d.terms.amount), currencies[d.terms.buy].decimalPlaces)
    && cp.Some?
    && cp.value.active
    && (d.terms.dealType.Forward? ==> d.valueDate.Some?)
  }

  /** The checks, in the order in which they run. */
  const CHECKS := [NotDraft, SameCurrency, AmountNotPositive, RateNotPositive, BuyCurrencyUnknown, AmountTooPrecise,
                   SellCurrencyUnknown, CounterpartyUnknown, CounterpartyInactive, ValueDateMissing]

  ghost function Issues(d: Deal, cp: Option<Counterparty>, currencies: map<string, Currency>): seq<Issue> {
    Filter(CHECKS, (i: Issue) => Applies(i, d, cp, currencies))
  }

  /** What the first k checks report. */
  ghost function Reported(k: nat, d: Deal, cp: Option<Counterparty>, currencies: map<string, Currency>): seq<Issue>
    requires k <= 10
  {
    Filter(CHECKS[..k], (i: Issue) => Applies(i, d, cp, currencies))
  }

  lemma NextCheck(k: nat, issue: Issue, d: Deal, cp: Option<Counterparty>, currencies: map<string, Currency>)
    requires k < 10 && CHECKS[k] == issue
    ensures Reported(k + 1, d, cp, currencies) ==
              if Applies(issue, d, cp, currencies) then Reported(k, d, cp, currencies) + [issue]
              else Reported(k, d, cp, currencies)
  {
    assert CHECKS[..k + 1][..k] == CHECKS[..k];
  }

  /** Reports every issue that applies, once and in check order, and nothing else. */
  method Validate(d: Deal, cp: Option<Counterparty>, currencies: map<string, Currency>) returns (issues: seq<Issue>)
    ensures issues == Issues(d, cp, currencies)
    ensures issues == [] <==> Passes(d, cp, currencies)
  {
    issues := ValidateTerms(d, cp, currencies);
    issues := ValidateNsi(d, cp, currencies, issues);
    NextCheck(9, ValueDateMissing, d, cp, currencies);
    if d.terms.dealType.Forward? && d.valueDate.None? {
      issues := issues + [ValueDateMissing];
    }
    assert CHECKS[..10] == CHECKS;
    NoIssuesIffPasses(d, cp, currencies);
  }

  method ValidateTerms(d: Deal, ghost cp: Option<Counterparty>, ghost currencies: map<string, Currency>)
    returns (issues: seq<Issue>)
    ensures issues == Reported(4, d, cp, currencies)
  {
    issues := [];
    assert issues == Reported(0, d, cp, currencies);
    NextCheck(0, NotDraft, d, cp, currencies);
    if !d.state.Draft? {
      issues := issues + [NotDraft];
    }
    assert issues == Reported(1, d, cp, currencies);
    NextCheck(1, SameCurrency, d, cp, currencies);
    if d.terms.buy == d.terms.sell {
      issues := issues + [SameCurrency];
    }
    assert issues == Reported(2, d, cp, currencies);
    NextCheck(2, AmountNotPositive, d, cp, currencies);
    if d.terms.amount <= 0 {
      issues := issues + [AmountNotPositive];
    }
    assert issues == Reported(3, d, cp, currencies);
    NextCheck(3, RateNotPositive, d, cp, currencies);
    if d.terms.rate <= 0 {
      issues := issues + [RateNotPositive];
    }
  }

  method ValidateNsi(d: Deal, cp: Option<Counterparty>, currencies: map<string, Currency>, soFar: seq<Issue>)
    returns (issues: seq<Issue>)
    requires soFar == Reported(4, d, cp, currencies)
    ensures issues == Reported(9, d, cp, currencies)
  {
    issues := soFar;
    NextCheck(4, BuyCurrencyUnknown, d, cp, currencies);
    NextCheck(5, AmountTooPrecise, d, cp, currencies);
    var buy := Lookup(currencies, d.terms.buy);
    if buy.None? {
      issues := issues + [BuyCurrencyUnknown];
    } else if !DecimalsValid(AmountDecimal(d.terms.amount), buy.value.decimalPlaces) {
      issues := issues + [AmountTooPrecise];
    }
    assert issues == Reported(6, d, cp, currencies);
    NextCheck(6, SellCurrencyUnknown, d, cp, currencies);
    var sell := Lookup(currencies, d.terms.sell);
    if sell.None? {
      issues := issues + [SellCurrencyUnknown];
    }
    assert issues == Reported(7, d, cp, currencies);
    NextCheck(7, CounterpartyUnknown, d, cp, currencies);
    NextCheck(8, CounterpartyInactive, d, cp, currencies);
    if cp.None? {
      issues := issues + [CounterpartyUnknown];
    } else if !cp.value.active {
      issues := issues + [CounterpartyInactive];
    }
  }

  lemma EveryCheckRuns(i: Issue)
    ensures i in CHECKS
  {
    var k := match i
      case NotDraft => 0
      case SameCurrency => 1
      case AmountNotPositive => 2
      case RateNotPositive => 3
      case BuyCurrencyUnknown => 4
      case AmountTooPrecise => 5
      case SellCurrencyUnknown => 6
      case CounterpartyUnknown => 7
      case CounterpartyInactive => 8
      case ValueDateMissing => 9;
    assert CHECKS[k] == i;
  }

  /** The amount has more decimals than its currency allows: a currency without decimals takes whole
      units, one with a single decimal takes tenths, any other takes every stored amount. */
  lemma TooPreciseIff(d: Deal, cp: Option<Counterparty>, currencies: map<string, Currency>)
    requires -10_000_000_000_000_000_000_000_000_000 < d.terms.amount < 10_000_000_000_000_000_000_000_000_000
    ensures Applies(AmountTooPrecise, d, cp, currencies) <==>
              && d.terms.buy in currencies
              && var places := currencies[d.terms.buy].decimalPlaces;
                 if places <= 0 then d.terms.amount % 100 != 0
                 else if places == 1 then d.terms.amount % 10 != 0
                 else false
  {
    if d.terms.buy in currencies {
      StoredAmountPrecision(d.terms.amount, currencies[d.terms.buy].decimalPlaces);
    }
  }

  /** What passes, in plain terms, for an amount of at most 28 digits. */
  lemma PassesInWords(d: Deal, cp: Option<Counterparty>, currencies: map<string, Currency>)
    requires -10_000_000_000_000_000_000_000_000_000 < d.terms.amount < 10_000_000_000_000_000_000_000_000_000
    ensures Passes(d, cp, currencies) <==>
              && d.state == Draft && d.terms.buy != d.terms.sell && d.terms.amount > 0 && d.terms.rate > 0
              && d.terms.buy in currencies && d.terms.sell in currencies
              && (currencies[d.terms.buy].decimalPlaces <= 0 ==> d.terms.amount % 100 == 0)
              && (currencies[d.terms.buy].decimalPlaces == 1 ==> d.terms.amount % 10 == 0)
              && cp != None && cp.value.active
              && (d.terms.dealType == Forward ==> d.valueDate != None)
  {
    if d.terms.buy in currencies {
      StoredAmountPrecision(d.terms.amount, currencies[d.terms.buy].decimalPlaces);
    }
  }

  lemma PassesIffNoneApplies(d: Deal, cp: Option<Counterparty>, currencies: map<string, Currency>)
    ensures Passes(d, cp, currencies) <==> forall i :: !Applies(i, d, cp, currencies)
  {
    if forall i :: !Applies(i, d, cp, currencies) {
      assert !Applies(NotDraft, d, cp, currencies);
      assert !Applies(SameCurrency, d, cp, currencies);
      assert !Applies(AmountNotPositive, d, cp, currencies);
      assert !Applies(RateNotPositive, d, cp, currencies);
      assert !Applies(BuyCurrencyUnknown, d, cp, currencies);
      assert !Applies(AmountTooPrecise, d, cp, currencies);
      assert !Applies(SellCurrencyUnknown, d, cp, currencies);
      assert !Applies(CounterpartyUnknown, d, cp, currencies);
      assert !Applies(CounterpartyInactive, d, cp, currencies);
      assert !Applies(ValueDateMissing, d, cp, currencies);
    }
  }

  /** The place of each check. */
  function Rank(issue: Issue): int {
    match issue
    case NotDraft => 1
    case SameCurrency => 2
    case AmountNotPositive => 3
    case RateNotPositive => 4
    case BuyCurrencyUnknown => 5
    case AmountTooPrecise => 6
    case SellCurrencyUnknown => 7
    case CounterpartyUnknown => 8
    case CounterpartyInactive => 9
    case ValueDateMissing => 10
  }

  lemma ChecksAscend(key: Issue -> int)
    requires forall i :: key(i) == Rank(i)
    ensures Ascends(CHECKS, key)
  {
    forall k | 0 <= k < |CHECKS|
      ensures key(CHECKS[k]) == k + 1
    {
      RankIs(k);
    }
  }

  lemma RankIs(k: nat)
    requires k < |CHECKS|
    ensures Rank(CHECKS[k]) == k + 1
  {
  }

  /** Issues come in the order state, currencies, amount, rate, buy side, sell side, counterparty, value
      date, and none comes twice. */
  lemma IssuesInOrder(d: Deal, cp: Option<Counterparty>, currencies: map<string, Currency>)
    ensures var issues := Issues(d, cp, currencies);
      forall i, j :: 0 <= i < j < |issues| ==> Rank(issues[i]) < Rank(issues[j])
  {
    var key := (i: Issue) => Rank(i);
    ChecksAscend(key);
    FilterAscends(CHECKS, (i: Issue) => Applies(i, d, cp, currencies), key);
    assert Ascends(Issues(d, cp, currencies), key);
  }

  /** The list says exactly which checks apply, and is empty exactly when the deal passes. */
  lemma NoIssuesIffPasses(d: Deal, cp: Option<Counterparty>, currencies: map<string, Currency>)
    ensures forall i :: i in Issues(d, cp, currencies) <==> Applies(i, d, cp, currencies)
    ensures Issues(d, cp, currencies) == [] <==> Passes(d, cp, currencies)
  {
    var issues := Issues(d, cp, currencies);
    FilterMembers(CHECKS, (i: Issue) => Applies(i, d, cp, currencies));
    forall i: Issue
      ensures i in CHECKS
    {
      EveryCheckRuns(i);
    }
    PassesIffNoneApplies(d, cp, currencies);
    assert forall i :: i in issues <==> Applies(i, d, cp, currencies);
    if issues != [] {
      assert issues[0] in issues;
    }
  }
}
