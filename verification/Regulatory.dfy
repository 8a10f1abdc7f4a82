/** The regulatory report: its check of the reference data, its account resolution, and how both
    agree with what validation assigned. */
module Regulatory {
  import opened Domain
  import opened Tables
  import opened Payments
  import opened Lifecycle
  import opened Invariants
  import opened ValidateOutcomes

  datatype Problem =
    | CounterpartyMissing
    | CounterpartyIdEmpty
    | CounterpartyNameEmpty
    | CounterpartyBicEmpty
    | BuyCurrencyMissing
    | SellCurrencyMissing
    | AccountCodeEmpty
    | AccountMissing
    | AccountInactive

  datatype NsiError = NsiError(deal: DealId, problem: Problem)

  // ----- account resolution

  /** A dictionary by account number keeps the last of the rows that share one. */
  function LastWithNumber(accounts: seq<NostroAccount>, number: string): Option<NostroAccount> {
    if accounts == [] then None
    else if accounts[|accounts| - 1].number == number then Some(accounts[|accounts| - 1])
    else LastWithNumber(accounts[..|accounts| - 1], number)
  }

  function LastWithId(accounts: seq<NostroAccount>, id: string): Option<NostroAccount> {
    if accounts == [] then None
    else if accounts[|accounts| - 1].id == id then Some(accounts[|accounts| - 1])
    else LastWithId(accounts[..|accounts| - 1], id)
  }

  /** By number first, then by id; inactive accounts are found too. */
  function Resolve(accounts: seq<NostroAccount>, code: string): Option<NostroAccount> {
    var byNumber := LastWithNumber(accounts, code);
    if byNumber.Some? then byNumber else LastWithId(accounts, code)
  }

  // ----- the reference-data check

  function Opt(applies: bool, id: DealId, problem: Problem): seq<NsiError> {
    if applies then [NsiError(id, problem)] else []
  }

  function CounterpartyErrors(id: DealId, cp: Option<Counterparty>): seq<NsiError> {
    match cp
    case None => [NsiError(id, CounterpartyMissing)]
    case Some(c) =>
      Opt(c.id == "", id, CounterpartyIdEmpty) +
      Opt(c.name == "", id, CounterpartyNameEmpty) +
      Opt(c.bic == None || c.bic == Some(""), id, CounterpartyBicEmpty)
  }

  function AccountErrors(id: DealId, p: Payment, accounts: seq<NostroAccount>): seq<NsiError> {
    if p.account == None || p.account == Some("") then [NsiError(id, AccountCodeEmpty)]
    else
      match Resolve(accounts, p.account.value)
      case None => [NsiError(id, AccountMissing)]
      case Some(a) => Opt(!a.active, id, AccountInactive)
  }

  function PaymentErrors(id: DealId, payments: seq<Payment>, accounts: seq<NostroAccount>): seq<NsiError> {
    if payments == [] then []
    else PaymentErrors(id, payments[..|payments| - 1], accounts) + AccountErrors(id, payments[|payments| - 1], accounts)
  }

  function PartyErrors(id: DealId, d: Deal, nsi: Nsi): seq<NsiError> {
    CounterpartyErrors(id, Lookup(nsi.counterparties, d.terms.counterparty)) +
    Opt(d.terms.buy !in nsi.currencies, id, BuyCurrencyMissing) +
    Opt(d.terms.sell !in nsi.currencies, id, SellCurrencyMissing)
  }

  /** Deals that are not VALID are skipped. */
  function DealErrors(id: DealId, d: Deal, nsi: Nsi): seq<NsiError> {
    if !d.status.Valid? then [] else PartyErrors(id, d, nsi) + PaymentErrors(id, d.payments, nsi.nostros)
  }

  function ErrorsOf(nsi: Nsi): ((DealId, Deal)) -> seq<NsiError> {
    (deal: (DealId, Deal)) => DealErrors(deal.0, deal.1, nsi)
  }

  function AllErrors(deals: seq<(DealId, Deal)>, nsi: Nsi): seq<NsiError> {
    FlatMap(deals, ErrorsOf(nsi))
  }

  /** One VALID deal: counterparty and currencies, then each payment's account. */
  method ValidateDealNsi(id: DealId, d: Deal, nsi: Nsi) returns (errors: seq<NsiError>)
    requires d.status.Valid?
    ensures errors == DealErrors(id, d, nsi)
  {
    errors := ValidateParties(id, d, nsi);
    for j := 0 to |d.payments|
      invariant errors == PartyErrors(id, d, nsi) + PaymentErrors(id, d.payments[..j], nsi.nostros)
    {
      assert d.payments[..j + 1][..j] == d.payments[..j];
      errors := errors + AccountErrors(id, d.payments[j], nsi.nostros);
    }
    assert d.payments[..|d.payments|] == d.payments;
  }

  method ValidateParties(id: DealId, d: Deal, nsi: Nsi) returns (errors: seq<NsiError>)
    ensures errors == PartyErrors(id, d, nsi)
  {
    errors := CounterpartyErrors(id, Lookup(nsi.counterparties, d.terms.counterparty));
    if d.terms.buy !in nsi.currencies {
      errors := errors + [NsiError(id, BuyCurrencyMissing)];
    }
    if d.terms.sell !in nsi.currencies {
      errors := errors + [NsiError(id, SellCurrencyMissing)];
    }
  }

  method ValidateNsi(deals: seq<(DealId, Deal)>, nsi: Nsi) returns (errors: seq<NsiError>)
    ensures errors == AllErrors(deals, nsi)
  {
    errors := [];
    for i := 0 to |deals|
      invariant errors == AllErrors(deals[..i], nsi)
    {
      assert deals[..i + 1][..i] == deals[..i];
      if deals[i].1.status.Valid? {
        var dealErrors := ValidateDealNsi(deals[i].0, deals[i].1, nsi);
        errors := errors + dealErrors;
      }
    }
    assert deals[..|deals|] == deals;
  }

  // ----- the export

  datatype ExportedPayment = ExportedPayment(payment: Payment, accountNumber: Option<string>, bank: Option<string>)

  datatype ExportedCounterparty = ExportedCounterparty(
    id: string,
    name: Option<string>,
    bic: Option<string>,
    country: Option<string>,
    active: Option<bool>)

  datatype Export = Export(
    deal: DealId,
    tradeDate: Day,
    valueDate: Option<Day>,
    dealType: DealType,
    operation: Operation,
    buy: Currency,
    sell: Currency,
    amount: int,
    rate: int,
    state: DealState,
    status: ValidationStatus,
    trader: string,
    positioner: Option<string>,
    counterparty: ExportedCounterparty,
    payments: seq<ExportedPayment>)

  function ExportPayment(p: Payment, accounts: seq<NostroAccount>): ExportedPayment {
    match Resolve(accounts, if p.account.Some? then p.account.value else "")
    case None => ExportedPayment(p, None, None)
    case Some(a) => ExportedPayment(p, Some(a.number), Some(a.bank))
  }

  /** The counterparty's row, or without one only the id that the deal stores. */
  predicate ExportsCounterparty(e: ExportedCounterparty, id: string, nsi: Nsi) {
    if id in nsi.counterparties then
      var row := nsi.counterparties[id];
      e.id == row.id && e.name == Some(row.name) && e.bic == row.bic && e.country == row.country
      && e.active == Some(row.active)
    else e.id == id && e.name == None && e.bic == None && e.country == None && e.active == None
  }

  /** e exports exactly this deal: its columns, its reference data, and each payment in order with
      its account. */
  predicate Exports(e: Export, id: DealId, d: Deal, nsi: Nsi) {
    && CurrenciesKnown(d, nsi)
    && e.deal == id && e.state == d.state && e.status == d.status
    && e.trader == d.trader && e.positioner == d.positioner
    && e.tradeDate == d.terms.tradeDate && e.valueDate == d.valueDate
    && e.dealType == d.terms.dealType && e.operation == d.terms.operation
    && e.amount == d.terms.amount && e.rate == d.terms.rate
    && e.buy == nsi.currencies[d.terms.buy] && e.sell == nsi.currencies[d.terms.sell]
    && ExportsCounterparty(e.counterparty, d.terms.counterparty, nsi)
    && |e.payments| == |d.payments|
    && forall i :: 0 <= i < |d.payments| ==> e.payments[i] == ExportPayment(d.payments[i], nsi.nostros)
  }

  predicate CurrenciesKnown(d: Deal, nsi: Nsi) {
    d.terms.buy in nsi.currencies && d.terms.sell in nsi.currencies
  }

  /** None where indexing the currencies raises KeyError. */
  method SerializeDeal(id: DealId, d: Deal, nsi: Nsi) returns (r: Option<Export>)
    ensures r.Some? <==> CurrenciesKnown(d, nsi)
    ensures r.Some? ==> Exports(r.value, id, d, nsi)
    ensures r.Some? ==>
              && r.value == Export(id, d.terms.tradeDate, d.valueDate, d.terms.dealType, d.terms.operation,
                                   nsi.currencies[d.terms.buy], nsi.currencies[d.terms.sell],
                                   d.terms.amount, d.terms.rate, d.state, d.status, d.trader, d.positioner,
                                   r.value.counterparty, r.value.payments)
    ensures r.Some? && d.terms.counterparty in nsi.counterparties ==>
              var row := nsi.counterparties[d.terms.counterparty];
              r.value.counterparty ==
                ExportedCounterparty(row.id, Some(row.name), row.bic, row.country, Some(row.active))
    ensures r.Some? && d.terms.counterparty !in nsi.counterparties ==>
              r.value.counterparty == ExportedCounterparty(d.terms.counterparty, None, None, None, None)
    ensures r.Some? ==>
              && |r.value.payments| == |d.payments|
              && forall i :: 0 <= i < |d.payments| ==>
                   var account := Resolve(nsi.nostros, if d.payments[i].account == None then ""
                                                       else d.payments[i].account.value);
                   && r.value.payments[i].payment == d.payments[i]
                   && (account == None ==> r.value.payments[i].accountNumber == r.value.payments[i].bank == None)
                   && (account != None ==> && r.value.payments[i].accountNumber == Some(account.value.number)
                                           && r.value.payments[i].bank == Some(account.value.bank))
  {
    if d.terms.buy !in nsi.currencies || d.terms.sell !in nsi.currencies {
      return None;
    }
    var payments: seq<ExportedPayment> := [];
    for i := 0 to |d.payments|
      invariant |payments| == i
      invariant forall j :: 0 <= j < i ==> payments[j] == ExportPayment(d.payments[j], nsi.nostros)
    {
      payments := payments + [ExportPayment(d.payments[i], nsi.nostros)];
    }
    var t := d.terms;
    var counterparty := ExportedCounterparty(t.counterparty, None, None, None, None);
    if t.counterparty in nsi.counterparties {
      var row := nsi.counterparties[t.counterparty];
      counterparty := ExportedCounterparty(row.id, Some(row.name), row.bic, row.country, Some(row.active));
    }
    return Some(Export(id, t.tradeDate, d.valueDate, t.dealType, t.operation,
                       nsi.currencies[t.buy], nsi.currencies[t.sell], t.amount, t.rate,
                       d.state, d.status, d.trader, d.positioner, counterparty, payments));
  }

  datatype Report = Incomplete(errors: seq<NsiError>) | KeyError | Complete(items: seq<Export>)

  /** The report is refused exactly when some VALID deal has a problem; otherwise it raises exactly
      when a deal that is not VALID, and so was never checked, names an unknown currency; otherwise it
      exports every deal. */
  ghost predicate Answers(r: Report, deals: seq<(DealId, Deal)>, nsi: Nsi) {
    var clean := forall i :: 0 <= i < |deals| ==> Clean(deals[i], nsi);
    var known := forall i :: 0 <= i < |deals| ==> deals[i].1.status.Valid? || CurrenciesKnown(deals[i].1, nsi);
    match r
    case Incomplete(errors) => !clean && errors == AllErrors(deals, nsi)
    case KeyError => clean && !known
    case Complete(items) =>
      && clean && known && |items| == |deals|
      && forall i :: 0 <= i < |deals| ==> Exports(items[i], deals[i].0, deals[i].1, nsi)
  }

  method Generate(deals: seq<(DealId, Deal)>, nsi: Nsi) returns (r: Report)
    ensures Answers(r, deals, nsi)
  {
    var errors := ValidateNsi(deals, nsi);
    NoErrorsIffAllClean(deals, nsi);
    if errors != [] {
      return Incomplete(errors);
    }
    forall i | 0 <= i < |deals| && deals[i].1.status.Valid?
      ensures CurrenciesKnown(deals[i].1, nsi)
    {
      CheckedCurrenciesKnown(deals[i].0, deals[i].1, nsi);
    }
    var items := SerializeAll(deals, nsi);
    if items.None? {
      return KeyError;
    }
    return Complete(items.value);
  }

  method SerializeAll(deals: seq<(DealId, Deal)>, nsi: Nsi) returns (r: Option<seq<Export>>)
    ensures r.Some? <==> forall i :: 0 <= i < |deals| ==> CurrenciesKnown(deals[i].1, nsi)
    ensures r.Some? ==>
              |r.value| == |deals| && forall i :: 0 <= i < |deals| ==> Exports(r.value[i], deals[i].0, deals[i].1, nsi)
  {
    var items: seq<Export> := [];
    for i := 0 to |deals|
      invariant |items| == i
      invariant forall j :: 0 <= j < i ==> Exports(items[j], deals[j].0, deals[j].1, nsi)
    {
      var item := SerializeDeal(deals[i].0, deals[i].1, nsi);
      if item.None? {
        return None;
      }
      items := items + [item.value];
    }
    return Some(items);
  }

  predicate Clean(deal: (DealId, Deal), nsi: Nsi) {
    DealErrors(deal.0, deal.1, nsi) == []
  }

  lemma NoErrorsIffAllClean(deals: seq<(DealId, Deal)>, nsi: Nsi)
    ensures AllErrors(deals, nsi) == [] <==> forall i :: 0 <= i < |deals| ==> Clean(deals[i], nsi)
  {
    FlatMapEmpty(deals, ErrorsOf(nsi));
    assert forall i :: 0 <= i < |deals| ==> (Clean(deals[i], nsi) <==> ErrorsOf(nsi)(deals[i]) == []);
  }

  lemma CheckedCurrenciesKnown(id: DealId, d: Deal, nsi: Nsi)
    requires d.status.Valid? && DealErrors(id, d, nsi) == []
    ensures CurrenciesKnown(d, nsi)
  {
    var buy := Opt(d.terms.buy !in nsi.currencies, id, BuyCurrencyMissing);
    var sell := Opt(d.terms.sell !in nsi.currencies, id, SellCurrencyMissing);
    assert |DealErrors(id, d, nsi)| >= |PartyErrors(id, d, nsi)| >= |buy| + |sell|;
  }

  // ----- the list of errors in plain terms

  lemma {:induction false} PaymentErrorsList(id: DealId, payments: seq<Payment>, accounts: seq<NostroAccount>,
                                             e: NsiError)
    ensures e in PaymentErrors(id, payments, accounts) <==>
              exists i :: 0 <= i < |payments| && e in AccountErrors(id, payments[i], accounts)
  {
    if payments != [] {
      var front := payments[..|payments| - 1];
      PaymentErrorsList(id, front, accounts, e);
      if i :| 0 <= i < |payments| && e in AccountErrors(id, payments[i], accounts) {
        assert i < |front| ==> front[i] == payments[i];
      }
      if i :| 0 <= i < |front| && e in AccountErrors(id, front[i], accounts) {
        assert payments[i] == front[i];
      }
    }
  }

  /** Resolution by number finds the last row with that number, and only without one the last row with
      that id. */
  lemma ResolveInWords(accounts: seq<NostroAccount>, code: string)
    ensures Resolve(accounts, code).None? <==>
              forall i :: 0 <= i < |accounts| ==> accounts[i].number != code && accounts[i].id != code
    ensures Resolve(accounts, code).Some? ==>
      exists i :: && 0 <= i < |accounts| && Resolve(accounts, code) == Some(accounts[i])
                  && (|| (accounts[i].number == code && forall j :: i < j < |accounts| ==> accounts[j].number != code)
                      || (&& accounts[i].id == code
                          && (forall j :: i < j < |accounts| ==> accounts[j].id != code)
                          && (forall j :: 0 <= j < |accounts| ==> accounts[j].number != code)))
  {
    LastWithNumberIs(accounts, code);
    LastWithIdIs(accounts, code);
  }

  lemma {:induction false} LastWithIdIs(accounts: seq<NostroAccount>, id: string)
    ensures LastWithId(accounts, id).None? <==> forall i :: 0 <= i < |accounts| ==> accounts[i].id != id
    ensures LastWithId(accounts, id).Some? ==>
      exists i :: && 0 <= i < |accounts|
                  && accounts[i].id == id && LastWithId(accounts, id) == Some(accounts[i])
                  && forall j :: i < j < |accounts| ==> accounts[j].id != id
  {
    if accounts != [] && accounts[|accounts| - 1].id != id {
      var front := accounts[..|accounts| - 1];
      LastWithIdIs(front, id);
      if LastWithId(front, id).Some? {
        var i :| && 0 <= i < |front|
                 && front[i].id == id && LastWithId(front, id) == Some(front[i])
                 && forall j :: i < j < |front| ==> front[j].id != id;
        assert accounts[i] == front[i];
      }
    }
  }

  /** When each problem is reported of a deal. */
  ghost predicate HasProblem(problem: Problem, d: Deal, nsi: Nsi) {
    var cp := d.terms.counterparty;
    match problem
    case CounterpartyMissing => cp !in nsi.counterparties
    case CounterpartyIdEmpty => cp in nsi.counterparties && nsi.counterparties[cp].id == ""
    case CounterpartyNameEmpty => cp in nsi.counterparties && nsi.counterparties[cp].name == ""
    case CounterpartyBicEmpty => cp in nsi.counterparties && nsi.counterparties[cp].bic in {None, Some("")}
    case BuyCurrencyMissing => d.terms.buy !in nsi.currencies
    case SellCurrencyMissing => d.terms.sell !in nsi.currencies
    case AccountCodeEmpty => exists p :: p in d.payments && p.account in {None, Some("")}
    case AccountMissing =>
      exists p :: p in d.payments && p.account !in {None, Some("")} && Resolve(nsi.nostros, p.account.value).None?
    case AccountInactive =>
      exists p :: && p in d.payments && p.account !in {None, Some("")}
                  && Resolve(nsi.nostros, p.account.value).Some? && !Resolve(nsi.nostros, p.account.value).value.active
  }

  ghost predicate IsAccountProblem(id: DealId, p: Payment, accounts: seq<NostroAccount>, e: NsiError) {
    && e.deal == id
    && if p.account in {None, Some("")} then e.problem == AccountCodeEmpty
       else if Resolve(accounts, p.account.value).None? then e.problem == AccountMissing
       else !Resolve(accounts, p.account.value).value.active && e.problem == AccountInactive
  }

  lemma AccountProblem(id: DealId, p: Payment, accounts: seq<NostroAccount>, e: NsiError)
    ensures e in AccountErrors(id, p, accounts) <==> IsAccountProblem(id, p, accounts, e)
  {
  }

  /** The errors of a VALID deal name it and exactly the problems it has. */
  lemma DealErrorsList(id: DealId, d: Deal, nsi: Nsi, e: NsiError)
    ensures e in DealErrors(id, d, nsi) <==>
              d.status == ValidationStatus.Valid && e.deal == id && HasProblem(e.problem, d, nsi)
  {
    PartyErrorsList(id, d, nsi, e);
    PaymentErrorsList(id, d.payments, nsi.nostros, e);
    forall i | 0 <= i < |d.payments|
      ensures d.payments[i] in d.payments
      ensures e in AccountErrors(id, d.payments[i], nsi.nostros) <==>
                IsAccountProblem(id, d.payments[i], nsi.nostros, e)
    {
      AccountProblem(id, d.payments[i], nsi.nostros, e);
    }
  }

  lemma PartyErrorsList(id: DealId, d: Deal, nsi: Nsi, e: NsiError)
    ensures e in PartyErrors(id, d, nsi) <==>
              && e.deal == id && HasProblem(e.problem, d, nsi)
              && !(e.problem.AccountCodeEmpty? || e.problem.AccountMissing? || e.problem.AccountInactive?)
  {
    var cp := CounterpartyErrors(id, Lookup(nsi.counterparties, d.terms.counterparty));
    var buy := Opt(d.terms.buy !in nsi.currencies, id, BuyCurrencyMissing);
    var sell := Opt(d.terms.sell !in nsi.currencies, id, SellCurrencyMissing);
    CounterpartyErrorsList(id, d, nsi, e);
    assert e in PartyErrors(id, d, nsi) <==> e in cp || e in buy || e in sell;
  }

  lemma CounterpartyErrorsList(id: DealId, d: Deal, nsi: Nsi, e: NsiError)
    ensures e in CounterpartyErrors(id, Lookup(nsi.counterparties, d.terms.counterparty)) <==>
              && e.deal == id && HasProblem(e.problem, d, nsi)
              && (|| e.problem.CounterpartyMissing? || e.problem.CounterpartyIdEmpty?
                  || e.problem.CounterpartyNameEmpty? || e.problem.CounterpartyBicEmpty?)
  {
    if d.terms.counterparty in nsi.counterparties {
      var row := nsi.counterparties[d.terms.counterparty];
      var noId, noName := Opt(row.id == "", id, CounterpartyIdEmpty), Opt(row.name == "", id, CounterpartyNameEmpty);
      var noBic := Opt(row.bic == None || row.bic == Some(""), id, CounterpartyBicEmpty);
      assert e in noId + noName + noBic <==> e in noId || e in noName || e in noBic;
    }
  }

  // ----- agreement with validation

  /** The dictionary finds the row that carries the number and has no later row with the same one. */
  lemma {:induction false} LastWithNumberIs(accounts: seq<NostroAccount>, number: string)
    ensures LastWithNumber(accounts, number).None? <==> forall i :: 0 <= i < |accounts| ==> accounts[i].number != number
    ensures LastWithNumber(accounts, number).Some? ==>
      exists i :: && 0 <= i < |accounts|
                  && accounts[i].number == number && LastWithNumber(accounts, number) == Some(accounts[i])
                  && forall j :: i < j < |accounts| ==> accounts[j].number != number
  {
    if accounts != [] && accounts[|accounts| - 1].number != number {
      var front := accounts[..|accounts| - 1];
      LastWithNumberIs(front, number);
      if LastWithNumber(front, number).Some? {
        var i :| && 0 <= i < |front|
                 && front[i].number == number && LastWithNumber(front, number) == Some(front[i])
                 && forall j :: i < j < |front| ==> front[j].number != number;
        assert accounts[i] == front[i];
      }
    }
  }

  /** Account ids are the primary key. */
  ghost predicate DistinctIds(accounts: seq<NostroAccount>) {
    forall i, j :: 0 <= i < j < |accounts| ==> accounts[i].id != accounts[j].id
  }

  ghost predicate DistinctNumbers(accounts: seq<NostroAccount>) {
    forall i, j :: 0 <= i < j < |accounts| ==> accounts[i].number != accounts[j].number
  }

  /** No row after a carries its number. */
  ghost predicate LastCarrier(accounts: seq<NostroAccount>, a: NostroAccount) {
    forall i, j :: 0 <= i < j < |accounts| && accounts[i] == a ==> accounts[j].number != a.number
  }

  /** The dictionary by number gives an account itself exactly when no later row carries its number. */
  lemma FoundByNumberIff(accounts: seq<NostroAccount>, a: NostroAccount)
    requires DistinctIds(accounts) && a in accounts
    ensures LastWithNumber(accounts, a.number) == Some(a) <==> LastCarrier(accounts, a)
  {
    LastWithNumberIs(accounts, a.number);
    var k :| 0 <= k < |accounts| && accounts[k] == a;
    var found := LastWithNumber(accounts, a.number);
    var i :| && 0 <= i < |accounts|
             && accounts[i].number == a.number && found == Some(accounts[i])
             && forall j :: i < j < |accounts| ==> accounts[j].number != a.number;
    assert LastCarrier(accounts, a) ==> i == k;
  }

  predicate CounterpartyComplete(cp: Counterparty) {
    cp.id != "" && cp.name != "" && cp.bic.Some? && cp.bic.value != ""
  }

  /** The number is non-empty and its last carrier is active. */
  predicate Reportable(accounts: seq<NostroAccount>, a: NostroAccount) {
    && a.number != ""
    && LastWithNumber(accounts, a.number).Some?
    && LastWithNumber(accounts, a.number).value.active
  }

  lemma AssignedAccount(accounts: seq<NostroAccount>, ccy: string)
    requires FirstActive(accounts, ccy).Some?
    ensures var a := FirstActive(accounts, ccy).value;
      a in accounts && a.active && LastWithNumber(accounts, a.number).Some?
  {
    FirstActiveIsLowest(accounts, ccy);
    LastWithNumberIs(accounts, FirstActive(accounts, ccy).value.number);
  }

  lemma PairErrors(id: DealId, p: Payment, q: Payment, accounts: seq<NostroAccount>)
    ensures PaymentErrors(id, [p, q], accounts) == AccountErrors(id, p, accounts) + AccountErrors(id, q, accounts)
  {
    assert [p, q][..1] == [p] && [p][..0] == [];
    assert PaymentErrors(id, [p], accounts) == AccountErrors(id, p, accounts);
  }

  lemma RowReportable(id: DealId, p: Payment, a: NostroAccount, accounts: seq<NostroAccount>)
    requires p.account == Some(a.number) && LastWithNumber(accounts, a.number).Some?
    ensures AccountErrors(id, p, accounts) == [] <==> Reportable(accounts, a)
  {
  }

  /** After a successful validate, with the reference tables unchanged, the report's check finds
      nothing wrong with the deal exactly when its counterparty is complete and both assigned
      account numbers are non-empty and still lead to an active account. */
  lemma ReportAcceptsValidatedIff(nsi: Nsi, id: DealId, d: Deal, v: Day)
    requires CanValidate(nsi, d, None)
    ensures DealErrors(id, Validated(nsi, d, v), nsi) == [] <==>
        && CounterpartyComplete(nsi.counterparties[d.terms.counterparty])
        && Reportable(nsi.nostros, FirstActive(nsi.nostros, d.terms.buy).value)
        && Reportable(nsi.nostros, FirstActive(nsi.nostros, d.terms.sell).value)
  {
    var rows := StoredPair(nsi, d.terms, v);
    PairErrors(id, rows[0], rows[1], nsi.nostros);
    AssignedAccount(nsi.nostros, d.terms.buy);
    AssignedAccount(nsi.nostros, d.terms.sell);
    RowReportable(id, rows[0], FirstActive(nsi.nostros, d.terms.buy).value, nsi.nostros);
    RowReportable(id, rows[1], FirstActive(nsi.nostros, d.terms.sell).value, nsi.nostros);
    var cp := Lookup(nsi.counterparties, d.terms.counterparty);
    assert CounterpartyErrors(id, cp) == [] <==> CounterpartyComplete(cp.value);
    assert PartyErrors(id, Validated(nsi, d, v), nsi) == CounterpartyErrors(id, cp);
  }

  /** The payment is exported under the lowest-id active account in its currency. */
  predicate ExportedAsAssigned(p: Payment, accounts: seq<NostroAccount>) {
    var a := FirstActive(accounts, p.currency);
    && a.Some? && p.account.Some?
    && Resolve(accounts, p.account.value) == a
    && ExportPayment(p, accounts) == ExportedPayment(p, Some(a.value.number), Some(a.value.bank))
  }

  lemma RowExportedIff(p: Payment, accounts: seq<NostroAccount>)
    requires DistinctIds(accounts)
    requires FirstActive(accounts, p.currency).Some?
    requires p.account == Some(FirstActive(accounts, p.currency).value.number)
    ensures ExportedAsAssigned(p, accounts) <==> LastCarrier(accounts, FirstActive(accounts, p.currency).value)
  {
    AssignedAccount(accounts, p.currency);
    FoundByNumberIff(accounts, FirstActive(accounts, p.currency).value);
  }

  /** A payment of a deal just validated is exported under the very account validation assigned exactly
      when no later row of the table carries that account's number. */
  lemma ExportAgreesIff(nsi: Nsi, d: Deal, v: Day, p: Payment)
    requires CanValidate(nsi, d, None) && DistinctIds(nsi.nostros)
    requires p in Validated(nsi, d, v).payments
    ensures FirstActive(nsi.nostros, p.currency).Some?
    ensures ExportedAsAssigned(p, nsi.nostros) <==>
              LastCarrier(nsi.nostros, FirstActive(nsi.nostros, p.currency).value)
  {
    RowExportedIff(p, nsi.nostros);
  }

  lemma LastCarrierIsReportable(accounts: seq<NostroAccount>, ccy: string)
    requires DistinctIds(accounts) && FirstActive(accounts, ccy).Some?
    requires FirstActive(accounts, ccy).value.number != ""
    requires LastCarrier(accounts, FirstActive(accounts, ccy).value)
    ensures Reportable(accounts, FirstActive(accounts, ccy).value)
  {
    AssignedAccount(accounts, ccy);
    FoundByNumberIff(accounts, FirstActive(accounts, ccy).value);
  }

  /** The report accepts the deal and exports both its payments as assigned. */
  ghost predicate Agrees(nsi: Nsi, id: DealId, d: Deal) {
    DealErrors(id, d, nsi) == [] && forall p :: p in d.payments ==> ExportedAsAssigned(p, nsi.nostros)
  }

  /** For every table with distinct ids, the report agrees with the validation in full exactly when the
      counterparty is complete and each assigned account has a non-empty number no later row carries. */
  lemma AgreesIff(nsi: Nsi, id: DealId, d: Deal, v: Day)
    requires CanValidate(nsi, d, None) && DistinctIds(nsi.nostros)
    ensures Agrees(nsi, id, Validated(nsi, d, v)) <==>
              var buy := FirstActive(nsi.nostros, d.terms.buy).value;
              var sell := FirstActive(nsi.nostros, d.terms.sell).value;
              && CounterpartyComplete(nsi.counterparties[d.terms.counterparty])
              && buy.number != "" && LastCarrier(nsi.nostros, buy)
              && sell.number != "" && LastCarrier(nsi.nostros, sell)
  {
    var rows := Validated(nsi, d, v).payments;
    var buy := FirstActive(nsi.nostros, d.terms.buy).value;
    var sell := FirstActive(nsi.nostros, d.terms.sell).value;
    ReportAcceptsValidatedIff(nsi, id, d, v);
    RowExportedIff(rows[0], nsi.nostros);
    RowExportedIff(rows[1], nsi.nostros);
    assert rows[0] in rows && rows[1] in rows;
    if buy.number != "" && LastCarrier(nsi.nostros, buy) && sell.number != "" && LastCarrier(nsi.nostros, sell) {
      LastCarrierIsReportable(nsi.nostros, d.terms.buy);
      LastCarrierIsReportable(nsi.nostros, d.terms.sell);
    }
  }

  /** With distinct non-empty account numbers and a complete counterparty, a deal just validated is
      reported without errors, each payment under the very account validation assigned: the
      lowest-id active one in its currency. */
  lemma ReportAgreesWithValidation(s: Store, nsi: Nsi, r: Request)
    requires LimitsFit(nsi) && Inv(s)
    requires r.ValidateDeal? && r.id in s.deals && ValidateStep(s, nsi, r).event == Checked(true)
    requires DistinctIds(nsi.nostros) && DistinctNumbers(nsi.nostros)
    requires forall a :: a in nsi.nostros ==> a.number != ""
    requires var cp := Lookup(nsi.counterparties, s.deals[r.id].terms.counterparty);
      cp.Some? ==> CounterpartyComplete(cp.value)
    ensures r.id in ValidateStep(s, nsi, r).store.deals
    ensures Agrees(nsi, r.id, ValidateStep(s, nsi, r).store.deals[r.id])
    ensures CurrenciesKnown(ValidateStep(s, nsi, r).store.deals[r.id], nsi)
  {
    var d := s.deals[r.id];
    var v := Judge(nsi, d).valueDate;
    SuccessNeedsCanValidate(s, nsi, r);
    CanValidateSucceeds(s, nsi, r, v);
    AssignedAccount(nsi.nostros, d.terms.buy);
    AssignedAccount(nsi.nostros, d.terms.sell);
    AgreesIff(nsi, r.id, d, v);
  }

  /** An inactive account that repeats the number of the assigned one takes its place in the report. */
  lemma SharedNumberMisleadsReport()
    ensures exists accounts: seq<NostroAccount>, a: NostroAccount, b: NostroAccount ::
      && FirstActive(accounts, "USD") == Some(a)
      && Resolve(accounts, a.number) == Some(b)
      && b != a && !b.active
  {
    var a := NostroAccount("NOS-1", "USD", "Bank", "363", true);
    var b := NostroAccount("NOS-2", "USD", "Bank", "363", false);
    var accounts := [a, b];
    assert accounts[..1] == [a] && [a][..0] == [];
    assert FirstActive([a], "USD") == Some(a);
    assert FirstActive(accounts, "USD") == Some(a);
    assert Resolve(accounts, a.number) == Some(b);
  }
}
