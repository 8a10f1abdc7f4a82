/** The two payments of a deal and the nostro accounts they are paid through. */
module Payments {
  import opened Domain
  import opened Money
  import opened Tables

  /** Both legs; None where the counter amount raises InvalidOperation. */
  function Calculate(t: Terms, valueDate: Day): Option<seq<CalculatedPayment>> {
    match CounterAmount(t.amount, t.rate)
    case None => None
    case Some(counter) => Some(
      if t.operation.Buy? then
        [CalculatedPayment(t.amount, t.buy, In, valueDate), CalculatedPayment(counter, t.sell, Out, valueDate)]
      else
        [CalculatedPayment(t.amount, t.buy, Out, valueDate), CalculatedPayment(counter, t.sell, In, valueDate)])
  }

  // ----- nostro queries

  /** The lowest-id active account in a currency; accounts are in id order. */
  function FirstActive(accounts: seq<NostroAccount>, ccy: string): Option<NostroAccount> {
    if accounts == [] then None
    else
      var front := FirstActive(accounts[..|accounts| - 1], ccy);
      var last := accounts[|accounts| - 1];
      if front.None? && last.active && last.currency == ccy then Some(last) else front
  }

  lemma {:induction false} FirstActiveIsLowest(accounts: seq<NostroAccount>, ccy: string)
    ensures FirstActive(accounts, ccy).None? <==> forall a :: a in accounts && a.active ==> a.currency != ccy
    ensures FirstActive(accounts, ccy).Some? ==>
      exists i :: && 0 <= i < |accounts|
                  && FirstActive(accounts, ccy) == Some(accounts[i])
                  && accounts[i].active && accounts[i].currency == ccy
                  && forall j :: 0 <= j < i ==> !(accounts[j].active && accounts[j].currency == ccy)
  {
    if accounts != [] {
      var front := accounts[..|accounts| - 1];
      FirstActiveIsLowest(front, ccy);
      assert accounts == front + [accounts[|accounts| - 1]];
      if FirstActive(front, ccy).Some? {
        var i :| && 0 <= i < |front|
                 && FirstActive(front, ccy) == Some(front[i])
                 && front[i].active && front[i].currency == ccy
                 && forall j :: 0 <= j < i ==> !(front[j].active && front[j].currency == ccy);
        assert accounts[i] == front[i];
      } else {
        assert forall j :: 0 <= j < |front| ==> front[j] in front;
      }
    }
  }

  /** setdefault while walking the active accounts keeps the first one of each currency. */
  method NostroByCurrency(table: seq<NostroAccount>) returns (result: map<string, NostroAccount>)
    ensures forall ccy :: Lookup(result, ccy) == FirstActive(table, ccy)
  {
    result := map[];
    for i := 0 to |table|
      invariant forall ccy :: Lookup(result, ccy) == FirstActive(table[..i], ccy)
    {
      assert table[..i + 1][..i] == table[..i];
      var account := table[i];
      if account.active && account.currency !in result {
        result := result[account.currency := account];
      }
      assert forall ccy :: FirstActive(table[..i + 1], ccy) ==
                           if FirstActive(table[..i], ccy).None? && account.active && account.currency == ccy
                           then Some(account) else FirstActive(table[..i], ccy);
    }
    assert table[..|table|] == table;
  }

  // ----- assignment

  function AccountOf(p: CalculatedPayment, nostro: map<string, NostroAccount>): Option<NostroAccount> {
    Lookup(nostro, p.currency)
  }

  /** Payments whose currency has an account, with that account's number. */
  function Assigned(payments: seq<CalculatedPayment>, nostro: map<string, NostroAccount>)
    : seq<(CalculatedPayment, string)>
  {
    if payments == [] then []
    else
      var last := payments[|payments| - 1];
      Assigned(payments[..|payments| - 1], nostro) +
      match AccountOf(last, nostro)
      case None => []
      case Some(a) => [(last, a.number)]
  }

  /** Currencies of the payments that have no account. */
  function Missing(payments: seq<CalculatedPayment>, nostro: map<string, NostroAccount>): seq<string> {
    if payments == [] then []
    else
      var last := payments[|payments| - 1];
      Missing(payments[..|payments| - 1], nostro) + if AccountOf(last, nostro).None? then [last.currency] else []
  }

  method Assign(payments: seq<CalculatedPayment>, nostro: map<string, NostroAccount>)
    returns (paid: seq<(CalculatedPayment, string)>, errors: seq<string>)
    ensures paid == Assigned(payments, nostro)
    ensures errors == Missing(payments, nostro)
    ensures errors == [] ==>
              && |paid| == |payments|
              && forall i :: 0 <= i < |payments| ==>
                   payments[i].currency in nostro && paid[i] == (payments[i], nostro[payments[i].currency].number)
  {
    paid, errors := [], [];
    for i := 0 to |payments|
      invariant paid == Assigned(payments[..i], nostro)
      invariant errors == Missing(payments[..i], nostro)
    {
      assert payments[..i + 1][..i] == payments[..i];
      var payment := payments[i];
      if payment.currency !in nostro {
        errors := errors + [payment.currency];
      } else {
        paid := paid + [(payment, nostro[payment.currency].number)];
      }
    }
    assert payments[..|payments|] == payments;
    AllAssigned(payments, nostro);
  }

  /** Every payment is either assigned or reported; with nothing reported all are assigned, in order. */
  lemma {:induction false} AllAssigned(payments: seq<CalculatedPayment>, nostro: map<string, NostroAccount>)
    ensures |Assigned(payments, nostro)| + |Missing(payments, nostro)| == |payments|
    ensures Missing(payments, nostro) == [] <==> forall p :: p in payments ==> p.currency in nostro
    ensures Missing(payments, nostro) == [] ==>
              forall i :: 0 <= i < |payments| ==>
                payments[i].currency in nostro &&
                Assigned(payments, nostro)[i] == (payments[i], nostro[payments[i].currency].number)
  {
    if payments != [] {
      AllAssigned(payments[..|payments| - 1], nostro);
      assert payments == payments[..|payments| - 1] + [payments[|payments| - 1]];
    }
  }

  // ----- payment rows

  function Row(p: CalculatedPayment, account: string): Payment {
    Payment(p.amount, p.currency, Some(account), p.direction, Some(p.valueDate))
  }

  /** The rows a validation stores, straight from the account table; None when a currency has no
      active account. */
  function PaymentRows(calculated: seq<CalculatedPayment>, accounts: seq<NostroAccount>): Option<seq<Payment>> {
    if exists p :: p in calculated && FirstActive(accounts, p.currency).None? then None
    else Some(seq(|calculated|, i requires 0 <= i < |calculated| =>
      assert calculated[i] in calculated;
      Row(calculated[i], FirstActive(accounts, calculated[i].currency).value.number)))
  }

  predicate StoresCalculation(row: Payment, p: CalculatedPayment) {
    row.account.Some? && row == Row(p, row.account.value)
  }
}
