/** What validating a deal does: when it succeeds, what it stores, what it leaves alone, and that it
    can be repeated. Also what a committed submit guarantees about limits. */
module ValidateOutcomes {
  import opened Domain
  import opened Money
  import opened Tables
  import opened Settlement
  import opened Limits
  import opened Payments
  import opened Validation
  import opened Lifecycle
  import opened Invariants

  /** The unbounded calendar gives the deal a value date within the loaded window. */
  ghost predicate SettlesOn(table: Calendar, t: Terms, explicit: Option<Day>, d: Day) {
    && d <= t.tradeDate + WINDOW_DAYS
    && if t.dealType.Forward? then explicit == Some(d) && t.tradeDate <= d && Business(table, d)
       else Settles(BusinessOn(table), t.tradeDate, Offset(t.dealType), d)
  }

  predicate HasAccount(accounts: seq<NostroAccount>, ccy: string) {
    FirstActive(accounts, ccy).Some? && |FirstActive(accounts, ccy).value.number| <= ACCOUNT_CODE_LIMIT
  }

  function CounterCents(t: Terms): nat {
    HalfUp(Abs(t.amount * t.rate))
  }

  /** Everything a validation needs, each part in its own declarative terms. */
  ghost predicate CanValidate(nsi: Nsi, d: Deal, faultAfter: Option<int>) {
    var t := d.terms;
    && Passes(d, Lookup(nsi.counterparties, t.counterparty), nsi.currencies)
    && Within(nsi.limits, t.counterparty, t.buy, t.amount)
    && Within(nsi.limits, t.counterparty, t.sell, CounterCents(t))
    && CounterCents(t) < NUMERIC_LIMIT
    && (exists v :: SettlesOn(nsi.calendar, t, d.valueDate, v))
    && HasAccount(nsi.nostros, t.buy)
    && HasAccount(nsi.nostros, t.sell)
    && (faultAfter.None? || faultAfter.value >= 2)
  }

  ghost predicate LimitsFit(nsi: Nsi) {
    forall l :: l in nsi.limits ==> FitsNumeric(l.maxAmount)
  }

  function WindowOf(nsi: Nsi, t: Terms): Calendar {
    Window(nsi.calendar, t.tradeDate, t.tradeDate + WINDOW_DAYS)
  }

  lemma ValueDateIffSettles(table: Calendar, t: Terms, explicit: Option<Day>, v: Day)
    ensures SettlesOn(table, t, explicit, v) <==>
              ValueDate(t.tradeDate, t.dealType, Window(table, t.tradeDate, t.tradeDate + WINDOW_DAYS), explicit) ==
                Some(v)
  {
    if !t.dealType.Forward? {
      WindowedSettlementIsUnbounded(table, t.tradeDate, t.dealType, explicit, v);
    }
  }

  /** The two rows a validation stores. */
  function StoredPair(nsi: Nsi, t: Terms, v: Day): seq<Payment>
    requires HasAccount(nsi.nostros, t.buy) && HasAccount(nsi.nostros, t.sell)
  {
    var buyAccount := FirstActive(nsi.nostros, t.buy).value.number;
    var sellAccount := FirstActive(nsi.nostros, t.sell).value.number;
    [Payment(t.amount, t.buy, Some(buyAccount), if t.operation.Buy? then In else Out, Some(v)),
     Payment(CounterCents(t), t.sell, Some(sellAccount), if t.operation.Buy? then Out else In, Some(v))]
  }

  lemma JudgePasses(nsi: Nsi, d: Deal, v: Day)
    requires LimitsFit(nsi) && CanValidate(nsi, d, None)
    requires SettlesOn(nsi.calendar, d.terms, d.valueDate, v)
    ensures Judge(nsi, d) == Passed(v, StoredPair(nsi, d.terms, v))
  {
    var t := d.terms;
    StoredCounterIsExact(t.amount, t.rate);
    PassesIffBothLegsWithin(nsi.limits, t);
    ValueDateIffSettles(nsi.calendar, t, d.valueDate, v);
    PairIsStored(nsi, t, v);
  }

  /** With both accounts there, the rows built from the calculated legs are the stored pair. */
  lemma PairIsStored(nsi: Nsi, t: Terms, v: Day)
    requires t.amount > 0 && t.rate > 0
    requires CounterAmount(t.amount, t.rate) == Some(CounterCents(t))
    requires HasAccount(nsi.nostros, t.buy) && HasAccount(nsi.nostros, t.sell)
    ensures Calculate(t, v).Some?
    ensures PaymentRows(Calculate(t, v).value, nsi.nostros) == Some(StoredPair(nsi, t, v))
  {
    var calculated := Calculate(t, v).value;
    assert calculated[0].currency == t.buy && calculated[1].currency == t.sell;
    assert PaymentRows(calculated, nsi.nostros).value == StoredPair(nsi, t, v);
  }

  /** The rows of a passed verdict are the calculated legs on the first active accounts. */
  lemma PassedRows(nsi: Nsi, d: Deal, v: Day, rows: seq<Payment>)
    requires Judge(nsi, d) == Passed(v, rows)
    ensures Passes(d, Lookup(nsi.counterparties, d.terms.counterparty), nsi.currencies)
    ensures LimitIssues(nsi.limits, d.terms) == Some([])
    ensures ValueDate(d.terms.tradeDate, d.terms.dealType, WindowOf(nsi, d.terms), d.valueDate) == Some(v)
    ensures Calculate(d.terms, v).Some? && PaymentRows(Calculate(d.terms, v).value, nsi.nostros) == Some(rows)
  {
  }

  lemma RowsNeedAccounts(nsi: Nsi, t: Terms, v: Day, rows: seq<Payment>)
    requires Calculate(t, v).Some? && PaymentRows(Calculate(t, v).value, nsi.nostros) == Some(rows)
    requires forall p :: p in rows ==> RowFits(p)
    ensures |rows| == 2 && CounterAmount(t.amount, t.rate) == Some(rows[1].amount) && FitsNumeric(rows[1].amount)
    ensures HasAccount(nsi.nostros, t.buy) && HasAccount(nsi.nostros, t.sell)
  {
    var calculated := Calculate(t, v).value;
    assert calculated[0] in calculated && calculated[1] in calculated;
    assert rows[0] in rows && rows[1] in rows;
  }

  lemma JudgePassedMeans(nsi: Nsi, d: Deal)
    requires LimitsFit(nsi) && Judge(nsi, d).Passed?
    requires forall p :: p in Judge(nsi, d).rows ==> RowFits(p)
    ensures CanValidate(nsi, d, None)
    ensures SettlesOn(nsi.calendar, d.terms, d.valueDate, Judge(nsi, d).valueDate)
    ensures |Judge(nsi, d).rows| == 2
  {
    var t, v, rows := d.terms, Judge(nsi, d).valueDate, Judge(nsi, d).rows;
    PassedRows(nsi, d, v, rows);
    RowsNeedAccounts(nsi, t, v, rows);
    ValueDateIffSettles(nsi.calendar, t, d.valueDate, v);
    PassesIffBothLegsWithin(nsi.limits, t);
    StoredCounterIsExact(t.amount, t.rate);
  }

  lemma StoredPairFits(nsi: Nsi, d: Deal, v: Day)
    requires CanValidate(nsi, d, None) && FitsNumeric(d.terms.amount)
    ensures forall p :: p in StoredPair(nsi, d.terms, v) ==> RowFits(p)
  {
  }

  lemma CanValidateSucceeds(s: Store, nsi: Nsi, r: Request, v: Day)
    requires LimitsFit(nsi) && Inv(s)
    requires r.ValidateDeal? && r.id in s.deals && TraderMay(s.deals[r.id], r.user)
    requires CanValidate(nsi, s.deals[r.id], r.faultAfter)
    requires SettlesOn(nsi.calendar, s.deals[r.id].terms, s.deals[r.id].valueDate, v)
    ensures ValidateStep(s, nsi, r).event == Checked(true)
    ensures ValidateStep(s, nsi, r).store.deals == s.deals[r.id := Validated(nsi, s.deals[r.id], v)]
  {
    JudgePasses(nsi, s.deals[r.id], v);
    StoredPairFits(nsi, s.deals[r.id], v);
  }

  /** The deal as a successful validation leaves it. */
  function Validated(nsi: Nsi, d: Deal, v: Day): Deal
    requires HasAccount(nsi.nostros, d.terms.buy) && HasAccount(nsi.nostros, d.terms.sell)
  {
    d.(status := ValidationStatus.Valid, valueDate := Some(v), payments := StoredPair(nsi, d.terms, v))
  }

  lemma SuccessNeedsCanValidate(s: Store, nsi: Nsi, r: Request)
    requires LimitsFit(nsi)
    requires r.ValidateDeal? && ValidateStep(s, nsi, r).event == Checked(true)
    ensures r.id in s.deals && TraderMay(s.deals[r.id], r.user)
    ensures CanValidate(nsi, s.deals[r.id], r.faultAfter)
    ensures SettlesOn(nsi.calendar, s.deals[r.id].terms, s.deals[r.id].valueDate, Judge(nsi, s.deals[r.id]).valueDate)
  {
    JudgePassedMeans(nsi, s.deals[r.id]);
  }

  /** A trader's validate succeeds exactly when every part of CanValidate holds; it then stores the
      value date the unbounded calendar names and the two opposite payments on the lowest-id active
      accounts, the counter amount being exact to the cent. */
  lemma ValidateSucceedsIff(s: Store, nsi: Nsi, r: Request)
    requires LimitsFit(nsi) && Inv(s)
    requires r.ValidateDeal? && r.id in s.deals && TraderMay(s.deals[r.id], r.user)
    ensures ValidateStep(s, nsi, r).event == Checked(true) <==> CanValidate(nsi, s.deals[r.id], r.faultAfter)
    ensures CanValidate(nsi, s.deals[r.id], r.faultAfter) ==>
              exists v :: && SettlesOn(nsi.calendar, s.deals[r.id].terms, s.deals[r.id].valueDate, v)
                          && ValidateStep(s, nsi, r).store.deals == s.deals[r.id := Validated(nsi, s.deals[r.id], v)]
  {
    if CanValidate(nsi, s.deals[r.id], r.faultAfter) {
      var v :| SettlesOn(nsi.calendar, s.deals[r.id].terms, s.deals[r.id].valueDate, v);
      CanValidateSucceeds(s, nsi, r, v);
    }
    if ValidateStep(s, nsi, r).event == Checked(true) {
      SuccessNeedsCanValidate(s, nsi, r);
    }
  }

  lemma ValidatedDeal(s: Store, nsi: Nsi, r: Request)
    requires r.ValidateDeal? && ValidateStep(s, nsi, r).event == Checked(true)
    ensures var d' := ValidateStep(s, nsi, r).store.deals[r.id];
      Pair(d') && d'.payments[0].direction != d'.payments[1].direction
  {
    VerdictRows(nsi, s.deals[r.id]);
  }

  /** Exactly three outcomes on the stored deal: validated, with two payments in opposite directions
      and a value date; marked INVALID with payments and value date untouched; or nothing written. */
  lemma ValidateHasThreeOutcomes(s: Store, nsi: Nsi, r: Request)
    requires r.ValidateDeal? && r.id in s.deals
    ensures var d, o := s.deals[r.id], ValidateStep(s, nsi, r);
      var d' := o.store.deals[r.id];
      || (&& o.event == Checked(true) && o.reply == Done
          && d.state.Draft? && d'.status.Valid? && Pair(d')
          && d'.payments[0].direction != d'.payments[1].direction
          && d' == d.(status := Valid, valueDate := d'.valueDate, payments := d'.payments))
      || (o.event == Checked(false) && o.reply == Unprocessable && d' == d.(status := Invalid))
      || (o.event == NoWrite && o.reply != Done && o.store == s)
  {
    if ValidateStep(s, nsi, r).event == Checked(true) {
      ValidatedDeal(s, nsi, r);
    }
  }

  // ----- the outcomes without a VALID deal, one by one

  /** Some active limit covers the deal, so that the counter amount is computed for the limit check. */
  predicate Limited(nsi: Nsi, t: Terms) {
    ListActiveLimits(nsi.limits, t.counterparty) != []
  }

  /** quantize does not raise. */
  predicate Computable(t: Terms) {
    CounterAmount(t.amount, t.rate).Some?
  }

  predicate BothWithin(nsi: Nsi, t: Terms) {
    && Within(nsi.limits, t.counterparty, t.buy, t.amount)
    && Within(nsi.limits, t.counterparty, t.sell, CounterCents(t))
  }

  ghost predicate SomeDate(nsi: Nsi, d: Deal) {
    exists v :: SettlesOn(nsi.calendar, d.terms, d.valueDate, v)
  }

  /** A check fails, or a leg is over its limit, or everything up to the accounts is in order and a
      currency has none. */
  ghost predicate MarksInvalid(nsi: Nsi, d: Deal) {
    var t := d.terms;
    || !Passes(d, Lookup(nsi.counterparties, t.counterparty), nsi.currencies)
    || (&& (Limited(nsi, t) ==> Computable(t))
        && (|| !BothWithin(nsi, t)
            || (&& SomeDate(nsi, d) && Computable(t)
                && (FirstActive(nsi.nostros, t.buy).None? || FirstActive(nsi.nostros, t.sell).None?))))
  }

  /** The checks pass, and then: the counter amount cannot be computed for a limit; or the limits hold,
      but there is no value date, or no counter amount, or both accounts are there and the rows do not
      fit their columns or the injected fault strikes. */
  ghost predicate WritesNothing(nsi: Nsi, d: Deal, faultAfter: Option<int>) {
    var t := d.terms;
    var buy, sell := FirstActive(nsi.nostros, t.buy), FirstActive(nsi.nostros, t.sell);
    && Passes(d, Lookup(nsi.counterparties, t.counterparty), nsi.currencies)
    && (|| (Limited(nsi, t) && !Computable(t))
        || (&& BothWithin(nsi, t)
            && (|| !SomeDate(nsi, d) || !Computable(t)
                || (&& buy.Some? && sell.Some?
                    && (|| CounterCents(t) >= NUMERIC_LIMIT
                        || |buy.value.number| > ACCOUNT_CODE_LIMIT || |sell.value.number| > ACCOUNT_CODE_LIMIT
                        || (faultAfter.Some? && faultAfter.value < 2))))))
  }

  /** Past the limits, only a missing account makes the pipeline fail. */
  lemma FailsPastLimitsIff(nsi: Nsi, d: Deal)
    requires Passes(d, Lookup(nsi.counterparties, d.terms.counterparty), nsi.currencies)
    requires LimitIssues(nsi.limits, d.terms) == Some([])
    ensures Judge(nsi, d).Failed? <==>
              && SomeDate(nsi, d) && Computable(d.terms)
              && (FirstActive(nsi.nostros, d.terms.buy).None? || FirstActive(nsi.nostros, d.terms.sell).None?)
  {
    var t := d.terms;
    var date := ValueDate(t.tradeDate, t.dealType, WindowOf(nsi, t), d.valueDate);
    forall v
      ensures date == Some(v) <==> SettlesOn(nsi.calendar, t, d.valueDate, v)
    {
      ValueDateIffSettles(nsi.calendar, t, d.valueDate, v);
    }
    assert date.Some? ==> date == Some(date.value);
    if date.Some? && Computable(t) {
      RowsMissingIff(nsi, t, date.value);
    }
  }

  lemma RowsMissingIff(nsi: Nsi, t: Terms, v: Day)
    requires Calculate(t, v).Some?
    ensures PaymentRows(Calculate(t, v).value, nsi.nostros).None? <==>
              FirstActive(nsi.nostros, t.buy).None? || FirstActive(nsi.nostros, t.sell).None?
  {
    var calculated := Calculate(t, v).value;
    assert calculated[0] in calculated && calculated[1] in calculated;
  }

  lemma JudgeFailsIff(nsi: Nsi, d: Deal)
    requires LimitsFit(nsi)
    ensures Judge(nsi, d).Failed? <==> MarksInvalid(nsi, d)
  {
    var t := d.terms;
    if Passes(d, Lookup(nsi.counterparties, t.counterparty), nsi.currencies) {
      PassesIffBothLegsWithin(nsi.limits, t);
      if LimitIssues(nsi.limits, t) == Some([]) {
        FailsPastLimitsIff(nsi, d);
      }
    }
  }

  /** The three outcomes of validation exclude each other and leave nothing over. */
  lemma OutcomesPartition(nsi: Nsi, d: Deal, faultAfter: Option<int>)
    ensures WritesNothing(nsi, d, faultAfter) <==> !MarksInvalid(nsi, d) && !CanValidate(nsi, d, faultAfter)
  {
    if Passes(d, Lookup(nsi.counterparties, d.terms.counterparty), nsi.currencies) {
      StoredCounterIsExact(d.terms.amount, d.terms.rate);
    }
  }

  /** A validate by someone entitled to it commits INVALID, and commits nothing at all, exactly under
      these conditions on the deal and the reference tables. */
  lemma ValidateFailsIff(s: Store, nsi: Nsi, r: Request)
    requires LimitsFit(nsi) && Inv(s)
    requires r.ValidateDeal? && r.id in s.deals && TraderMay(s.deals[r.id], r.user)
    ensures ValidateStep(s, nsi, r).event == Checked(false) <==> MarksInvalid(nsi, s.deals[r.id])
    ensures ValidateStep(s, nsi, r).event == NoWrite <==> WritesNothing(nsi, s.deals[r.id], r.faultAfter)
  {
    ValidateSucceedsIff(s, nsi, r);
    JudgeFailsIff(nsi, s.deals[r.id]);
    OutcomesPartition(nsi, s.deals[r.id], r.faultAfter);
    FailedIsCheckedFalse(s, nsi, r);
  }

  lemma FailedIsCheckedFalse(s: Store, nsi: Nsi, r: Request)
    requires r.ValidateDeal? && r.id in s.deals && TraderMay(s.deals[r.id], r.user)
    ensures ValidateStep(s, nsi, r).event == Checked(false) <==> Judge(nsi, s.deals[r.id]).Failed?
    ensures ValidateStep(s, nsi, r).event in {Checked(true), Checked(false), NoWrite}
  {
  }

  /** A fault injected before the second payment turns a success into a server error that leaves no
      trace; it changes no other outcome. */
  lemma InjectedFaultWritesNothing(s: Store, nsi: Nsi, r: Request, after: int)
    requires r.ValidateDeal? && r.faultAfter == None
    ensures var o, o' := ValidateStep(s, nsi, r), ValidateStep(s, nsi, r.(faultAfter := Some(after)));
      o' == if o.event == Checked(true) && after < 2 then Refuse(s, ServerError) else o
  {
    if r.id in s.deals && Judge(nsi, s.deals[r.id]).Passed? {
      assert |Judge(nsi, s.deals[r.id]).rows| == 2;
    }
  }

  lemma ValidatedCanValidate(nsi: Nsi, d: Deal, v: Day, faultAfter: Option<int>)
    requires CanValidate(nsi, d, faultAfter) && SettlesOn(nsi.calendar, d.terms, d.valueDate, v)
    ensures var d' := Validated(nsi, d, v);
      && CanValidate(nsi, d', faultAfter)
      && SettlesOn(nsi.calendar, d'.terms, d'.valueDate, v) && Validated(nsi, d', v) == d'
  {
    assert SettlesOn(nsi.calendar, d.terms, Some(v), v);
  }

  /** With unchanged reference data a second validate stores the same deal again. */
  lemma RevalidationReproduces(s: Store, nsi: Nsi, r: Request)
    requires LimitsFit(nsi) && Inv(s)
    requires r.ValidateDeal? && ValidateStep(s, nsi, r).event == Checked(true)
    ensures var s' := ValidateStep(s, nsi, r).store;
      ValidateStep(s', nsi, r).event == Checked(true) && ValidateStep(s', nsi, r).store.deals == s'.deals
  {
    SuccessNeedsCanValidate(s, nsi, r);
    ValidatesAgain(s, nsi, r, Judge(nsi, s.deals[r.id]).valueDate);
  }

  lemma ValidatesAgain(s: Store, nsi: Nsi, r: Request, v: Day)
    requires LimitsFit(nsi) && Inv(s)
    requires r.ValidateDeal? && r.id in s.deals && TraderMay(s.deals[r.id], r.user)
    requires CanValidate(nsi, s.deals[r.id], r.faultAfter)
    requires SettlesOn(nsi.calendar, s.deals[r.id].terms, s.deals[r.id].valueDate, v)
    ensures var s' := ValidateStep(s, nsi, r).store;
      ValidateStep(s', nsi, r).event == Checked(true) && ValidateStep(s', nsi, r).store.deals == s'.deals
  {
    CanValidateSucceeds(s, nsi, r, v);
    ValidateKeepsInv(s, nsi, r);
    ValidatedCanValidate(nsi, s.deals[r.id], v, r.faultAfter);
    CanValidateSucceeds(ValidateStep(s, nsi, r).store, nsi, r, v);
  }

  /** For a calculated pair the check on the terms is the check on the stored payments, and it can
      always be made. */
  lemma PairWithinLimits(nsi: Nsi, d: Deal)
    requires LimitsFit(nsi) && Pair(d)
    ensures LimitIssues(nsi.limits, d.terms).Some?
    ensures LimitIssues(nsi.limits, d.terms) == Some([]) <==>
              forall p :: p in d.payments ==> Within(nsi.limits, d.terms.counterparty, p.currency, p.amount)
  {
    assert d.payments[0] in d.payments && d.payments[1] in d.payments;
    assert forall p :: p in d.payments ==> p == d.payments[0] || p == d.payments[1];
    PassesIffBothLegsWithin(nsi.limits, d.terms);
    StoredCounterIsExact(d.terms.amount, d.terms.rate);
  }

  /** In every reachable store the trader's submit of a VALID draft commits exactly when both stored
      payments are within the limit for their currency at that moment; it never fails otherwise
      than by marking the deal INVALID. */
  lemma SubmitCommitsIffWithinLimits(calls: seq<Call>, nsi: Nsi, r: Request)
    requires r.SubmitDeal? && r.id in Run(calls).deals
    requires LimitsFit(nsi)
    requires var d := Run(calls).deals[r.id]; TraderMay(d, r.user) && d.state.Draft? && d.status.Valid?
    ensures var d, o := Run(calls).deals[r.id], SubmitStep(Run(calls), nsi, r);
      && (o.event == Submission <==>
            forall p :: p in d.payments ==> Within(nsi.limits, d.terms.counterparty, p.currency, p.amount))
      && (o.event == Submission <==> o.reply == Done)
      && (o.event != Submission ==> o.event == SubmitRefused && o.store.deals[r.id] == d.(status := Invalid))
  {
    RunKeepsInv(calls);
    PairWithinLimits(nsi, Run(calls).deals[r.id]);
  }

  /** Outside DRAFT a validate by someone entitled to it always commits INVALID, whatever the
      reference data, and changes nothing else. */
  lemma ValidateOutsideDraftInvalidates(s: Store, nsi: Nsi, r: Request)
    requires r.ValidateDeal? && r.id in s.deals && TraderMay(s.deals[r.id], r.user) && !s.deals[r.id].state.Draft?
    ensures ValidateStep(s, nsi, r).store.deals == s.deals[r.id := s.deals[r.id].(status := Invalid)]
  {
  }
}
