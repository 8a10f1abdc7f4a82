/** Concrete runs: the intended path from draft to EXECUTED, and inputs on which the code does not do
    what one would expect of it. */
module Scenario {
  import opened Domain
  import opened Precision
  import opened Limits
  import opened Payments
  import opened PositionClient
  import opened Lifecycle
  import opened Invariants
  import opened AuditReplay
  import opened ValidateOutcomes
  import opened Regulatory
  import opened Exposure

  const USD_ACCOUNT := NostroAccount("NOS-USD-001", "USD", "Citi NA", "363000001", true)

  const RUB_ACCOUNT := NostroAccount("NOS-RUB-001", "RUB", "Nostro RUB", "40702810000000000001", true)

  const NSI := Nsi(
    map["VTBR" := Counterparty("VTBR", "VTB", Some("VTBRRUMM"), Some("RU"), true)],
    map["USD" := Currency("USD", "US Dollar", 2), "RUB" := Currency("RUB", "Russian Ruble", 2)],
    [USD_ACCOUNT, RUB_ACCOUNT],
    map[],
    [])

  const TRADER := User("trader", TraderRole)

  const POSITIONER := User("positioner", PositionerRole)

  /** A purchase of 100,000.00 USD at 92.50 for today, struck on a Monday. */
  const TERMS := Terms(0, Tod, Buy, "USD", "RUB", 10_000_000, 92_500_000, "VTBR")

  const DRAFTED := Deal(TERMS, None, Draft, NotValidated, "trader", None, None, [])

  /** The position system acknowledges the first attempt at every payment. */
  function Willing(): Remote {
    Remote(true, true, 3, (i: nat, a: nat) => Ack(None, None))
  }

  function CreateIt(): Call { Call(NSI, Request.CreateDeal("D", TERMS, None, TRADER)) }

  function ValidateIt(): Call { Call(NSI, Request.ValidateDeal("D", TRADER, None)) }

  function SubmitIt(): Call { Call(NSI, Request.SubmitDeal("D", TRADER)) }

  function ApproveIt(): Call { Call(NSI, Request.ApproveDeal("D", POSITIONER, false, Willing())) }

  lemma RunOneMore(calls: seq<Call>, c: Call)
    ensures Run(calls + [c]) == Step(Run(calls), c).store
  {
    assert (calls + [c])[..|calls|] == calls;
  }

  lemma Accounts()
    ensures FirstActive(NSI.nostros, "USD") == Some(USD_ACCOUNT)
    ensures FirstActive(NSI.nostros, "RUB") == Some(RUB_ACCOUNT)
  {
    FirstActiveIsLowest(NSI.nostros, "USD");
    FirstActiveIsLowest(NSI.nostros, "RUB");
    assert NSI.nostros[0] == USD_ACCOUNT && NSI.nostros[1] == RUB_ACCOUNT;
    assert USD_ACCOUNT in NSI.nostros && RUB_ACCOUNT in NSI.nostros;
  }

  /** The draft meets every condition of a successful validation. */
  lemma DraftCanValidate()
    ensures CanValidate(NSI, DRAFTED, None) && SettlesOn(NSI.calendar, TERMS, None, 0)
  {
    Accounts();
    StoredAmountPrecision(TERMS.amount, 2);
    assert SettlesOn(NSI.calendar, TERMS, None, 0);
    assert |USD_ACCOUNT.number| <= 30 && |RUB_ACCOUNT.number| <= 30;
  }

  lemma AfterCreation()
    ensures var s := Run([CreateIt()]);
      "D" in s.deals && s.deals["D"] == DRAFTED
  {
    RunOneMore([], CreateIt());
    assert [] + [CreateIt()] == [CreateIt()];
  }

  lemma AfterValidation()
    ensures HasAccount(NSI.nostros, "USD") && HasAccount(NSI.nostros, "RUB")
    ensures var s := Run([CreateIt(), ValidateIt()]);
      "D" in s.deals && s.deals["D"] == Validated(NSI, DRAFTED, 0)
  {
    DraftCanValidate();
    AfterCreation();
    RunKeepsInv([CreateIt()]);
    CanValidateSucceeds(Run([CreateIt()]), NSI, ValidateIt().request, 0);
    RunOneMore([CreateIt()], ValidateIt());
    assert [CreateIt()] + [ValidateIt()] == [CreateIt(), ValidateIt()];
  }

  lemma AfterSubmission()
    ensures HasAccount(NSI.nostros, "USD") && HasAccount(NSI.nostros, "RUB")
    ensures var s := Run([CreateIt(), ValidateIt(), SubmitIt()]);
      "D" in s.deals && s.deals["D"] == Validated(NSI, DRAFTED, 0).(state := Waiting)
  {
    AfterValidation();
    RunOneMore([CreateIt(), ValidateIt()], SubmitIt());
    assert [CreateIt(), ValidateIt()] + [SubmitIt()] == [CreateIt(), ValidateIt(), SubmitIt()];
    assert ListActiveLimits(NSI.limits, "VTBR") == [];
  }

  lemma StoredPayments()
    ensures HasAccount(NSI.nostros, "USD") && HasAccount(NSI.nostros, "RUB")
    ensures StoredPair(NSI, TERMS, 0) ==
              [Payment(10_000_000, "USD", Some("363000001"), In, Some(0)),
               Payment(925_000_000, "RUB", Some("40702810000000000001"), Out, Some(0))]
  {
    Accounts();
    assert |USD_ACCOUNT.number| <= 30 && |RUB_ACCOUNT.number| <= 30;
  }

  lemma WillingAccepts(s: Store)
    requires "D" in s.deals && s.deals["D"].state.Waiting? && s.deals["D"].trader == "trader"
    ensures var s' := Step(s, ApproveIt()).store;
      && "D" in s'.deals && s'.deals["D"].state.Executed? && s'.deals["D"].status == s.deals["D"].status
      && s'.deals["D"].payments == s.deals["D"].payments
  {
    var sent := Loaded(s.deals["D"].payments, false);
    forall i: nat | i < |sent|
      ensures Accepted(Willing(), i)
    {
      assert Willing().reply(i, 1).Ack?;
    }
    assert SendSucceeds(Willing(), sent);
  }

  /** Create, validate, submit, approve: the deal ends EXECUTED, having paid 9,250,000.00 RUB for
      100,000.00 USD. */
  lemma IntendedPathExecutes()
    ensures var s := Run([CreateIt(), ValidateIt(), SubmitIt(), ApproveIt()]);
      && "D" in s.deals && s.deals["D"].state.Executed? && s.deals["D"].status.Valid?
      && s.deals["D"].payments ==
           [Payment(10_000_000, "USD", Some("363000001"), In, Some(0)),
            Payment(925_000_000, "RUB", Some("40702810000000000001"), Out, Some(0))]
  {
    AfterSubmission();
    StoredPayments();
    var submitted := [CreateIt(), ValidateIt(), SubmitIt()];
    WillingAccepts(Run(submitted));
    RunOneMore(submitted, ApproveIt());
    assert submitted + [ApproveIt()] == [CreateIt(), ValidateIt(), SubmitIt(), ApproveIt()];
  }

  /** With one more validate between submission and approval the deal is executed while INVALID. */
  lemma InvalidDealExecutes()
    ensures var s := Run([CreateIt(), ValidateIt(), SubmitIt(), ValidateIt(), ApproveIt()]);
      "D" in s.deals && s.deals["D"].state.Executed? && s.deals["D"].status.Invalid?
  {
    AfterSubmission();
    var submitted := [CreateIt(), ValidateIt(), SubmitIt()];
    ValidateOutsideDraftInvalidates(Run(submitted), NSI, ValidateIt().request);
    RunOneMore(submitted, ValidateIt());
    WillingAccepts(Run(submitted + [ValidateIt()]));
    RunOneMore(submitted + [ValidateIt()], ApproveIt());
    assert submitted + [ValidateIt()] + [ApproveIt()] ==
           [CreateIt(), ValidateIt(), SubmitIt(), ValidateIt(), ApproveIt()];
  }

  // ----- a hand-off that stops part way

  /** The position system acknowledges the first payment and finds fault with the second. */
  function Unwilling(): Remote {
    Remote(true, true, 3, (i: nat, a: nat) => if i == 0 then Ack(None, None) else HttpError(422))
  }

  function ApproveInVain(): Call { Call(NSI, Request.ApproveDeal("D", POSITIONER, false, Unwilling())) }

  lemma UnwillingStops()
    ensures AcceptedPrefix(Unwilling(), 2) == 1
    ensures !Accepted(Unwilling(), 1)
  {
    var r := Unwilling();
    assert r.reply(0, 1).Ack?;
    assert Accepted(r, 0);
    assert AcceptedPrefix(r, 0) == 0;
    assert AcceptedPrefix(r, 1) == 1;
  }

  lemma UnwillingRefuses(s: Store)
    requires "D" in s.deals && s.deals["D"].state.Waiting? && s.deals["D"].trader == "trader"
    requires |s.deals["D"].payments| == 2
    ensures var s' := Step(s, ApproveInVain()).store;
      "D" in s'.deals && s'.deals["D"].state.Approved?
  {
    UnwillingStops();
    assert !AllAccepted(Unwilling(), 2);
  }

  /** A deal whose second payment is refused ends APPROVED, and a reader of STATUS_CHANGE entries takes
      it for WAITING. */
  lemma ApprovedLooksWaiting()
    ensures var s := Run([CreateIt(), ValidateIt(), SubmitIt(), ApproveInVain()]);
      && "D" in s.deals && s.deals["D"].state.Approved?
      && Replay(s.log, "D", false).Some? && Replay(s.log, "D", false).value.state == Waiting
      && Replay(s.log, "D", true).Some? && Replay(s.log, "D", true).value.state == Approved
  {
    AfterSubmission();
    var submitted := [CreateIt(), ValidateIt(), SubmitIt()];
    var calls := [CreateIt(), ValidateIt(), SubmitIt(), ApproveInVain()];
    UnwillingRefuses(Run(submitted));
    RunOneMore(submitted, ApproveInVain());
    assert submitted + [ApproveInVain()] == calls;
    StatusChangesAloneMissApproved(calls, "D");
    ReplayRebuildsEveryDeal(calls, "D");
  }

  /** The 100,000.00 USD acknowledged in that hand-off are held and still open: the projected position
      counts them twice. */
  lemma PartialHandOffCountsTwice()
    ensures var s := Run([CreateIt(), ValidateIt(), SubmitIt()]);
      HandsOver(s, ApproveInVain().request) && Drift(s, ApproveInVain(), "USD") == 10_000_000
  {
    AfterSubmission();
    UnwillingStops();
    var submitted := [CreateIt(), ValidateIt(), SubmitIt()];
    PartialHandOffDrifts(submitted, ApproveInVain(), "USD");
    var sent := Loaded(Run(submitted).deals["D"].payments, false);
    assert !AllAccepted(Unwilling(), 2);
    SumOfFirst(sent, "USD");
  }

  // ----- the regulatory report

  const OTHER_USD_ACCOUNT := NostroAccount("NOS-USD-002", "USD", "Other Bank", "363000001", true)

  /** A second active account repeats the number of the first. */
  const SHARED := NSI.(nostros := [USD_ACCOUNT, RUB_ACCOUNT, OTHER_USD_ACCOUNT])

  lemma SharedAccounts()
    ensures DistinctIds(SHARED.nostros)
    ensures FirstActive(SHARED.nostros, "USD") == Some(USD_ACCOUNT)
    ensures FirstActive(SHARED.nostros, "RUB") == Some(RUB_ACCOUNT)
    ensures LastWithNumber(SHARED.nostros, "363000001") == Some(OTHER_USD_ACCOUNT)
    ensures LastWithNumber(SHARED.nostros, "40702810000000000001") == Some(RUB_ACCOUNT)
  {
    var accounts := SHARED.nostros;
    FirstActiveIsLowest(accounts, "USD");
    FirstActiveIsLowest(accounts, "RUB");
    LastWithNumberIs(accounts, "363000001");
    LastWithNumberIs(accounts, "40702810000000000001");
    assert accounts[0] == USD_ACCOUNT && accounts[1] == RUB_ACCOUNT && accounts[2] == OTHER_USD_ACCOUNT;
    assert USD_ACCOUNT in accounts && RUB_ACCOUNT in accounts;
    assert OTHER_USD_ACCOUNT.number == "363000001" && RUB_ACCOUNT.number == "40702810000000000001";
  }

  /** All accounts active, the deal validated and accepted by the report's check, and yet its USD payment
      is exported under a bank that validation did not choose. */
  lemma SharedNumberMovesPayment()
    ensures CanValidate(SHARED, DRAFTED, None) && DistinctIds(SHARED.nostros)
    ensures var d := Validated(SHARED, DRAFTED, 0);
      && DealErrors("D", d, SHARED) == []
      && d.payments[0].currency == "USD" && !ExportedAsAssigned(d.payments[0], SHARED.nostros)
      && ExportPayment(d.payments[0], SHARED.nostros).bank == Some("Other Bank")
  {
    DraftCanValidate();
    SharedAccounts();
    assert ListActiveLimits(SHARED.limits, "VTBR") == [];
    assert SettlesOn(SHARED.calendar, TERMS, None, 0);
    ReportAcceptsValidatedIff(SHARED, "D", DRAFTED, 0);
  }

  /** The columns that hold currencies do not refer to the currency table. */
  function CreateOdd(): Call { Call(NSI, Request.CreateDeal("D", TERMS.(buy := "XXX"), None, TRADER)) }

  /** A draft in a currency the reference table lacks makes the report of it raise. */
  lemma OddCurrencyBreaksReport(report: Report)
    ensures var s := Run([CreateOdd()]);
      && "D" in s.deals && s.deals["D"].state.Draft? && !CurrenciesKnown(s.deals["D"], NSI)
      && (Answers(report, [("D", s.deals["D"])], NSI) <==> report.KeyError?)
  {
    RunOneMore([], CreateOdd());
    assert [] + [CreateOdd()] == [CreateOdd()];
    var d := Run([CreateOdd()]).deals["D"];
    assert d.terms.buy == "XXX" && "XXX" !in NSI.currencies;
    var deals := [("D", d)];
    assert deals[0] == ("D", d) && Clean(deals[0], NSI);
  }
}
