# Foreign exchange deal manager: a verified model

A trader drafts a currency deal, validates it (which stores two payments and a value date), submits
it, and a positioner approves, returns or rejects it. Approval hands the payments to the position
system. This project models that lifecycle as a transition relation over the stored deals and the
audit log, together with the calculations its guards rely on, and proves what every run keeps.

| file | part |
|---|---|
| `Domain.dfy`, `Tables.dfy` | deal row, payments, decision, reference tables; filtered queries and dictionaries |
| `Money.dfy`, `DoubleRounding.dfy`, `Precision.dfy` | 28-digit decimal product, half-up cents, decimal-places check |
| `Settlement.dfy` | calendar window and the bounded business-day search |
| `Limits.dfy`, `Payments.dfy`, `Validation.dfy` | deal limits, the two payments and their accounts, format and logic control |
| `PositionClient.dfy` | hand-off to the position system |
| `Lifecycle.dfy` | one step per request, runs |
| `Invariants.dfy`, `Runs.dfy`, `HandOffs.dfy`, `AuditReplay.dfy`, `ValidateOutcomes.dfy`, `Exposure.dfy`, `Projection.dfy`, `Regulatory.dfy` | theorems over all stores and all runs, and the views that must agree with the book |
| `Requests.dfy`, `Provenance.dfy` | each request in plain terms, with roles, states and bounds written out; where the terms of a deal come from over a run |
| `Scenario.dfy` | concrete runs: the intended path, and a witness for each claim that is false of the code |
| `DealDesk.dfy` | the services as methods of a class; each is proved to take exactly the prescribed step |

How the parts hang together. `Lifecycle.Step` says what one request does under the reference tables
of that moment; `Lifecycle.Run` folds it over any sequence of calls from an empty database, the tables
changing arbitrarily between calls. `DealDesk.Desk` is the imperative code: a session stages changes
and commits or rolls back. Its `Valid()` says that nothing uncommitted is left, that the store is
the one the recorded run produces and that the posts made are those of that run, so every theorem
about runs holds of the object after every method.

Representation. Amounts count hundredths, rates millionths; a `Numeric(18, s)` column is a bound on
the integer. A day is an integer and a multiple of seven is a Monday. Lookup ids are constructors.
Tables the queries order by primary key are sequences in that order. Failures are values: `None`
where the code raises `ValueError`, `InvalidOperation` or `KeyError`, and a `Reply` for the HTTP
classes. `reply(i, a)` is what attempt `a` at payment `i` meets; since it is arbitrary, it covers every
stream of replies. A stored pair of payments can come back from the database in either order, which
is what the `swapped` field of an approve request stands for.

Assumptions. Each request is one atomic step: the code holds no row lock and no version column, so
interleaved requests on one deal are not covered. Ids are unique, because a create with a taken id is
refused. A projected position is what the accounts hold plus the open exposure; results about it assume
that a payment the position system acknowledges moves what is held at once, by its signed amount.

Where the test plan and the code differ, the model follows the code: `docs/ПМИ.md:78` lists WAITING to
APPROVED to EXECUTED audit entries, the code logs one change from WAITING to EXECUTED.

Claims that turned out false of the code each have an input on which they fail and the exact condition
under which they hold:

- Rounding in two stages is exact: `DoubleRounding.TwoStageRoundingMayDiffer`; `DoubleRounding.TwoStageRoundingExactIff`.
- STATUS_CHANGE entries tell the state: `Scenario.ApprovedLooksWaiting`; `AuditReplay.StatusChangesAloneMissApproved`.
- A submitted deal stays VALID: `Scenario.InvalidDealExecutes`; `Runs.SubmittedStaysValidIff`.
- The report never raises: `Scenario.OddCurrencyBreaksReport`; `Regulatory.Generate`.
- The report exports a payment under the account that validation assigned: `Regulatory.SharedNumberMisleadsReport`
  (the number is shared with an inactive account), `Scenario.SharedNumberMovesPayment` (with an active one, and
  the report's check notices nothing); `Regulatory.ExportAgreesIff` for one payment, `Regulatory.AgreesIff` for
  check and export together.
- An approve keeps the projected position: `Scenario.PartialHandOffCountsTwice`; `Exposure.ProjectionKeptIff`.

## Model

| member | source | states |
|---|---|---|
| `Runs.SentPaymentsAreCalculated` | src/fx_deal_manager/services/approval_service.py:68-127 | over every run, an approve that passes its guards hands over exactly two payments, equal field by field to the calculator's legs on the current terms and value date; success therefore means two acknowledged payments and the "no payments" branch is never taken |
| `Runs.PostedPayloadsAreLegs` | src/fx_deal_manager/integrations/position_client.py:44-53 | every POST of an approve carries amount, currency, direction and value date of one of those two legs |
| `Runs.SubmittedIsWhatIsSent` | src/fx_deal_manager/services/approval_service.py:54-127 | from a submission to the hand-off, terms, value date and payments are the same |
| `Runs.FrozenUntilReopened` | src/fx_deal_manager/services/deal_service.py:93-97 | outside DRAFT nothing a positioner is shown changes until the deal is reopened |
| `Runs.StepIsLocal` | src/fx_deal_manager/repositories/deal_repository.py:78-99 | each request moves its deal along the state graph, touches no other deal, writes exactly when it logs, only appends to the log, and changes terms, value date or payments only in DRAFT |
| `Runs.EventsBalance` | src/fx_deal_manager/services/approval_service.py:33-34 | over every run: submissions = rejections + approvals + still waiting; rejections = reopenings + still rejected; approvals and cancellations match the final states |
| `Runs.SentAtMostOnce` | src/fx_deal_manager/services/approval_service.py:71-75 | a deal reaches the position system at most once in a run |
| `HandOffs.PostsOfADealShareACall` | src/fx_deal_manager/services/approval_service.py:68-94 | over every run, all posts about a deal come from one call |
| `HandOffs.LegAcknowledgedAtMostOnce` | src/fx_deal_manager/integrations/position_client.py:62-166 | over every run, two acknowledged posts about one deal are in its two different currencies: each leg is acknowledged at most once |
| `HandOffs.ExecutedIffBothAcknowledged` | src/fx_deal_manager/services/approval_service.py:91-127 | over every run, a deal is EXECUTED exactly when both its legs were acknowledged |
| `HandOffs.OutboxIsDeliveries` | src/fx_deal_manager/integrations/position_client.py:101-117 | the deliveries these theorems speak of are, one by one, the posts that `DealDesk.Desk` records |
| `Runs.FinalStatesStay` | src/fx_deal_manager/services/approval_service.py:140-166 | APPROVED, EXECUTED and CANCELLED are never left, and the content of such a deal never changes |
| `Runs.SubmittedStaysValidIff` | src/fx_deal_manager/services/deal_service.py:196-208 | from its submission until it is reopened a deal is VALID exactly when neither its trader nor an administrator has asked to validate it since, whatever the reference tables |
| `Scenario.InvalidDealExecutes` | src/fx_deal_manager/services/approval_service.py:68-80 | a concrete run in which a deal validated again after its submission is executed while INVALID |
| `Scenario.IntendedPathExecutes` | tests/test_pmi_appendix_g.py:152-166 | create, validate, submit and approve bring a concrete deal to EXECUTED; its stored payments are 100,000.00 USD in and 9,250,000.00 RUB out, written out in full |
| `Scenario.ApprovedLooksWaiting` | src/fx_deal_manager/services/approval_service.py:82-108 | a concrete run whose second payment is refused with 422: the deal ends APPROVED, and STATUS_CHANGE entries alone replay to WAITING |
| `Scenario.PartialHandOffCountsTwice` | src/fx_deal_manager/services/approval_service.py:82-108 | in that run the 100,000.00 USD acknowledged before the refusal move the projected position, being still open |
| `Scenario.SharedNumberMovesPayment` | src/fx_deal_manager/services/regulatory_report.py:76-82 | two active accounts with one number: a deal that validates and passes the report's check has its payment exported under a bank that validation did not choose |
| `Scenario.OddCurrencyBreaksReport` | src/fx_deal_manager/services/regulatory_report.py:163-175 | a draft created in a currency the reference table lacks makes the report of it raise, and nothing else |
| `Runs.RecordsHaveAuthors` | src/fx_deal_manager/services/approval_service.py:228-269 | over every run, whatever a deal records goes back to a committed act of someone entitled: its trader created it under an active counterparty; outside DRAFT and CANCELLED it was submitted by that trader or an administrator and not reopened since; a recorded decision with its comment is the last committed on the deal, by the user it names, whose role is POSITIONER or ADMIN and who for an APPROVE is not the trader |
| `Provenance.TermsAreLastWritten` | src/fx_deal_manager/services/deal_service.py:55-130 | over every run, each of the eight agreed terms of a deal is what its creation gave it or what the last committed edit that names it set it to |
| `Requests.CreateRequest` | src/fx_deal_manager/services/deal_service.py:49-83 | commits iff the counterparty is known and active, the id free, and amount and rate have at most eighteen digits; the draft then holds terms and value date as given, under the caller; 422 and 500 otherwise |
| `Requests.UpdateRequest` | src/fx_deal_manager/services/deal_service.py:85-144 | 404, 403 for another state than DRAFT or another caller than the trader (administrators included), 422 for the counterparty; else every field of the patch is taken over, validation and payments go, nothing else changes |
| `Requests.UpdateFailsIff` | src/fx_deal_manager/services/deal_service.py:104-135 | past those guards an edit fails iff a required column is set to null or a number has more than eighteen digits |
| `Requests.ValidateGuard` | src/fx_deal_manager/services/deal_service.py:182-208 | 404 and 403 exactly for a missing deal and for a caller who is neither trader nor administrator; a failed check stores INVALID and one entry |
| `Requests.BrokenRuleInvalidates` | src/fx_deal_manager/services/validation.py:24-82 | in every reachable store, a deal that breaks a format rule, an amount with more decimals than its currency has among them, ends INVALID |
| `Requests.ValidateStores` | src/fx_deal_manager/services/deal_service.py:240-291 | what a success stores and logs in numbers: counter amount within half a hundredth of the exact product, account numbers of at most thirty characters, both rows, one VALIDATE entry with the value date and two payments |
| `Requests.ValidateAbortReply` | src/fx_deal_manager/services/deal_service.py:228-303 | a validate that commits nothing answers 422 iff what is missing is the value date, and 500 otherwise |
| `Requests.SubmitRequest` | src/fx_deal_manager/services/approval_service.py:30-66 | 403 unless the caller is trader or administrator and the deal a DRAFT, 422 unless VALID, INVALID on a limit issue, else WAITING; store, log and reply in full |
| `Requests.HandsOverInWords` | src/fx_deal_manager/services/approval_service.py:68-80 | the guards of approve: role POSITIONER or ADMIN, state WAITING, caller other than the trader |
| `Requests.ApproveRequest` | src/fx_deal_manager/services/approval_service.py:68-127 | the decision is stored whether or not the hand-off succeeds; EXECUTED with two entries or APPROVED with one and 502 |
| `Requests.ExecutedExactlyWhen` | src/fx_deal_manager/integrations/position_client.py:101-151 | in every reachable store: executed iff those guards hold, the position system is configured and gives a token, and for each of the two payments an allowed attempt is acknowledged with no status from 400 to 499 before it |
| `Requests.DeclineRequest` | src/fx_deal_manager/services/approval_service.py:190-226 | return and rejection: role POSITIONER or ADMIN (the trader not excluded), state WAITING, a comment only for a return; decision, state and entry stored |
| `Requests.MoveRequest` | src/fx_deal_manager/services/approval_service.py:137-180 | taking back needs REJECTED and cancelling DRAFT, each the trader or an administrator; only the state changes |
| `Invariants.RunKeepsInv` | src/fx_deal_manager/services/approval_service.py:228-247 | in every reachable store: payments are empty or the calculated pair; VALID deals and all deals outside DRAFT and CANCELLED have the pair; a decision exists iff the positioner is set and names the same user; APPROVED and EXECUTED carry APPROVE by someone other than the trader, REJECTED carries RETURN_FOR_EDIT or REJECT; a RETURN_FOR_EDIT has a non-empty comment |
| `Invariants.VerdictRows` | src/fx_deal_manager/services/deal_service.py:240-275 | a passed validation yields the calculated pair and a value date between trade date and 30 days later, FORWARD included |
| `AuditReplay.ReplayRebuildsEveryDeal` | src/fx_deal_manager/services/audit_log_service.py:14-31 | for every run, replaying a deal's entries rebuilds its state and validation status, and every STATUS_CHANGE starts from the state replayed just before it |
| `AuditReplay.StatusChangesAloneMissApproved` | src/fx_deal_manager/services/approval_service.py:82-108 | a reader of STATUS_CHANGE alone is right exactly when the log holds no failed POSITION_SEND of the deal, which is exactly when it is not APPROVED, and sees WAITING otherwise |
| `ValidateOutcomes.ValidateSucceedsIff` | src/fx_deal_manager/services/deal_service.py:182-303 | a validate by someone entitled succeeds iff the deal passes the checks, both legs (the counter one exact) are within limits and fit their column, the unbounded calendar names a date in the window, both currencies have an account that fits, and no fault is injected; it then stores that date and the two rows, written out in full |
| `ValidateOutcomes.ValidateFailsIff` | src/fx_deal_manager/services/deal_service.py:194-303 | a validate by someone entitled commits INVALID, and commits nothing, each exactly under a stated condition on checks, limits, counter amount, value date, accounts, column widths and fault |
| `ValidateOutcomes.ValidateHasThreeOutcomes` | src/fx_deal_manager/services/deal_service.py:198-303 | VALID with two opposite payments, or INVALID with everything else untouched, or nothing written |
| `ValidateOutcomes.InjectedFaultWritesNothing` | src/fx_deal_manager/core/fault_injection.py:12-15 | a fault before the second payment turns a success into a server error without trace and changes no other outcome |
| `ValidateOutcomes.RevalidationReproduces` | src/fx_deal_manager/services/deal_service.py:223-275 | with unchanged reference data a second validate stores the same deal again |
| `ValidateOutcomes.SubmitCommitsIffWithinLimits` | src/fx_deal_manager/services/approval_service.py:30-66 | in every reachable store, submitting a VALID draft commits iff both stored payments are within the most specific active limit for their currency; otherwise it marks the deal INVALID; it never fails in arithmetic |
| `Exposure.OpenExposureByCurrency` | src/fx_deal_manager/api/routes/positions.py:77-89 | the loop's dictionary holds exactly the currencies of the rows with their signed sums |
| `Exposure.QueryGivesBookExposure` | src/fx_deal_manager/api/routes/positions.py:78-89 | for a payment table holding every deal's payments in any order, the rows of the join with the open deals, in any order, have the exposure of the book as their signed sums |
| `Exposure.SumIgnoresOrder` | src/fx_deal_manager/api/routes/positions.py:86-88 | signed sums do not depend on row order |
| `Exposure.StepConservesExposure` | src/fx_deal_manager/api/routes/positions.py:83 | each event changes the exposure by exactly the signed sum of the payments that leave or enter the open book; submission, a failed send and refusals change nothing |
| `Exposure.DealContributesItsPosition` | src/fx_deal_manager/api/routes/positions.py:83-88 | in every reachable store a deal adds to the exposure exactly the position its terms open (BUY brings in the amount and pays out the exact counter amount, SELL the reverse) while it is open and has payments |
| `Exposure.ApprovalSettlesWhatWasAcknowledged` | src/fx_deal_manager/services/approval_service.py:110-127 | a successful approve lowers the exposure by exactly the payments handed over, each of them acknowledged |
| `Exposure.PartialHandOffDrifts` | src/fx_deal_manager/services/approval_service.py:91-108 | over every run, a failed hand-off moves the projected position of each currency by exactly the payments acknowledged before it stopped, a successful one not at all |
| `Exposure.ProjectionKeptIff` | src/fx_deal_manager/api/routes/positions.py:63-73 | an approve keeps the projected position of every currency exactly when the hand-off succeeds, nothing was acknowledged, or what was acknowledged was zero |
| `Projection.BookedIsPrefix` | src/fx_deal_manager/integrations/position_client.py:101-166 | the acknowledged posts of a hand-off carry, in order and once each, exactly the payments before the first that was not accepted |
| `Projection.EveryDealIsAccounted` | src/fx_deal_manager/services/approval_service.py:68-127 | over every run, the position system has taken on both payments of an EXECUTED deal exactly once, none or the first handed over of an APPROVED one, and nothing of any other |
| `Projection.ProjectionAddsUp` | src/fx_deal_manager/api/routes/positions.py:63-89 | over every run and in every currency, acknowledged payments and open exposure add up to the payments of all deals neither rejected nor cancelled, plus what was acknowledged of the APPROVED deals, counted twice |
| `Exposure.RejectThenReopenRestores` | src/fx_deal_manager/services/approval_service.py:137-155 | rejecting a deal and taking it back restores the exposure |
| `Exposure.PositionsByCurrency` | src/fx_deal_manager/api/routes/positions.py:57-73 | each non-empty currency of an account or of the exposure is listed once, in ascending order, with held, open and projected position |
| `Exposure.Sorted` | src/fx_deal_manager/api/routes/positions.py:71 | the codes in ascending order, each once |
| `Exposure.BelowIff` | src/fx_deal_manager/api/routes/positions.py:71 | the order of the codes is that of strings: a proper beginning, or the smaller character at the first difference |
| `Exposure.HeldConcat` | src/fx_deal_manager/api/routes/positions.py:57-60 | with `HeldOfOne`: what accounts hold is the sum over them, one without a position adding nothing |
| `Exposure.TotalsByCurrency` | src/fx_deal_manager/api/routes/positions.py:57-60 | totals per currency, a missing position counting zero |
| `PositionClient.SendDeal` | src/fx_deal_manager/integrations/position_client.py:62-166 | for all replies: success iff configured and every payment is accepted (or there is none); the exact posts, the non-empty references joined in payment order, kind of failure at the payment it stopped at, and backoff slept |
| `PositionClient.PostPayment` | src/fx_deal_manager/integrations/position_client.py:101-160 | the attempt loop at one payment: every attempt but the last met neither an acknowledgement nor a status from 400 to 499, the last did or was the last allowed one; how it ends, and backoff of 2^(k-1)-1 units over k attempts |
| `PositionClient.AcceptedIffLastAcknowledged` | src/fx_deal_manager/integrations/position_client.py:128-143 | an attempt within the allowed ones is acknowledged with no 4xx before it iff the last attempt made was acknowledged |
| `PositionClient.FirstDecisionEnds` | src/fx_deal_manager/integrations/position_client.py:128-151 | the retry rule in numerals: anything but an acknowledgement or a status from 400 to 499 is retried; the first acknowledgement accepts, the first such status refuses, and neither within the allowed attempts exhausts them |
| `PositionClient.PayloadFields` | src/fx_deal_manager/integrations/position_client.py:44-53 | the fields of a payload, and value date of the payment, else of the deal, else the trade date |
| `PositionClient.ReferenceChoice` | src/fx_deal_manager/integrations/position_client.py:119-122 | payment_id before id, empty references dropped |
| `PositionClient.JoinedSplits` | src/fx_deal_manager/integrations/position_client.py:165 | references are joined by single commas |
| `PositionClient.TwoReferences` | src/fx_deal_manager/integrations/position_client.py:119-166 | two payments acknowledged under x and y give the reference "x,y" |
| `PositionClient.PostsAreExactly` | src/fx_deal_manager/integrations/position_client.py:101-117 | the posts are exactly the permitted attempts, each once, in payment then attempt order |
| `PositionClient.PostsAreBounded` | src/fx_deal_manager/integrations/position_client.py:104 | posts never exceed retries times payments |
| `PositionClient.HandOffStopsAtOnePoint` | src/fx_deal_manager/integrations/position_client.py:139-166 | the hand-off stops at the first payment that is not accepted: those before it were acknowledged exactly once, the one at it never, none after it was posted; success iff that point is past the last |
| `Settlement.AddBusinessDays` | src/fx_deal_manager/services/settlement.py:29-46 | for any calendar: the day found is the asked-for business day and at most 366 days on; it fails only when there is none |
| `Settlement.SettlesOnce` | src/fx_deal_manager/services/settlement.py:29-46 | the day asked for is unique |
| `Settlement.CalculateValueDate` | src/fx_deal_manager/services/settlement.py:8-26 | FORWARD keeps an open explicit date, other types search with offset 0, 1 or 2 |
| `Settlement.LoadCalendar` | src/fx_deal_manager/repositories/nsi_repository.py:57-69 | the loaded calendar has exactly the days of the window, each by table row or else open iff its number modulo seven is below five |
| `Settlement.WindowFollowsRows` | src/fx_deal_manager/repositories/nsi_repository.py:57-69 | inside the window a row decides its day, weekend or not, and without a row Monday to Friday are open; outside every day is closed |
| `Settlement.ValueDateInWords` | src/fx_deal_manager/services/settlement.py:8-46 | TOD is the first business day from the trade date on, TOM the first after it, SPOT the second after it, FORWARD the agreed one, all within thirty days |
| `Settlement.OpenRowSettlesToday` | src/fx_deal_manager/repositories/nsi_repository.py:63-67 | a TOD deal struck on a day whose row is open settles that day |
| `Settlement.WindowedSettlementIsUnbounded` | src/fx_deal_manager/services/deal_service.py:224-234 | the windowed search yields a date iff that date settles the deal on the unbounded calendar and is at most 30 days on |
| `Settlement.ValueDateInWindow` | src/fx_deal_manager/services/deal_service.py:224-234 | every assigned value date, FORWARD included, is a business day between trade date and 30 days later |
| `Settlement.SettlementOrder` | src/fx_deal_manager/services/settlement.py:14-26 | TOD <= TOM < SPOT for one trade date and monotone in the trade date, across windows |
| `Settlement.SucceedsIffEnoughDays` | src/fx_deal_manager/services/settlement.py:29-46 | the search succeeds iff the window holds enough business days |
| `Settlement.SpotSurvivesEighteenHolidays` | src/fx_deal_manager/repositories/nsi_repository.py:57-69 | SPOT settles when at most 18 weekdays of the window are closed |
| `Settlement.DefaultCalendarSettlement` | src/fx_deal_manager/repositories/nsi_repository.py:65-68 | without rows, the exact number of days to settle per deal type and weekday, at most 2, 3 and 4 |
| `Money.StoredCounterIsExact` | src/fx_deal_manager/services/payment_calculator.py:20 | the counter amount fits its column iff the exact half-up amount does; then the 28-digit product is exact and so is the result |
| `Money.LimitDecisionIsExact` | src/fx_deal_manager/services/limit_check.py:18-33 | against any storable limit the two-stage rounding decides as exact arithmetic does |
| `Money.HalfUpIsNearest` | src/fx_deal_manager/services/payment_calculator.py:20 | half-up cents are the one whole number within half a cent, ties upward |
| `Money.ContextHolds28Digits` | src/fx_deal_manager/services/payment_calculator.py:20 | products below 10^28 are kept as they are, and quantize takes exactly the results below 10^28 |
| `Money.CounterIsOdd` | src/fx_deal_manager/services/payment_calculator.py:20 | rounding is half away from zero: the sign of the amount is the sign of the result |
| `Money.CounterMonotone` | src/fx_deal_manager/services/payment_calculator.py:20 | lowering amount or rate never raises the counter amount nor makes it fail |
| `DoubleRounding.TwoStageRoundingMayDiffer` | src/fx_deal_manager/services/limit_check.py:18 | an amount and a rate whose two-stage result is a cent above the exact one |
| `DoubleRounding.TwoStageRoundingExactIff` | src/fx_deal_manager/services/limit_check.py:18 | exactly which products the two roundings get right |
| `Precision.DecimalsValidIffWhole` | src/fx_deal_manager/services/validation.py:77-82 | for every representation within 28 digits the check holds iff value times 10^places is whole |
| `Precision.TrailingZeroIsIrrelevant` | src/fx_deal_manager/services/validation.py:77-82 | trailing zeros do not change the verdict |
| `Precision.StoredAmountPrecision` | src/fx_deal_manager/services/validation.py:40 | the verdict on a stored amount, per number of places |
| `Limits.SelectionIsMostSpecific` | src/fx_deal_manager/services/limit_check.py:47-64 | the selected limit is the lowest-id active one of the highest non-empty class, and none is selected iff none matches |
| `Limits.SelectionByClass` | src/fx_deal_manager/services/limit_check.py:47-64 | class by class: (counterparty, currency), else (counterparty, any), else (any, currency), else (any, any), lowest id within the class |
| `Limits.IssuesIff` | src/fx_deal_manager/services/limit_check.py:20-44 | which leg is reported: exactly one above its selected limit, a leg equal to it not |
| `Limits.HouseLimitBinds` | src/fx_deal_manager/services/limit_check.py:47-64 | a limit for every counterparty and currency, when no other concerns the deal, passes it iff neither leg is above it |
| `Limits.PrefilterIsHarmless` | src/fx_deal_manager/repositories/limit_repository.py:11-23 | selecting from the prefiltered rows equals selecting from all active ones |
| `Limits.Check` | src/fx_deal_manager/services/limit_check.py:12-44 | the issue list, or failure of the counter amount, step by step |
| `Limits.PassesIffBothLegsWithin` | src/fx_deal_manager/services/limit_check.py:20-44 | the check passes iff both legs, the counter one exact, are within their limits and the counter amount can be computed when needed |
| `Limits.LoweringKeepsWithinLimits` | src/fx_deal_manager/services/limit_check.py:12-44 | lowering amount or rate never introduces an error nor an issue that was not there, whatever issues there already are |
| `Payments.NostroByCurrency` | src/fx_deal_manager/repositories/nsi_repository.py:50-55 | the dictionary gives each currency its first active account and no other currency any |
| `Payments.FirstActiveIsLowest` | src/fx_deal_manager/repositories/nsi_repository.py:29-37 | that account is active, in the currency, and has the lowest id of those |
| `Payments.Assign` | src/fx_deal_manager/services/nostro_assignment.py:15-37 | payments with an account are assigned in order, the others reported; without reports all are assigned |
| `Payments.AllAssigned` | src/fx_deal_manager/services/nostro_assignment.py:22-37 | every payment is either assigned or reported |
| `Validation.Validate` | src/fx_deal_manager/services/validation.py:15-74 | every applicable issue once and in order, none iff the deal passes |
| `Validation.NoIssuesIffPasses` | src/fx_deal_manager/services/validation.py:24-72 | the list names exactly the checks that apply |
| `Validation.IssuesInOrder` | src/fx_deal_manager/services/validation.py:24-72 | issues come in the order state, currencies, amount, rate, buy side, sell side, counterparty, value date, each at most once |
| `Validation.TooPreciseIff` | src/fx_deal_manager/services/validation.py:36-46 | an amount is too precise iff its currency has no decimals and it is not whole, or one decimal and it is not in tenths |
| `Validation.PassesInWords` | src/fx_deal_manager/services/validation.py:24-72 | the format and logic control in plain terms |
| `Regulatory.ReportAgreesWithValidation` | src/fx_deal_manager/services/regulatory_report.py:76-186 | hence after a successful validate, with distinct non-empty account numbers and a complete counterparty, the check reports nothing and each payment is exported under the very account assigned |
| `Regulatory.ReportAcceptsValidatedIff` | src/fx_deal_manager/services/regulatory_report.py:84-161 | for any tables, the check accepts a deal just validated iff its counterparty is complete and both account numbers lead to an active account |
| `Regulatory.ExportAgreesIff` | src/fx_deal_manager/services/regulatory_report.py:76-82 | for any table with distinct ids, a payment of a deal just validated is exported under the very account validation assigned iff no later row carries that account's number |
| `Regulatory.AgreesIff` | src/fx_deal_manager/services/regulatory_report.py:76-219 | for any table with distinct ids, the check accepts a deal just validated and both payments are exported as assigned iff the counterparty is complete and each assigned account has a non-empty number that no later row carries |
| `Regulatory.LastWithNumberIs` | src/fx_deal_manager/repositories/nsi_repository.py:46-48 | resolution by number finds the last row that carries it |
| `Regulatory.ResolveInWords` | src/fx_deal_manager/services/regulatory_report.py:76-82 | the last row with the number, and only without one the last row with the id |
| `Regulatory.DealErrorsList` | src/fx_deal_manager/services/regulatory_report.py:92-159 | the errors of a VALID deal name it and exactly the problems it has, problem by problem |
| `Regulatory.SharedNumberMisleadsReport` | src/fx_deal_manager/services/regulatory_report.py:76-82 | two accounts sharing a number make the report resolve to the inactive one |
| `Regulatory.ValidateNsi` | src/fx_deal_manager/services/regulatory_report.py:84-161 | the error list over all deals, VALID ones only |
| `Regulatory.SerializeDeal` | src/fx_deal_manager/services/regulatory_report.py:163-219 | raises iff a currency is unknown; else a record with the deal's columns, its currencies' rows, its counterparty's row (or only the id when there is none) and every payment in order with number and bank of its resolved account |
| `Regulatory.Generate` | src/fx_deal_manager/services/regulatory_report.py:43-74 | refused with all errors iff some VALID deal has one; otherwise raises iff an unchecked deal names an unknown currency; otherwise exports every deal in order |
| `DealDesk.Desk.ReplacePayments` | src/fx_deal_manager/repositories/deal_repository.py:71-76 | replaces all rows, or when the fault strikes leaves staged exactly as many of them as it let through |
| `DealDesk.Desk.CreateDeal` | src/fx_deal_manager/services/deal_service.py:49-83 | takes the prescribed step |
| `DealDesk.Desk.UpdateDeal` | src/fx_deal_manager/services/deal_service.py:85-144 | takes the prescribed step, explicit nulls included |
| `DealDesk.Desk.PatchDeal` | src/fx_deal_manager/services/deal_service.py:104-130 | takes over exactly the fields the patch sets |
| `DealDesk.Desk.Pipeline` | src/fx_deal_manager/services/deal_service.py:194-255 | checks, limits, calendar, value date, payments and accounts, in the code's order, give the prescribed verdict |
| `DealDesk.Desk.AssignAccounts` | src/fx_deal_manager/services/deal_service.py:240-270 | the payment rows on the first active accounts, or none when an account is missing |
| `DealDesk.Desk.StorePayments` | src/fx_deal_manager/services/deal_service.py:272-303 | commits value date, status and payments together or rolls all back |
| `DealDesk.Desk.ValidateDeal` | src/fx_deal_manager/services/deal_service.py:182-303 | takes the prescribed step |
| `DealDesk.Desk.SubmitDeal` | src/fx_deal_manager/services/approval_service.py:30-66 | takes the prescribed step |
| `DealDesk.Desk.ApproveDeal` | src/fx_deal_manager/services/approval_service.py:68-127 | takes the prescribed step, records its posts in the run's outbox, and posts only payloads of the deal's two calculated legs; any other role than POSITIONER or ADMIN posts and changes nothing and gets 403 |
| `DealDesk.Desk.SaveSolution` | src/fx_deal_manager/services/approval_service.py:228-247 | one solution row per deal, updated or added |
| `DealDesk.Desk.PositionerDecision` | src/fx_deal_manager/services/approval_service.py:190-226 | takes the prescribed step of a return or a rejection; any other role than POSITIONER or ADMIN changes nothing and gets 403 |
| `DealDesk.Desk.ReturnDeal` | src/fx_deal_manager/services/approval_service.py:129-132 | takes the prescribed step |
| `DealDesk.Desk.RejectDeal` | src/fx_deal_manager/services/approval_service.py:134-135 | takes the prescribed step |
| `DealDesk.Desk.TakeForEdit` | src/fx_deal_manager/services/approval_service.py:137-155 | takes the prescribed step |
| `DealDesk.Desk.CancelDeal` | src/fx_deal_manager/services/approval_service.py:157-180 | takes the prescribed step |
| `DealDesk.Desk.GenerateReport` | src/fx_deal_manager/services/regulatory_report.py:43-74 | answers as the report of the selected deals, each with its id and in the order of the selection, must: refused, raised or exported; an incomplete report writes one audit entry, any other outcome writes nothing |

## Left out

- Interleaved requests, and a crash between the hand-off and its commit: requests are atomic steps here.
- Routing, request parsing, authentication, logging, migrations, health, quotes, notifications, profile, listings, CSV: plumbing, thin queries or formatting. The role guards of the routes only restrict callers further.
- Request decimals finer than the column: a request carries the value the `Numeric` column stores.
- Email fields (also in the regulatory export), comments on deals, message texts, timestamps, UUID contents, and the JSON text of audit values beyond status, value date and success.
- The position system, its HTTP client and the service token, beyond whether the token was obtained; sleeping is counted, not timed.
- Dates beyond the calendar of Python's `date` type.
- The 28-digit context in sums of positions and exposures: their sums are exact here.
- `Exposure.PositionsByCurrency`: an account's currency code arrives already in upper case; parsing the position reply is left out with it.
- The date and counterparty filters of the regulatory query: `GenerateReport` takes any selection of deals that are not cancelled.
