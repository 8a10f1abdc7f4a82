/** Theorems over whole runs: the state graph, one hand-off per deal, balanced counts, and terms
    frozen from submission to decision. */
module Runs {
  import opened Domain
  import opened Tables
  import opened Payments
  import opened PositionClient
  import opened Lifecycle
  import opened Invariants

  function StateOf(s: Store, id: DealId): Option<DealState> {
    if id in s.deals then Some(s.deals[id].state) else None
  }

  /** The state graph: how each event moves the deal it concerns. */
  predicate Moves(before: Option<DealState>, e: Event, after: Option<DealState>) {
    match e
    case NoWrite => after == before
    case Creation => before == None && after == Some(Draft)
    case Edit => before == Some(Draft) && after == before
    case Checked(passed) => before.Some? && after == before && (passed ==> before == Some(Draft))
    case SubmitRefused => before == Some(Draft) && after == before
    case Submission => before == Some(Draft) && after == Some(Waiting)
    case Approval(sent) => before == Some(Waiting) && after == Some(if sent then Executed else Approved)
    case Rejection => before == Some(Waiting) && after == Some(Rejected)
    case Reopening => before == Some(Rejected) && after == Some(Draft)
    case Cancellation => before == Some(Draft) && after == Some(Cancelled)
    case ReportLogged => after == before
  }

  /** What outlives an event that is neither an edit nor a passed validation. */
  predicate SameContent(d: Deal, d': Deal) {
    d'.terms == d.terms && d'.valueDate == d.valueDate && d'.payments == d.payments && d'.trader == d.trader
  }

  /** A step touches its own deal only, writes exactly when it logs, logs only about that deal, and
      changes terms, value date or payments only in DRAFT. */
  ghost predicate Local(s: Store, id: DealId, o: Outcome) {
    && o.store.deals.Keys == s.deals.Keys + (if o.event.Creation? then {id} else {})
    && (forall x :: x in s.deals && x != id ==> o.store.deals[x] == s.deals[x])
    && |s.log| <= |o.store.log| && o.store.log[..|s.log|] == s.log
    && (forall k :: |s.log| <= k < |o.store.log| ==> o.store.log[k].entity == id)
    && (o.event.NoWrite? <==> |o.store.log| == |s.log|)
    && (o.event.NoWrite? ==> o.store == s)
    && (id in s.deals && (!s.deals[id].state.Draft? || !(o.event.Edit? || o.event.Checked?)) ==>
          SameContent(s.deals[id], o.store.deals[id]))
  }

  lemma StepIsLocal(s: Store, c: Call)
    ensures Local(s, c.request.id, Step(s, c))
    ensures Moves(StateOf(s, c.request.id), Step(s, c).event, StateOf(Step(s, c).store, c.request.id))
  {
    var r := c.request;
    match r {
      case CreateDeal(_, _, _, _) => EntryIsLocal(s, c.nsi, r);
      case UpdateDeal(_, _, _) => EntryIsLocal(s, c.nsi, r);
      case ValidateDeal(_, _, _) => ValidateIsLocal(s, c.nsi, r);
      case SubmitDeal(_, _) => SubmitIsLocal(s, c.nsi, r);
      case ApproveDeal(_, _, _, _) => ApproveIsLocal(s, r);
      case ReturnDeal(id, comment, user) => DeclineIsLocal(s, id, user, ReturnForEdit, comment);
      case RejectDeal(id, comment, user) => DeclineIsLocal(s, id, user, Reject, comment);
      case TakeForEdit(id, user) => MoveIsLocal(s, id, user);
      case CancelDeal(id, user) => MoveIsLocal(s, id, user);
      case FailReport(_) =>
    }
  }

  lemma EntryIsLocal(s: Store, nsi: Nsi, r: Request)
    ensures r.CreateDeal? ==>
              var o := CreateStep(s, nsi, r);
              Local(s, r.id, o) && Moves(StateOf(s, r.id), o.event, StateOf(o.store, r.id))
    ensures r.UpdateDeal? ==>
              var o := UpdateStep(s, nsi, r);
              Local(s, r.id, o) && Moves(StateOf(s, r.id), o.event, StateOf(o.store, r.id))
  {
  }

  lemma SubmitIsLocal(s: Store, nsi: Nsi, r: Request)
    requires r.SubmitDeal?
    ensures var o := SubmitStep(s, nsi, r);
      Local(s, r.id, o) && Moves(StateOf(s, r.id), o.event, StateOf(o.store, r.id))
  {
  }

  lemma DeclineIsLocal(s: Store, id: DealId, user: User, decision: Decision, comment: Option<string>)
    ensures var o := DeclineStep(s, id, user, decision, comment);
      Local(s, id, o) && Moves(StateOf(s, id), o.event, StateOf(o.store, id))
  {
  }

  lemma MoveIsLocal(s: Store, id: DealId, user: User)
    ensures var o := MoveStep(s, id, user, Rejected, Draft, Reopening);
      Local(s, id, o) && Moves(StateOf(s, id), o.event, StateOf(o.store, id))
    ensures var o := MoveStep(s, id, user, Draft, Cancelled, Cancellation);
      Local(s, id, o) && Moves(StateOf(s, id), o.event, StateOf(o.store, id))
  {
  }

  lemma ValidateIsLocal(s: Store, nsi: Nsi, r: Request)
    requires r.ValidateDeal?
    ensures Local(s, r.id, ValidateStep(s, nsi, r))
    ensures Moves(StateOf(s, r.id), ValidateStep(s, nsi, r).event, StateOf(ValidateStep(s, nsi, r).store, r.id))
  {
  }

  lemma ApproveIsLocal(s: Store, r: Request)
    requires r.ApproveDeal?
    ensures Local(s, r.id, ApproveStep(s, r))
    ensures Moves(StateOf(s, r.id), ApproveStep(s, r).event, StateOf(ApproveStep(s, r).store, r.id))
    ensures ApproveStep(s, r).event.Approval? <==> HandsOver(s, r)
  {
  }

  // ----- counting events

  /** What each call of a run did, to which deal. */
  ghost function Trace(calls: seq<Call>): seq<(DealId, Event)> {
    if calls == [] then []
    else Trace(calls[..|calls| - 1]) + [(calls[|calls| - 1].request.id, LastEvent(calls))]
  }

  lemma {:induction false} TraceLength(calls: seq<Call>)
    ensures |Trace(calls)| == |calls|
  {
    if calls != [] {
      TraceLength(calls[..|calls| - 1]);
    }
  }

  lemma LastOfTrace(calls: seq<Call>)
    requires calls != []
    ensures |Trace(calls)| == |calls|
    ensures Trace(calls)[..|calls| - 1] == Trace(calls[..|calls| - 1])
    ensures Trace(calls)[|calls| - 1] == (calls[|calls| - 1].request.id, LastEvent(calls))
  {
    TraceLength(calls[..|calls| - 1]);
  }

  lemma {:induction false} TraceAt(calls: seq<Call>, k: nat)
    requires k < |calls|
    ensures |Trace(calls)| == |calls|
    ensures Trace(calls)[k] == (calls[k].request.id, Step(Run(calls[..k]), calls[k]).event)
  {
    LastOfTrace(calls);
    var front := calls[..|calls| - 1];
    if k < |front| {
      TraceAt(front, k);
      assert front[..k] == calls[..k];
      assert Trace(calls)[..|front|][k] == Trace(calls)[k];
    }
  }

  /** How often e happened to a deal. */
  function Tally(trace: seq<(DealId, Event)>, id: DealId, e: Event): nat {
    if trace == [] then 0
    else Tally(trace[..|trace| - 1], id, e) + Is(trace[|trace| - 1] == (id, e))
  }

  function Is(b: bool): nat {
    if b then 1 else 0
  }

  predicate Balanced(now: Option<DealState>, creations: nat, submissions: nat, rejections: nat, reopenings: nat,
                     sent: nat, unsent: nat, cancellations: nat)
  {
    && creations == Is(now.Some?)
    && submissions == rejections + sent + unsent + Is(now == Some(Waiting))
    && rejections == reopenings + Is(now == Some(Rejected))
    && sent == Is(now == Some(Executed))
    && unsent == Is(now == Some(Approved))
    && cancellations == Is(now == Some(Cancelled))
  }

  lemma EventKeepsBalance(before: Option<DealState>, e: Event, after: Option<DealState>,
                          creations: nat, submissions: nat, rejections: nat, reopenings: nat,
                          sent: nat, unsent: nat, cancellations: nat)
    requires Balanced(before, creations, submissions, rejections, reopenings, sent, unsent, cancellations)
    requires Moves(before, e, after)
    ensures Balanced(after, creations + Is(e == Creation), submissions + Is(e == Submission),
                     rejections + Is(e == Rejection), reopenings + Is(e == Reopening),
                     sent + Is(e == Approval(true)), unsent + Is(e == Approval(false)),
                     cancellations + Is(e == Cancellation))
  {
  }

  /** The counts of a trace balance against a state. */
  predicate TraceBalances(trace: seq<(DealId, Event)>, id: DealId, now: Option<DealState>) {
    Balanced(now, Tally(trace, id, Creation), Tally(trace, id, Submission), Tally(trace, id, Rejection),
             Tally(trace, id, Reopening), Tally(trace, id, Approval(true)), Tally(trace, id, Approval(false)),
             Tally(trace, id, Cancellation))
  }

  lemma TraceStep(trace: seq<(DealId, Event)>, id: DealId, before: Option<DealState>, step: (DealId, Event),
                  after: Option<DealState>)
    requires TraceBalances(trace, id, before)
    requires Moves(before, if step.0 == id then step.1 else NoWrite, after)
    ensures TraceBalances(trace + [step], id, after)
  {
    assert (trace + [step])[..|trace|] == trace;
    EventKeepsBalance(before, if step.0 == id then step.1 else NoWrite, after,
                      Tally(trace, id, Creation), Tally(trace, id, Submission), Tally(trace, id, Rejection),
                      Tally(trace, id, Reopening), Tally(trace, id, Approval(true)), Tally(trace, id, Approval(false)),
                      Tally(trace, id, Cancellation));
  }

  /** Counts balance over every run: submissions are the rejections, the approvals and a deal still
      waiting; rejections are the reopenings and a deal still rejected; and a deal is approved at
      most once, never to leave the state that leaves it in. */
  lemma {:induction false} EventsBalance(calls: seq<Call>, id: DealId)
    ensures TraceBalances(Trace(calls), id, StateOf(Run(calls), id))
  {
    if calls != [] {
      var front, last := calls[..|calls| - 1], calls[|calls| - 1];
      EventsBalance(front, id);
      StepIsLocal(Run(front), last);
      TraceStep(Trace(front), id, StateOf(Run(front), id),
                (last.request.id, LastEvent(calls)), StateOf(Run(calls), id));
    }
  }

  /** Reaching the position system is the approval event, so it happens at most once in a run. */
  lemma SentAtMostOnce(calls: seq<Call>, i: nat, j: nat)
    requires i < j < |calls| && calls[i].request.id == calls[j].request.id
    requires HandsOver(Run(calls[..i]), calls[i].request)
    ensures !HandsOver(Run(calls[..j]), calls[j].request)
  {
    var id := calls[i].request.id;
    ApproveIsLocal(Run(calls[..i]), calls[i].request);
    assert calls[..i + 1][..i] == calls[..i];
    assert calls[..j][..i + 1] == calls[..i + 1];
    FinalStatesStay(calls[..j], i + 1, id);
  }

  predicate Final(state: DealState) {
    state.Approved? || state.Executed? || state.Cancelled?
  }

  /** Once APPROVED, EXECUTED or CANCELLED a deal keeps its state, terms, value date and payments. */
  lemma {:induction false} FinalStatesStay(calls: seq<Call>, k: nat, id: DealId)
    requires k <= |calls| && id in Run(calls[..k]).deals && Final(Run(calls[..k]).deals[id].state)
    ensures id in Run(calls).deals
    ensures Run(calls).deals[id].state == Run(calls[..k]).deals[id].state
    ensures SameContent(Run(calls[..k]).deals[id], Run(calls).deals[id])
    decreases |calls|
  {
    if k == |calls| {
      assert calls[..k] == calls;
    } else {
      var front := calls[..|calls| - 1];
      assert front[..k] == calls[..k];
      FinalStatesStay(front, k, id);
      StepIsLocal(Run(front), calls[|calls| - 1]);
    }
  }

  /** From call k on, e never happens to the deal. */
  ghost predicate Never(trace: seq<(DealId, Event)>, k: nat, id: DealId, e: Event) {
    forall j :: k <= j < |trace| ==> trace[j] != (id, e)
  }

  /** Between a submission and the next reopening nothing a positioner is shown changes. */
  lemma {:induction false} FrozenUntilReopened(calls: seq<Call>, k: nat, id: DealId)
    requires k <= |calls| && id in Run(calls[..k]).deals && !Run(calls[..k]).deals[id].state.Draft?
    requires Never(Trace(calls), k, id, Reopening)
    ensures id in Run(calls).deals && !Run(calls).deals[id].state.Draft?
    ensures SameContent(Run(calls[..k]).deals[id], Run(calls).deals[id])
    decreases |calls|
  {
    if k == |calls| {
      assert calls[..k] == calls;
    } else {
      var front := calls[..|calls| - 1];
      assert front[..k] == calls[..k];
      LastOfTrace(calls);
      FrozenUntilReopened(front, k, id);
      StepIsLocal(Run(front), calls[|calls| - 1]);
    }
  }

  // ----- what is sent

  /** A payload carries a calculated leg unchanged, on the account stored with its payment. */
  predicate Carries(p: Payload, id: DealId, leg: CalculatedPayment, row: Payment) {
    && p.deal == id && p.amount == leg.amount && p.currency == leg.currency && p.direction == leg.direction
    && p.valueDate == leg.valueDate && p.account == row.account && row.account.Some?
  }

  /** Over every run, what approve passes to the position system is exactly two payments: the two
      legs the calculator gives on the deal's current terms and value date, in either order. So a
      success always means two acknowledged payments, never "nothing to send". */
  lemma SentPaymentsAreCalculated(calls: seq<Call>, r: Request)
    requires HandsOver(Run(calls), r)
    ensures var d := Run(calls).deals[r.id];
      var sent := Loaded(d.payments, r.swapped);
      && d.valueDate.Some? && Calculate(d.terms, d.valueDate.value).Some?
      && |sent| == 2
      && var legs := Calculate(d.terms, d.valueDate.value).value;
         var first := if r.swapped then 1 else 0;
         && |legs| == 2
         && StoresCalculation(sent[0], legs[first]) && StoresCalculation(sent[1], legs[1 - first])
         && Carries(PayloadOf(r.id, d, sent[0]), r.id, legs[first], sent[0])
         && Carries(PayloadOf(r.id, d, sent[1]), r.id, legs[1 - first], sent[1])
    ensures SendSucceeds(r.remote, Loaded(Run(calls).deals[r.id].payments, r.swapped)) ==>
              r.remote.tokenOk && Accepted(r.remote, 0) && Accepted(r.remote, 1)
  {
    RunKeepsInv(calls);
  }

  /** Every POST of an approve, whichever attempts the replies lead to, carries one of those two legs. */
  lemma PostedPayloadsAreLegs(calls: seq<Call>, r: Request)
    requires HandsOver(Run(calls), r)
    ensures var d := Run(calls).deals[r.id];
      && d.valueDate.Some? && Calculate(d.terms, d.valueDate.value).Some?
      && var legs := Calculate(d.terms, d.valueDate.value).value;
         var sent := Loaded(d.payments, r.swapped);
         && |legs| == |sent| == 2
         && forall p :: p in SendPosts(r.remote, r.id, Decided(d, r.user, Approve, None, Approved), sent) ==>
              p.payment < 2 &&
              Carries(p.payload, r.id, legs[if r.swapped then 1 - p.payment else p.payment], sent[p.payment])
  {
    SentPaymentsAreCalculated(calls, r);
    var d := Run(calls).deals[r.id];
    var sent := Loaded(d.payments, r.swapped);
    var decided := Decided(d, r.user, Approve, None, Approved);
    var legs := Calculate(d.terms, d.valueDate.value).value;
    PostsAreExactly(r.remote, r.id, decided, sent, |sent|);
    forall p | p in SendPosts(r.remote, r.id, decided, sent)
      ensures p.payment < 2
      ensures Carries(p.payload, r.id, legs[if r.swapped then 1 - p.payment else p.payment], sent[p.payment])
    {
      assert Posted(r.remote, r.id, decided, sent, |sent|, p);
      assert PayloadOf(r.id, decided, sent[p.payment]) == PayloadOf(r.id, d, sent[p.payment]);
    }
  }

  /** The approved payments are the submitted ones: from the submission to the hand-off the deal's
      terms, value date and payments are the same. */
  lemma SubmittedIsWhatIsSent(calls: seq<Call>, k: nat, r: Request)
    requires k < |calls| && k < |Trace(calls)| && Trace(calls)[k] == (r.id, Submission)
    requires Never(Trace(calls), k + 1, r.id, Reopening)
    requires HandsOver(Run(calls), r)
    ensures r.id in Run(calls[..k]).deals
    ensures SameContent(Run(calls[..k]).deals[r.id], Run(calls).deals[r.id])
  {
    TraceLength(calls);
    TraceAt(calls, k);
    StepIsLocal(Run(calls[..k]), calls[k]);
    assert calls[..k + 1][..k] == calls[..k];
    FrozenUntilReopened(calls, k + 1, r.id);
  }

  // ----- the validation status of a submitted deal

  /** Outside DRAFT only a failed validation touches the validation status. */
  lemma StatusOutsideDraft(s: Store, c: Call)
    requires c.request.id in s.deals && !s.deals[c.request.id].state.Draft?
    ensures c.request.id in Step(s, c).store.deals
    ensures Step(s, c).store.deals[c.request.id].status ==
              if Step(s, c).event == Checked(false) then Invalid else s.deals[c.request.id].status
  {
    match c.request {
      case ApproveDeal(_, _, _, _) => ApproveIsLocal(s, c.request);
      case _ =>
    }
  }

  lemma SubmissionIsValid(s: Store, c: Call)
    requires Step(s, c).event == Submission
    ensures c.request.id in Step(s, c).store.deals
    ensures Step(s, c).store.deals[c.request.id].state.Waiting? && Step(s, c).store.deals[c.request.id].status.Valid?
  {
    StepIsLocal(s, c);
  }

  /** A validate of the deal by its trader or an administrator. */
  predicate EntitledValidate(c: Call, id: DealId, trader: string) {
    c.request.ValidateDeal? && c.request.id == id && (c.request.user.id == trader || c.request.user.role.AdminRole?)
  }

  /** From call k on, nobody entitled to it asks to validate the deal. */
  ghost predicate NoValidate(calls: seq<Call>, k: nat, id: DealId, trader: string) {
    forall j :: k <= j < |calls| ==> !EntitledValidate(calls[j], id, trader)
  }

  /** Outside DRAFT a validate fails exactly when it is let through. */
  lemma ValidateFailsOutsideDraftIff(s: Store, c: Call)
    requires c.request.id in s.deals && !s.deals[c.request.id].state.Draft?
    ensures Step(s, c).event == Checked(false) <==> EntitledValidate(c, c.request.id, s.deals[c.request.id].trader)
  {
    match c.request {
      case ApproveDeal(_, _, _, _) => ApproveIsLocal(s, c.request);
      case _ =>
    }
  }

  lemma {:induction false} StatusSince(calls: seq<Call>, k: nat, id: DealId)
    requires k <= |calls| && id in Run(calls[..k]).deals && !Run(calls[..k]).deals[id].state.Draft?
    requires Run(calls[..k]).deals[id].status.Valid?
    requires Never(Trace(calls), k, id, Reopening)
    ensures id in Run(calls).deals
    ensures Run(calls).deals[id].status ==
              if NoValidate(calls, k, id, Run(calls[..k]).deals[id].trader) then Valid else Invalid
    decreases |calls|
  {
    if k == |calls| {
      assert calls[..k] == calls;
    } else {
      var front, last := calls[..|calls| - 1], calls[|calls| - 1];
      var trader := Run(calls[..k]).deals[id].trader;
      assert front[..k] == calls[..k];
      LastOfTrace(calls);
      StatusSince(front, k, id);
      FrozenUntilReopened(front, k, id);
      StepIsLocal(Run(front), last);
      NoValidateSplits(calls, k, id, trader);
      if last.request.id == id {
        StatusOutsideDraft(Run(front), last);
        ValidateFailsOutsideDraftIff(Run(front), last);
      }
    }
  }

  lemma NoValidateSplits(calls: seq<Call>, k: nat, id: DealId, trader: string)
    requires k < |calls|
    ensures var n := |calls| - 1;
      NoValidate(calls, k, id, trader) <==>
        NoValidate(calls[..n], k, id, trader) && !EntitledValidate(calls[n], id, trader)
  {
    var front := calls[..|calls| - 1];
    assert forall j :: 0 <= j < |front| ==> front[j] == calls[j];
  }

  /** Submission requires VALID, yet a deal can be approved and executed while INVALID, because
      validating outside DRAFT commits INVALID. From its submission until it is reopened a deal is
      VALID exactly when neither its trader nor an administrator has asked to validate it since. */
  lemma SubmittedStaysValidIff(calls: seq<Call>, k: nat, id: DealId)
    requires k < |calls| && k < |Trace(calls)| && Trace(calls)[k] == (id, Submission)
    requires Never(Trace(calls), k + 1, id, Reopening)
    ensures id in Run(calls).deals && !Run(calls).deals[id].state.Draft?
    ensures Run(calls).deals[id].status.Valid? <==> NoValidate(calls, k + 1, id, Run(calls).deals[id].trader)
  {
    SubmittedAt(calls, k, id);
    FrozenUntilReopened(calls, k + 1, id);
    StatusSince(calls, k + 1, id);
  }

  lemma SubmittedAt(calls: seq<Call>, k: nat, id: DealId)
    requires k < |calls| && k < |Trace(calls)| && Trace(calls)[k] == (id, Submission)
    ensures var s := Run(calls[..k + 1]);
      id in s.deals && s.deals[id].state.Waiting? && s.deals[id].status.Valid?
  {
    TraceAt(calls, k);
    assert calls[..k + 1][..k] == calls[..k];
    SubmissionIsValid(Run(calls[..k]), calls[k]);
  }

  // ----- who may do what

  /** The counterparty is in the reference table and active there. */
  predicate Known(nsi: Nsi, cp: string) {
    Lookup(nsi.counterparties, cp).Some? && Lookup(nsi.counterparties, cp).value.active
  }

  /** The guards a committed event passed, and the decision it recorded. */
  ghost predicate Entitled(s: Store, c: Call, o: Outcome) {
    var r, id := c.request, c.request.id;
    match o.event
    case NoWrite => true
    case ReportLogged => true
    case Creation =>
      && r.CreateDeal? && id in o.store.deals && o.store.deals[id].trader == r.user.id
      && Known(c.nsi, r.terms.counterparty)
    case Edit =>
      && r.UpdateDeal? && id in s.deals && s.deals[id].trader == r.user.id
      && id in o.store.deals
      && (o.store.deals[id].terms.counterparty != s.deals[id].terms.counterparty ==>
            Known(c.nsi, o.store.deals[id].terms.counterparty))
    case Checked(_) => r.ValidateDeal? && id in s.deals && TraderMay(s.deals[id], r.user)
    case SubmitRefused => r.SubmitDeal? && id in s.deals && TraderMay(s.deals[id], r.user)
    case Submission => r.SubmitDeal? && id in s.deals && TraderMay(s.deals[id], r.user)
    case Reopening => r.TakeForEdit? && id in s.deals && TraderMay(s.deals[id], r.user)
    case Cancellation => r.CancelDeal? && id in s.deals && TraderMay(s.deals[id], r.user)
    case Approval(_) =>
      && r.ApproveDeal? && id in s.deals && PositionerMay(r.user) && r.user.id != s.deals[id].trader
      && id in o.store.deals && o.store.deals[id].solution == Some(Solution(Approve, None, r.user.id))
    case Rejection =>
      && (r.ReturnDeal? || r.RejectDeal?) && id in s.deals && PositionerMay(r.user)
      && id in o.store.deals
      && o.store.deals[id].solution ==
           Some(Solution(if r.ReturnDeal? then ReturnForEdit else Reject, r.comment, r.user.id))
  }

  lemma EventsAreEntitled(s: Store, c: Call)
    ensures Entitled(s, c, Step(s, c))
  {
    match c.request {
      case ApproveDeal(_, _, _, _) => ApproveIsLocal(s, c.request);
      case _ =>
    }
  }

  predicate CreatedBy(c: Call, id: DealId, trader: string) {
    && c.request.CreateDeal? && c.request.id == id && c.request.user.id == trader
    && Known(c.nsi, c.request.terms.counterparty)
  }

  predicate SubmittedBy(c: Call, id: DealId, trader: string) {
    c.request.SubmitDeal? && c.request.id == id && (c.request.user.id == trader || c.request.user.role.AdminRole?)
  }

  predicate DecidedBy(c: Call, id: DealId, trader: string, decision: Solution) {
    var r := c.request;
    && r.id == id
    && match decision.decision
       case Approve =>
         && r.ApproveDeal? && (r.user.role.PositionerRole? || r.user.role.AdminRole?)
         && r.user.id == decision.positioner
         && r.user.id != trader && decision.comment == None
       case ReturnForEdit =>
         && r.ReturnDeal? && (r.user.role.PositionerRole? || r.user.role.AdminRole?)
         && r.user.id == decision.positioner && r.comment == decision.comment
       case Reject =>
         && r.RejectDeal? && (r.user.role.PositionerRole? || r.user.role.AdminRole?)
         && r.user.id == decision.positioner && r.comment == decision.comment
  }

  /** What call k of a run did. */
  ghost function EventAt(calls: seq<Call>, k: nat): Event
    requires k < |calls|
  {
    Step(Run(calls[..k]), calls[k]).event
  }

  predicate Decides(e: Event) {
    e.Approval? || e.Rejection?
  }

  /** Call k created the deal for its trader. */
  ghost predicate CreationAt(calls: seq<Call>, k: nat, id: DealId, trader: string) {
    k < |calls| && CreatedBy(calls[k], id, trader) && EventAt(calls, k) == Creation
  }

  /** Call k submitted the deal, which has not been reopened since. */
  ghost predicate SubmissionAt(calls: seq<Call>, k: nat, id: DealId, trader: string) {
    && k < |calls| && SubmittedBy(calls[k], id, trader) && EventAt(calls, k) == Submission
    && forall j :: k < j < |calls| && calls[j].request.id == id ==> EventAt(calls, j) != Reopening
  }

  /** Call k decided on the deal, and no call has since. */
  ghost predicate DecisionAt(calls: seq<Call>, k: nat, id: DealId, trader: string, decision: Solution) {
    && k < |calls| && DecidedBy(calls[k], id, trader, decision) && Decides(EventAt(calls, k))
    && forall j :: k < j < |calls| && calls[j].request.id == id ==> !Decides(EventAt(calls, j))
  }

  predicate Entered(state: DealState) {
    state.Draft? || state.Cancelled?
  }

  /** What a deal records goes back to calls of this run that committed it. */
  ghost predicate HasAuthors(calls: seq<Call>, id: DealId, d: Deal) {
    && (exists k :: CreationAt(calls, k, id, d.trader))
    && (d.solution.Some? ==> exists k :: DecisionAt(calls, k, id, d.trader, d.solution.value))
    && (!Entered(d.state) ==> exists k :: SubmissionAt(calls, k, id, d.trader))
  }

  /** One more call leaves what the earlier ones did. */
  lemma EventsOneMore(calls: seq<Call>, c: Call)
    ensures forall k :: 0 <= k < |calls| ==> EventAt(calls + [c], k) == EventAt(calls, k)
    ensures EventAt(calls + [c], |calls|) == Step(Run(calls), c).event
  {
    forall k | 0 <= k <= |calls|
      ensures (calls + [c])[..k] == calls[..k]
    {
    }
    assert calls[..|calls|] == calls;
  }

  /** A step keeps the trader, and the decision unless it decides. */
  lemma RecordsAfterStep(s: Store, c: Call)
    requires c.request.id in s.deals
    ensures c.request.id in Step(s, c).store.deals
    ensures Step(s, c).store.deals[c.request.id].trader == s.deals[c.request.id].trader
    ensures !Step(s, c).event.Approval? && !Step(s, c).event.Rejection? ==>
              Step(s, c).store.deals[c.request.id].solution == s.deals[c.request.id].solution
    ensures !Step(s, c).event.Creation?
  {
    match c.request {
      case ApproveDeal(_, _, _, _) => ApproveIsLocal(s, c.request);
      case _ =>
    }
  }

  lemma CreationRecords(s: Store, c: Call)
    requires Step(s, c).event.Creation?
    ensures var o := Step(s, c);
      && c.request.id in o.store.deals
      && o.store.deals[c.request.id].solution == None && o.store.deals[c.request.id].state.Draft?
  {
  }

  lemma CreationStays(calls: seq<Call>, c: Call, id: DealId, trader: string)
    requires exists k :: CreationAt(calls, k, id, trader)
    ensures exists k :: CreationAt(calls + [c], k, id, trader)
  {
    var k :| CreationAt(calls, k, id, trader);
    EventsOneMore(calls, c);
    assert CreationAt(calls + [c], k, id, trader);
  }

  lemma SubmissionStays(calls: seq<Call>, c: Call, id: DealId, trader: string)
    requires exists k :: SubmissionAt(calls, k, id, trader)
    requires c.request.id == id ==> Step(Run(calls), c).event != Reopening
    ensures exists k :: SubmissionAt(calls + [c], k, id, trader)
  {
    var k :| SubmissionAt(calls, k, id, trader);
    EventsOneMore(calls, c);
    assert SubmissionAt(calls + [c], k, id, trader);
  }

  lemma DecisionStays(calls: seq<Call>, c: Call, id: DealId, trader: string, decision: Solution)
    requires exists k :: DecisionAt(calls, k, id, trader, decision)
    requires c.request.id == id ==> !Decides(Step(Run(calls), c).event)
    ensures exists k :: DecisionAt(calls + [c], k, id, trader, decision)
  {
    var k :| DecisionAt(calls, k, id, trader, decision);
    EventsOneMore(calls, c);
    assert DecisionAt(calls + [c], k, id, trader, decision);
  }

  /** A call about the deal: what it did is the last creation, submission or decision. */
  lemma LastCallActs(calls: seq<Call>, c: Call, id: DealId, d: Deal)
    requires c.request.id == id
    ensures var e := Step(Run(calls), c).event;
      && (e == Creation && CreatedBy(c, id, d.trader) ==> CreationAt(calls + [c], |calls|, id, d.trader))
      && (e == Submission && SubmittedBy(c, id, d.trader) ==> SubmissionAt(calls + [c], |calls|, id, d.trader))
      && (Decides(e) && d.solution.Some? && DecidedBy(c, id, d.trader, d.solution.value) ==>
            DecisionAt(calls + [c], |calls|, id, d.trader, d.solution.value))
  {
    EventsOneMore(calls, c);
  }

  lemma OtherCallKeepsAuthors(calls: seq<Call>, c: Call, id: DealId, d: Deal)
    requires HasAuthors(calls, id, d) && c.request.id != id
    ensures HasAuthors(calls + [c], id, d)
  {
    CreationStays(calls, c, id, d.trader);
    if d.solution.Some? {
      DecisionStays(calls, c, id, d.trader, d.solution.value);
    }
    if !Entered(d.state) {
      SubmissionStays(calls, c, id, d.trader);
    }
  }

  /** What an event leaves of a deal's records, and who the event says made the new ones. */
  ghost predicate RecordsFollow(d: Deal, c: Call, e: Event, d': Deal) {
    var id := c.request.id;
    && d'.trader == d.trader
    && (if Decides(e) then d'.solution.Some? && DecidedBy(c, id, d.trader, d'.solution.value)
        else d'.solution == d.solution)
    && (!Entered(d'.state) ==>
          (!Entered(d.state) && e != Reopening) || (e == Submission && SubmittedBy(c, id, d.trader)))
  }

  lemma StepRecordsFollow(s: Store, c: Call)
    requires c.request.id in s.deals
    ensures c.request.id in Step(s, c).store.deals
    ensures RecordsFollow(s.deals[c.request.id], c, Step(s, c).event, Step(s, c).store.deals[c.request.id])
  {
    EventsAreEntitled(s, c);
    StepIsLocal(s, c);
    RecordsAfterStep(s, c);
  }

  lemma OwnCallKeepsAuthors(calls: seq<Call>, c: Call, id: DealId, d: Deal, d': Deal)
    requires HasAuthors(calls, id, d) && c.request.id == id
    requires RecordsFollow(d, c, Step(Run(calls), c).event, d')
    ensures HasAuthors(calls + [c], id, d')
  {
    var e := Step(Run(calls), c).event;
    LastCallActs(calls, c, id, d');
    CreationStays(calls, c, id, d.trader);
    if !Decides(e) && d.solution.Some? {
      DecisionStays(calls, c, id, d.trader, d.solution.value);
    }
    if !Entered(d.state) && e != Reopening {
      SubmissionStays(calls, c, id, d.trader);
    }
  }

  lemma StepKeepsAuthors(calls: seq<Call>, c: Call, id: DealId)
    requires id in Run(calls).deals ==> HasAuthors(calls, id, Run(calls).deals[id])
    requires c.request.id == id
    ensures id in Step(Run(calls), c).store.deals ==> HasAuthors(calls + [c], id, Step(Run(calls), c).store.deals[id])
  {
    var s := Run(calls);
    var o := Step(s, c);
    if id in s.deals {
      StepRecordsFollow(s, c);
      OwnCallKeepsAuthors(calls, c, id, s.deals[id], o.store.deals[id]);
    } else if id in o.store.deals {
      StepIsLocal(s, c);
      EventsAreEntitled(s, c);
      CreationRecords(s, c);
      LastCallActs(calls, c, id, o.store.deals[id]);
    }
  }

  /** Over every run, whatever a deal records goes back to a committed act of someone entitled to it: its
      trader created it under an active counterparty; a deal outside DRAFT and CANCELLED was submitted
      by that trader or an administrator and not reopened since; and the decision it records, comment
      included, is the last one made on it, by the positioner it names, who for an APPROVE is not the
      trader. */
  lemma {:induction false} RecordsHaveAuthors(calls: seq<Call>, id: DealId)
    ensures id in Run(calls).deals ==> HasAuthors(calls, id, Run(calls).deals[id])
  {
    if calls != [] {
      var front, last := calls[..|calls| - 1], calls[|calls| - 1];
      assert calls == front + [last];
      RecordsHaveAuthors(front, id);
      if last.request.id == id {
        StepKeepsAuthors(front, last, id);
      } else {
        StepIsLocal(Run(front), last);
        if id in Run(front).deals {
          OtherCallKeepsAuthors(front, last, id, Run(front).deals[id]);
        }
      }
    }
  }
}
