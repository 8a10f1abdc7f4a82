/** What every run of requests keeps: stored payments are the calculated pair, decisions match
    states, and nothing a positioner is shown changes before the decision. */
module Invariants {
  import opened Domain
  import opened Settlement
  import opened Payments
  import opened Lifecycle

  /** The stored payments are, field by field, what the calculator gives on the current terms and
      value date. */
  ghost predicate Pair(d: Deal) {
    && d.terms.amount > 0 && d.terms.rate > 0 && d.terms.buy != d.terms.sell
    && d.valueDate.Some?
    && d.terms.tradeDate <= d.valueDate.value <= d.terms.tradeDate + WINDOW_DAYS
    && Calculate(d.terms, d.valueDate.value).Some?
    && var calculated := Calculate(d.terms, d.valueDate.value).value;
    && |d.payments| == 2
    && StoresCalculation(d.payments[0], calculated[0])
    && StoresCalculation(d.payments[1], calculated[1])
    && RowFits(d.payments[0]) && RowFits(d.payments[1])
  }

  ghost predicate PaymentsKept(d: Deal) {
    && FitsNumeric(d.terms.amount) && FitsNumeric(d.terms.rate)
    && (d.payments == [] || Pair(d))
    && (d.status.Valid? || !(d.state.Draft? || d.state.Cancelled?) ==> Pair(d))
    && (d.status.NotValidated? ==> d.payments == [])
  }

  ghost predicate DecisionKept(d: Deal) {
    && (d.positioner.Some? <==> d.solution.Some?)
    && (d.solution.Some? ==> d.positioner == Some(d.solution.value.positioner))
    && (d.state.Approved? || d.state.Executed? <==> d.solution.Some? && d.solution.value.decision.Approve?)
    && (d.state.Approved? || d.state.Executed? ==> d.positioner != Some(d.trader))
    && (d.state.Rejected? ==> d.solution.Some?)
    && (d.solution.Some? && d.solution.value.decision.ReturnForEdit? ==>
          d.solution.value.comment.Some? && d.solution.value.comment.value != "")
  }

  ghost predicate Inv(s: Store) {
    forall id :: id in s.deals ==> PaymentsKept(s.deals[id]) && DecisionKept(s.deals[id])
  }

  // ----- one step

  /** A passed verdict carries exactly the rows of the calculated pair and a value date inside the
      loaded window. */
  lemma VerdictRows(nsi: Nsi, d: Deal)
    requires Judge(nsi, d).Passed?
    requires forall p :: p in Judge(nsi, d).rows ==> RowFits(p)
    ensures Pair(d.(valueDate := Some(Judge(nsi, d).valueDate), payments := Judge(nsi, d).rows))
  {
    var v := Judge(nsi, d);
    ValueDateInWindow(nsi.calendar, d.terms.tradeDate, d.terms.dealType, d.valueDate);
    assert v.rows[0] in v.rows && v.rows[1] in v.rows;
  }

  /** What a validate leaves in the deal's place, given its verdict. */
  ghost predicate ValidateEffect(s: Store, id: DealId, v: Verdict, o: Outcome) {
    && (o.event.NoWrite? ==> o.store == s)
    && (!o.event.NoWrite? ==> o.event.Checked? && id in s.deals)
    && (o.event == Checked(false) ==> o.store.deals == s.deals[id := s.deals[id].(status := Invalid)])
    && (o.event == Checked(true) ==>
          && v.Passed? && s.deals[id].state.Draft?
          && (forall p :: p in v.rows ==> RowFits(p))
          && o.store.deals ==
               s.deals[id := s.deals[id].(valueDate := Some(v.valueDate), status := Valid, payments := v.rows)])
  }

  lemma ValidateHasEffect(s: Store, nsi: Nsi, r: Request, v: Verdict)
    requires r.ValidateDeal? && (r.id in s.deals ==> v == Judge(nsi, s.deals[r.id]))
    ensures ValidateEffect(s, r.id, v, ValidateStep(s, nsi, r))
  {
  }

  lemma EffectKeepsInv(s: Store, id: DealId, v: Verdict, o: Outcome)
    requires Inv(s) && ValidateEffect(s, id, v, o)
    requires o.event == Checked(true) ==> Pair(s.deals[id].(valueDate := Some(v.valueDate), payments := v.rows))
    ensures Inv(o.store)
  {
  }

  lemma ValidateKeepsInv(s: Store, nsi: Nsi, r: Request)
    requires Inv(s) && r.ValidateDeal?
    ensures Inv(ValidateStep(s, nsi, r).store)
  {
    var v := if r.id in s.deals then Judge(nsi, s.deals[r.id]) else Failed;
    var o := ValidateStep(s, nsi, r);
    ValidateHasEffect(s, nsi, r, v);
    if o.event == Checked(true) {
      VerdictRows(nsi, s.deals[r.id]);
    }
    EffectKeepsInv(s, r.id, v, o);
  }

  lemma EntryKeepsInv(s: Store, nsi: Nsi, r: Request)
    requires Inv(s)
    ensures r.CreateDeal? ==> Inv(CreateStep(s, nsi, r).store)
    ensures r.UpdateDeal? ==> Inv(UpdateStep(s, nsi, r).store)
  {
  }

  lemma SubmitKeepsInv(s: Store, nsi: Nsi, r: Request)
    requires Inv(s) && r.SubmitDeal?
    ensures Inv(SubmitStep(s, nsi, r).store)
  {
    if r.id in s.deals && s.deals[r.id].state.Draft? && s.deals[r.id].status.Valid? {
      StatusOrSubmissionIsKept(s.deals[r.id]);
    }
  }

  lemma StatusOrSubmissionIsKept(d: Deal)
    requires PaymentsKept(d) && DecisionKept(d) && d.state.Draft? && d.status.Valid?
    ensures PaymentsKept(d.(status := Invalid)) && DecisionKept(d.(status := Invalid))
    ensures PaymentsKept(d.(state := Waiting)) && DecisionKept(d.(state := Waiting))
  {
  }

  lemma DecidedIsKept(d: Deal, user: User, decision: Decision, comment: Option<string>, state: DealState)
    requires PaymentsKept(d) && DecisionKept(d) && d.state.Waiting?
    requires decision.Approve? ==> (state.Approved? || state.Executed?) && user.id != d.trader
    requires !decision.Approve? ==> state.Rejected?
    requires decision.ReturnForEdit? ==> comment.Some? && comment.value != ""
    ensures PaymentsKept(Decided(d, user, decision, comment, state))
    ensures DecisionKept(Decided(d, user, decision, comment, state))
  {
  }

  lemma ApproveKeepsInv(s: Store, r: Request)
    requires Inv(s) && r.ApproveDeal?
    ensures Inv(ApproveStep(s, r).store)
  {
    if HandsOver(s, r) {
      DecidedIsKept(s.deals[r.id], r.user, Approve, None, Executed);
      DecidedIsKept(s.deals[r.id], r.user, Approve, None, Approved);
    }
  }

  lemma DeclineKeepsInv(s: Store, id: DealId, user: User, decision: Decision, comment: Option<string>)
    requires Inv(s) && !decision.Approve?
    ensures Inv(DeclineStep(s, id, user, decision, comment).store)
  {
    if DeclineStep(s, id, user, decision, comment).event == Rejection {
      DecidedIsKept(s.deals[id], user, decision, comment, Rejected);
    }
  }

  lemma MoveKeepsInv(s: Store, id: DealId, user: User)
    requires Inv(s)
    ensures Inv(MoveStep(s, id, user, Rejected, Draft, Reopening).store)
    ensures Inv(MoveStep(s, id, user, Draft, Cancelled, Cancellation).store)
  {
  }

  lemma StepKeepsInv(s: Store, c: Call)
    requires Inv(s)
    ensures Inv(Step(s, c).store)
  {
    var r := c.request;
    match r {
      case CreateDeal(_, _, _, _) => EntryKeepsInv(s, c.nsi, r);
      case UpdateDeal(_, _, _) => EntryKeepsInv(s, c.nsi, r);
      case ValidateDeal(_, _, _) => ValidateKeepsInv(s, c.nsi, r);
      case SubmitDeal(_, _) => SubmitKeepsInv(s, c.nsi, r);
      case ApproveDeal(_, _, _, _) => ApproveKeepsInv(s, r);
      case ReturnDeal(id, comment, user) => DeclineKeepsInv(s, id, user, ReturnForEdit, comment);
      case RejectDeal(id, comment, user) => DeclineKeepsInv(s, id, user, Reject, comment);
      case TakeForEdit(id, user) => MoveKeepsInv(s, id, user);
      case CancelDeal(id, user) => MoveKeepsInv(s, id, user);
      case FailReport(_) =>
    }
  }

  /** In every reachable store the invariant holds for every deal. */
  lemma {:induction false} RunKeepsInv(calls: seq<Call>)
    ensures Inv(Run(calls))
  {
    if calls != [] {
      RunKeepsInv(calls[..|calls| - 1]);
      StepKeepsInv(Run(calls[..|calls| - 1]), calls[|calls| - 1]);
    }
  }
}
