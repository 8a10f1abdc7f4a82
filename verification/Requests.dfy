/** Each request in plain terms, for every store and every reference table: exactly when it commits, what
    it then stores and logs, and what it answers when it does not. Roles, states and bounds are
    written out here rather than taken from the guards of the transition relation. */
module Requests {
  import opened Domain
  import opened Money
  import opened Settlement
  import opened Tables
  import opened Limits
  import opened Payments
  import opened Validation
  import opened PositionClient
  import opened Lifecycle
  import opened Invariants
  import opened ValidateOutcomes
  import opened HandOffs

  /** A request that is refused stores nothing and logs nothing. */
  predicate TurnedDown(s: Store, o: Outcome, reply: Reply) {
    o.store == s && o.reply == reply && o.event == NoWrite
  }

  /** The deal is stored as d', everything else stays, and the entries are appended for it in order. */
  predicate Stores(s: Store, id: DealId, d': Deal, actions: seq<Action>, o: Outcome) {
    && o.store.deals == s.deals[id := d']
    && |o.store.log| == |s.log| + |actions|
    && (forall k :: 0 <= k < |s.log| ==> o.store.log[k] == s.log[k])
    && forall k :: 0 <= k < |actions| ==> o.store.log[|s.log| + k] == AuditEntry(id, actions[k])
  }

  // ----- create and update

  /** An active counterparty, a free id, and an amount and a rate of at most eighteen digits: then the
      draft is stored with terms and value date as given, for the caller as its trader. */
  lemma CreateRequest(s: Store, nsi: Nsi, id: DealId, t: Terms, v: Option<Day>, user: User)
    ensures var o := Step(s, Call(nsi, Request.CreateDeal(id, t, v, user)));
      if t.counterparty !in nsi.counterparties || !nsi.counterparties[t.counterparty].active then
        TurnedDown(s, o, Unprocessable)
      else if || id in s.deals
              || !(-1_000_000_000_000_000_000 < t.amount < 1_000_000_000_000_000_000)
              || !(-1_000_000_000_000_000_000 < t.rate < 1_000_000_000_000_000_000) then
        TurnedDown(s, o, ServerError)
      else
        && o.reply == Done && o.event == Creation
        && Stores(s, id, Deal(t, v, Draft, NotValidated, user.id, None, None, []), [Created], o)
  {
  }

  /** The field after the patch: the given value when one is set, and otherwise what it was. */
  predicate Takes<T(==)>(f: Field<T>, prior: T, after: T) {
    match f
    case Set(v) => after == v
    case _ => after == prior
  }

  /** What an edit stores: every field of the patch taken over, validation and payments gone, and trader,
      state and decision as they were. */
  predicate EditedBy(d: Deal, p: Patch, d': Deal) {
    && Takes(p.tradeDate, d.terms.tradeDate, d'.terms.tradeDate)
    && Takes(p.dealType, d.terms.dealType, d'.terms.dealType)
    && Takes(p.operation, d.terms.operation, d'.terms.operation)
    && Takes(p.buy, d.terms.buy, d'.terms.buy)
    && Takes(p.sell, d.terms.sell, d'.terms.sell)
    && Takes(p.amount, d.terms.amount, d'.terms.amount)
    && Takes(p.rate, d.terms.rate, d'.terms.rate)
    && Takes(p.counterparty, d.terms.counterparty, d'.terms.counterparty)
    && d'.valueDate == (match p.valueDate case Set(v) => Some(v) case Null => None case Unset => d.valueDate)
    && d'.status == NotValidated && d'.payments == []
    && d'.state == d.state && d'.trader == d.trader
    && d'.positioner == d.positioner && d'.solution == d.solution
  }

  /** Only the trader edits, not even an administrator, and only a DRAFT. */
  lemma UpdateRequest(s: Store, nsi: Nsi, id: DealId, p: Patch, user: User)
    ensures var o := Step(s, Call(nsi, Request.UpdateDeal(id, p, user)));
      if id !in s.deals then TurnedDown(s, o, NotFound)
      else if s.deals[id].state != Draft || s.deals[id].trader != user.id then TurnedDown(s, o, Forbidden)
      else if || p.counterparty == Null
              || (p.counterparty.Set? && (|| p.counterparty.value !in nsi.counterparties
                                          || !nsi.counterparties[p.counterparty.value].active)) then
        TurnedDown(s, o, Unprocessable)
      else if o.event == NoWrite then TurnedDown(s, o, ServerError)
      else
        && o.reply == Done && o.event == Edit
        && id in o.store.deals
        && EditedBy(s.deals[id], p, o.store.deals[id])
        && Stores(s, id, o.store.deals[id], [Edited], o)
  {
  }

  /** Past those guards an edit fails exactly on a null in a required column or on a number of more than
      eighteen digits. */
  lemma UpdateFailsIff(s: Store, nsi: Nsi, id: DealId, p: Patch, user: User)
    requires id in s.deals && s.deals[id].state == Draft && s.deals[id].trader == user.id
    requires p.counterparty == Unset || (&& p.counterparty.Set? && p.counterparty.value in nsi.counterparties
                                         && nsi.counterparties[p.counterparty.value].active)
    ensures var o := Step(s, Call(nsi, Request.UpdateDeal(id, p, user)));
      var amount := if p.amount.Set? then p.amount.value else s.deals[id].terms.amount;
      var rate := if p.rate.Set? then p.rate.value else s.deals[id].terms.rate;
      o.event == NoWrite <==>
        || p.tradeDate == Null || p.dealType == Null || p.operation == Null
        || p.buy == Null || p.sell == Null || p.amount == Null || p.rate == Null
        || !(-1_000_000_000_000_000_000 < amount < 1_000_000_000_000_000_000)
        || !(-1_000_000_000_000_000_000 < rate < 1_000_000_000_000_000_000)
  {
  }

  // ----- validate

  /** Whoever is neither the trader nor an administrator is refused; nobody else is. */
  lemma ValidateGuard(s: Store, nsi: Nsi, id: DealId, user: User, faultAfter: Option<int>)
    ensures var o := Step(s, Call(nsi, Request.ValidateDeal(id, user, faultAfter)));
      && (o.reply == NotFound <==> id !in s.deals)
      && (o.reply == Forbidden <==> id in s.deals && s.deals[id].trader != user.id && user.role != AdminRole)
      && (o.reply == NotFound || o.reply == Forbidden ==> TurnedDown(s, o, o.reply))
      && (o.event == Checked(false) ==>
            && o.reply == Unprocessable && id in s.deals
            && Stores(s, id, s.deals[id].(status := Invalid), [ValidationFailed], o))
  {
  }

  /** The format and logic control in plain terms. */
  ghost predicate FormatHolds(nsi: Nsi, d: Deal) {
    var t := d.terms;
    && d.state == Draft && t.buy != t.sell && t.amount > 0 && t.rate > 0
    && t.buy in nsi.currencies && t.sell in nsi.currencies
    && (nsi.currencies[t.buy].decimalPlaces <= 0 ==> t.amount % 100 == 0)
    && (nsi.currencies[t.buy].decimalPlaces == 1 ==> t.amount % 10 == 0)
    && t.counterparty in nsi.counterparties && nsi.counterparties[t.counterparty].active
    && (t.dealType == Forward ==> d.valueDate != None)
  }

  lemma FormatIsPasses(s: Store, nsi: Nsi, id: DealId)
    requires Inv(s) && id in s.deals
    ensures FormatHolds(nsi, s.deals[id]) <==>
              Passes(s.deals[id], Lookup(nsi.counterparties, s.deals[id].terms.counterparty), nsi.currencies)
  {
    var d := s.deals[id];
    PassesInWords(d, Lookup(nsi.counterparties, d.terms.counterparty), nsi.currencies);
  }

  /** In every reachable store, a validate of a deal that breaks one of the rules commits INVALID: among
      them an amount with more decimals than its currency has. */
  lemma BrokenRuleInvalidates(calls: seq<Call>, nsi: Nsi, id: DealId, user: User, faultAfter: Option<int>)
    requires id in Run(calls).deals && (Run(calls).deals[id].trader == user.id || user.role == AdminRole)
    requires !FormatHolds(nsi, Run(calls).deals[id])
    ensures Step(Run(calls), Call(nsi, Request.ValidateDeal(id, user, faultAfter))).event == Checked(false)
  {
    RunKeepsInv(calls);
    FormatIsPasses(Run(calls), nsi, id);
  }

  /** The two rows of a validated deal, with the counter amount rounded half up to c hundredths. */
  predicate PairOf(t: Terms, v: Day, buyAccount: string, sellAccount: string, c: int, payments: seq<Payment>) {
    payments ==
      [Payment(t.amount, t.buy, Some(buyAccount), if t.operation == Buy then In else Out, Some(v)),
       Payment(c, t.sell, Some(sellAccount), if t.operation == Buy then Out else In, Some(v))]
  }

  /** What a successful validate answers, stores and logs, in numbers: the counter amount is the nearest
      hundredth of amount times rate, the account numbers have at most thirty characters. */
  lemma ValidateStores(s: Store, nsi: Nsi, id: DealId, user: User, faultAfter: Option<int>)
    requires LimitsFit(nsi) && Inv(s)
    requires Step(s, Call(nsi, Request.ValidateDeal(id, user, faultAfter))).event == Checked(true)
    ensures var o := Step(s, Call(nsi, Request.ValidateDeal(id, user, faultAfter)));
      && id in s.deals && FormatHolds(nsi, s.deals[id])
      && o.reply == Done && id in o.store.deals && |o.store.deals[id].payments| == 2
      && var d, d' := s.deals[id], o.store.deals[id];
         var buy, sell, c := FirstActive(nsi.nostros, d.terms.buy), FirstActive(nsi.nostros, d.terms.sell),
                             d'.payments[1].amount;
         && d'.valueDate.Some? && buy.Some? && sell.Some?
         && |buy.value.number| <= 30 && |sell.value.number| <= 30
         && 0 <= c < 1_000_000_000_000_000_000
         && -500_000 <= d.terms.amount * d.terms.rate - c * 1_000_000 < 500_000
         && PairOf(d.terms, d'.valueDate.value, buy.value.number, sell.value.number, c, d'.payments)
         && Stores(s, id, d.(valueDate := d'.valueDate, status := ValidationStatus.Valid, payments := d'.payments),
                   [ValidationPassed(d'.valueDate.value, 2)], o)
  {
    var r := Request.ValidateDeal(id, user, faultAfter);
    SuccessNeedsCanValidate(s, nsi, r);
    FormatIsPasses(s, nsi, id);
    var d, v := s.deals[id], Judge(nsi, s.deals[id]).valueDate;
    JudgePasses(nsi, d, v);
    SuccessStores(s, nsi, r);
    StoredPairInNumbers(nsi, d, v);
  }

  lemma SuccessStores(s: Store, nsi: Nsi, r: Request)
    requires r.ValidateDeal? && ValidateStep(s, nsi, r).event == Checked(true)
    ensures r.id in s.deals && Judge(nsi, s.deals[r.id]).Passed?
    ensures var d, v := s.deals[r.id], Judge(nsi, s.deals[r.id]);
      && |v.rows| == 2
      && ValidateStep(s, nsi, r).reply == Done
      && Stores(s, r.id, d.(valueDate := Some(v.valueDate), status := ValidationStatus.Valid, payments := v.rows),
                [ValidationPassed(v.valueDate, 2)], ValidateStep(s, nsi, r))
  {
  }

  lemma StoredPairInNumbers(nsi: Nsi, d: Deal, v: Day)
    requires CanValidate(nsi, d, None)
    ensures var buy, sell, c := FirstActive(nsi.nostros, d.terms.buy), FirstActive(nsi.nostros, d.terms.sell),
                                CounterCents(d.terms);
      && |buy.value.number| <= 30 && |sell.value.number| <= 30
      && 0 <= c < 1_000_000_000_000_000_000
      && -500_000 <= d.terms.amount * d.terms.rate - c * 1_000_000 < 500_000
      && PairOf(d.terms, v, buy.value.number, sell.value.number, c, StoredPair(nsi, d.terms, v))
  {
    HalfUpIsNearest(d.terms.amount * d.terms.rate, CounterCents(d.terms));
  }

  /** An entitled validate that commits nothing answers 422 when the value date is what is missing, and
      500 in every other case. */
  lemma ValidateAbortReply(s: Store, nsi: Nsi, id: DealId, user: User, faultAfter: Option<int>)
    requires LimitsFit(nsi) && Inv(s)
    requires id in s.deals && (s.deals[id].trader == user.id || user.role == AdminRole)
    requires Step(s, Call(nsi, Request.ValidateDeal(id, user, faultAfter))).event == NoWrite
    ensures var o := Step(s, Call(nsi, Request.ValidateDeal(id, user, faultAfter)));
      var t := s.deals[id].terms;
      TurnedDown(s, o, if !SomeDate(nsi, s.deals[id]) && (Limited(nsi, t) ==> Computable(t)) then Unprocessable
                    else ServerError)
  {
    var r := Request.ValidateDeal(id, user, faultAfter);
    ValidateFailsIff(s, nsi, r);
    AbortIsJudged(s, nsi, r);
    JudgeFailsIff(nsi, s.deals[id]);
    DateMissingIff(nsi, s.deals[id]);
  }

  lemma AbortIsJudged(s: Store, nsi: Nsi, r: Request)
    requires r.ValidateDeal? && r.id in s.deals && TraderMay(s.deals[r.id], r.user)
    requires ValidateStep(s, nsi, r).event == NoWrite
    ensures var v := Judge(nsi, s.deals[r.id]);
      && !v.Failed?
      && TurnedDown(s, ValidateStep(s, nsi, r), if v == Aborted(Unprocessable) then Unprocessable else ServerError)
  {
  }

  lemma SomeDateIff(nsi: Nsi, d: Deal)
    ensures ValueDate(d.terms.tradeDate, d.terms.dealType, WindowOf(nsi, d.terms), d.valueDate).Some? <==>
              SomeDate(nsi, d)
  {
    var date := ValueDate(d.terms.tradeDate, d.terms.dealType, WindowOf(nsi, d.terms), d.valueDate);
    if date.Some? {
      ValueDateIffSettles(nsi.calendar, d.terms, d.valueDate, date.value);
    }
    if v :| SettlesOn(nsi.calendar, d.terms, d.valueDate, v) {
      ValueDateIffSettles(nsi.calendar, d.terms, d.valueDate, v);
    }
  }

  lemma DateMissingIff(nsi: Nsi, d: Deal)
    requires LimitsFit(nsi) && !MarksInvalid(nsi, d)
    ensures Judge(nsi, d) == Aborted(Unprocessable) <==>
              !SomeDate(nsi, d) && (Limited(nsi, d.terms) ==> Computable(d.terms))
  {
    PassesIffBothLegsWithin(nsi.limits, d.terms);
    SomeDateIff(nsi, d);
  }

  // ----- submit

  /** Submitting needs the trader or an administrator, a DRAFT, the status VALID, and no limit issue. */
  lemma SubmitRequest(s: Store, nsi: Nsi, id: DealId, user: User)
    ensures var o, issues := Step(s, Call(nsi, Request.SubmitDeal(id, user))),
                             if id in s.deals then LimitIssues(nsi.limits, s.deals[id].terms) else None;
      if id !in s.deals then TurnedDown(s, o, NotFound)
      else if (s.deals[id].trader != user.id && user.role != AdminRole) || s.deals[id].state != Draft then
        TurnedDown(s, o, Forbidden)
      else if s.deals[id].status != ValidationStatus.Valid then TurnedDown(s, o, Unprocessable)
      else if issues == None then TurnedDown(s, o, ServerError)
      else if issues != Some([]) then
        && o.reply == Unprocessable && o.event == SubmitRefused
        && Stores(s, id, s.deals[id].(status := Invalid), [ValidationFailed], o)
      else
        && o.reply == Done && o.event == Submission
        && Stores(s, id, s.deals[id].(state := Waiting), [StatusChange(Draft, Waiting)], o)
  {
  }

  // ----- decide

  /** Who may hand a deal over: a positioner or an administrator who is not its trader. */
  lemma HandsOverInWords(s: Store, r: Request)
    ensures HandsOver(s, r) <==>
              && r.ApproveDeal? && r.id in s.deals
              && (r.user.role == PositionerRole || r.user.role == AdminRole)
              && s.deals[r.id].state == Waiting && s.deals[r.id].trader != r.user.id
  {
  }

  /** Approving: 404 without the deal, 403 for any other role, another state or the trader, and otherwise
      the decision is stored either way and the hand-off says which state and entries. */
  lemma ApproveRequest(s: Store, nsi: Nsi, id: DealId, user: User, swapped: bool, remote: Remote)
    ensures var o := Step(s, Call(nsi, Request.ApproveDeal(id, user, swapped, remote)));
      if id !in s.deals then TurnedDown(s, o, NotFound)
      else if || (user.role != PositionerRole && user.role != AdminRole)
              || s.deals[id].state != Waiting || s.deals[id].trader == user.id then
        TurnedDown(s, o, Forbidden)
      else
        var d := s.deals[id].(positioner := Some(user.id), solution := Some(Solution(Approve, None, user.id)));
        if SendSucceeds(remote, Loaded(s.deals[id].payments, swapped)) then
          && o.reply == Done && o.event == Approval(true)
          && Stores(s, id, d.(state := Executed), [PositionSend(true), StatusChange(Waiting, Executed)], o)
        else
          && o.reply == BadGateway && o.event == Approval(false)
          && Stores(s, id, d.(state := Approved), [PositionSend(false)], o)
  {
  }

  /** In every reachable store a waiting deal is executed exactly when a positioner or an administrator
      other than its trader approves it, the position system is configured and gives a token, and for
      each of the two payments some allowed attempt is acknowledged with no status from 400 to 499
      before it. */
  lemma ExecutedExactlyWhen(calls: seq<Call>, nsi: Nsi, id: DealId, user: User, swapped: bool, remote: Remote)
    ensures Step(Run(calls), Call(nsi, Request.ApproveDeal(id, user, swapped, remote))).event == Approval(true) <==>
              && id in Run(calls).deals
              && (user.role == PositionerRole || user.role == AdminRole)
              && Run(calls).deals[id].state == Waiting && Run(calls).deals[id].trader != user.id
              && remote.configured && remote.tokenOk
              && (exists a: nat :: && 1 <= a <= remote.retries && remote.reply(0, a).Ack?
                                   && forall b: nat :: 1 <= b < a ==> !(&& remote.reply(0, b).HttpError?
                                                                        && 400 <= remote.reply(0, b).status <= 499))
              && exists a: nat :: && 1 <= a <= remote.retries && remote.reply(1, a).Ack?
                                  && forall b: nat :: 1 <= b < a ==> !(&& remote.reply(1, b).HttpError?
                                                                       && 400 <= remote.reply(1, b).status <= 499)
  {
    var r := Request.ApproveDeal(id, user, swapped, remote);
    HandsOverInWords(Run(calls), r);
    ApprovalSucceedsIff(Run(calls), r);
    AcceptedInNumerals(remote, 0);
    AcceptedInNumerals(remote, 1);
    if HandsOver(Run(calls), r) {
      SendNeedsBoth(calls, r);
    }
  }

  lemma ApprovalSucceedsIff(s: Store, r: Request)
    requires r.ApproveDeal?
    ensures ApproveStep(s, r).event == Approval(true) <==>
              HandsOver(s, r) && SendSucceeds(r.remote, Loaded(s.deals[r.id].payments, r.swapped))
  {
  }

  lemma SendNeedsBoth(calls: seq<Call>, r: Request)
    requires HandsOver(Run(calls), r)
    ensures SendSucceeds(r.remote, Loaded(Run(calls).deals[r.id].payments, r.swapped)) <==>
              r.remote.configured && r.remote.tokenOk && Accepted(r.remote, 0) && Accepted(r.remote, 1)
  {
    HandedOverPair(calls, r);
    PairCurrencies(Run(calls).deals[r.id], r.swapped);
    TwoPaymentsSucceedIff(r.remote, Loaded(Run(calls).deals[r.id].payments, r.swapped));
  }

  lemma TwoPaymentsSucceedIff(remote: Remote, payments: seq<Payment>)
    requires |payments| == 2
    ensures SendSucceeds(remote, payments) <==>
              remote.configured && remote.tokenOk && Accepted(remote, 0) && Accepted(remote, 1)
  {
    assert AllAccepted(remote, 2) <==> Accepted(remote, 0) && Accepted(remote, 1);
  }

  /** A return or a rejection: the same roles as an approval, but the trader is not excluded, and a return
      needs a comment. */
  lemma DeclineRequest(s: Store, nsi: Nsi, r: Request)
    requires r.ReturnDeal? || r.RejectDeal?
    ensures var o := Step(s, Call(nsi, r));
      if r.id !in s.deals then TurnedDown(s, o, NotFound)
      else if (r.user.role != PositionerRole && r.user.role != AdminRole) || s.deals[r.id].state != Waiting then
        TurnedDown(s, o, Forbidden)
      else if r.ReturnDeal? && (r.comment == None || r.comment == Some("")) then TurnedDown(s, o, Unprocessable)
      else
        var decision := Solution(if r.ReturnDeal? then ReturnForEdit else Reject, r.comment, r.user.id);
        && o.reply == Done && o.event == Rejection
        && Stores(s, r.id, s.deals[r.id].(state := Rejected, positioner := Some(r.user.id), solution := Some(decision)),
                  [StatusChange(Waiting, Rejected)], o)
  {
  }

  /** Taking a rejected deal back, and cancelling a draft: the trader or an administrator, and only the
      state changes. */
  lemma MoveRequest(s: Store, nsi: Nsi, id: DealId, user: User)
    ensures var o := Step(s, Call(nsi, Request.TakeForEdit(id, user)));
      if id !in s.deals then TurnedDown(s, o, NotFound)
      else if (s.deals[id].trader != user.id && user.role != AdminRole) || s.deals[id].state != Rejected then
        TurnedDown(s, o, Forbidden)
      else
        && o.reply == Done && o.event == Reopening
        && Stores(s, id, s.deals[id].(state := Draft), [StatusChange(Rejected, Draft)], o)
    ensures var o := Step(s, Call(nsi, Request.CancelDeal(id, user)));
      if id !in s.deals then TurnedDown(s, o, NotFound)
      else if (s.deals[id].trader != user.id && user.role != AdminRole) || s.deals[id].state != Draft then
        TurnedDown(s, o, Forbidden)
      else
        && o.reply == Done && o.event == Cancellation
        && Stores(s, id, s.deals[id].(state := Cancelled), [StatusChange(Draft, Cancelled)], o)
  {
  }

  /** A failed report changes no deal and logs one entry. */
  lemma ReportRequest(s: Store, nsi: Nsi, id: DealId)
    ensures var o := Step(s, Call(nsi, Request.FailReport(id)));
      && o.store.deals == s.deals && o.reply == Unprocessable
      && o.store.log == s.log + [AuditEntry(id, ReportFailed)]
  {
  }
}
