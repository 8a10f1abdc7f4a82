/** The services themselves: one method per request over a committed store and the session's staged
    copy of it. Every method is proved to take the step the transition relation prescribes, so the
    store always is that of the run recorded so far and every theorem about runs applies. */
module DealDesk {
  import opened Domain
  import opened Tables
  import opened Settlement
  import opened Lifecycle
  import opened PositionClient
  import L = Limits
  import P = Payments
  import V = Validation
  import G = Regulatory
  import opened Runs
  import opened HandOffs

  class Desk {
    /** Committed rows. */
    var deals: map<DealId, Deal>
    var log: seq<AuditEntry>

    /** The open session's view, written back by commit. */
    var stagedDeals: map<DealId, Deal>
    var stagedLog: seq<AuditEntry>

    /** Every call that ran to its end. */
    ghost var history: seq<Call>

    /** Every POST made to the position system. */
    ghost var outbox: seq<Post>

    ghost function Current(): Store
      reads this
    {
      Store(deals, log)
    }

    /** No session holds uncommitted work, the store is what the recorded run produces, and the posts
        made are those of that run. */
    ghost predicate Valid()
      reads this
    {
      stagedDeals == deals && stagedLog == log && Current() == Run(history) && outbox == Outbox(history)
    }

    constructor ()
      ensures Valid() && history == []
    {
      outbox := [];
      deals, log := map[], [];
      stagedDeals, stagedLog := map[], [];
      history := [];
    }

    // ----- repository

    method Commit()
      modifies `deals, `log
      ensures deals == stagedDeals && log == stagedLog
    {
      deals, log := stagedDeals, stagedLog;
    }

    /** Also what closing a session does to work that was never committed. */
    method Rollback()
      modifies `stagedDeals, `stagedLog
      ensures stagedDeals == deals && stagedLog == log
    {
      stagedDeals, stagedLog := deals, log;
    }

    method Save(id: DealId, d: Deal)
      modifies `stagedDeals
      ensures stagedDeals == old(stagedDeals)[id := d]
    {
      stagedDeals := stagedDeals[id := d];
    }

    method Append(id: DealId, action: Action)
      modifies `stagedLog
      ensures stagedLog == old(stagedLog) + [AuditEntry(id, action)]
    {
      stagedLog := stagedLog + [AuditEntry(id, action)];
    }

    method SetDealState(id: DealId, state: DealState)
      requires id in stagedDeals
      modifies `stagedDeals
      ensures stagedDeals == old(stagedDeals)[id := old(stagedDeals)[id].(state := state)]
    {
      Save(id, stagedDeals[id].(state := state));
    }

    method SetValidationStatus(id: DealId, status: ValidationStatus)
      requires id in stagedDeals
      modifies `stagedDeals
      ensures stagedDeals == old(stagedDeals)[id := old(stagedDeals)[id].(status := status)]
    {
      Save(id, stagedDeals[id].(status := status));
    }

    /** Clears the payments and adds the new ones one by one; false when the injected fault strikes,
        leaving staged as many of them as the fault lets through. */
    method ReplacePayments(id: DealId, rows: seq<Payment>, faultAfter: Option<int>) returns (ok: bool)
      requires id in stagedDeals
      modifies `stagedDeals
      ensures ok <==> NoFault(rows, faultAfter)
      ensures ok ==> stagedDeals == old(stagedDeals)[id := old(stagedDeals)[id].(payments := rows)]
      ensures !ok ==>
                && faultAfter.Some? && faultAfter.value < |rows|
                && var staged := if faultAfter.value < 0 then 0 else faultAfter.value;
                   stagedDeals == old(stagedDeals)[id := old(stagedDeals)[id].(payments := rows[..staged])]
    {
      ghost var before := stagedDeals;
      Save(id, stagedDeals[id].(payments := []));
      for index := 1 to |rows| + 1
        invariant id in stagedDeals
        invariant stagedDeals == before[id := before[id].(payments := rows[..index - 1])]
        invariant faultAfter.Some? && index > 1 ==> index - 1 <= faultAfter.value
      {
        if faultAfter.Some? && index > faultAfter.value {
          return false;
        }
        assert rows[..index] == rows[..index - 1] + [rows[index - 1]];
        Save(id, stagedDeals[id].(payments := stagedDeals[id].payments + [rows[index - 1]]));
      }
      assert rows[..|rows|] == rows;
      return true;
    }

    // ----- bookkeeping of the run

    ghost method Record(call: Call)
      requires Current() == Step(Run(history), call).store
      requires outbox == Outbox(history) + PostsOf(Run(history), call.request)
      requires stagedDeals == deals && stagedLog == log
      modifies `history
      ensures Valid() && history == old(history) + [call]
    {
      history := history + [call];
      assert history[..|history| - 1] == old(history);
    }

    /** A request that ends without committing. */
    method Abandon(ghost call: Call)
      requires Current() == Run(history) && Step(Run(history), call).store == Current()
      requires outbox == Outbox(history) && !HandsOver(Current(), call.request)
      modifies `stagedDeals, `stagedLog, `history
      ensures Valid() && history == old(history) + [call]
    {
      Rollback();
      Record(call);
    }

    /** A request that ends by committing what is staged. */
    method Conclude(ghost call: Call)
      requires Step(Run(history), call).store == Store(stagedDeals, stagedLog)
      requires outbox == Outbox(history) + PostsOf(Run(history), call.request)
      modifies `deals, `log, `history
      ensures Valid() && history == old(history) + [call]
    {
      Commit();
      Record(call);
    }

    // ----- deal service

    method CreateDeal(nsi: Nsi, id: DealId, terms: Terms, valueDate: Option<Day>, user: User) returns (reply: Reply)
      requires Valid()
      modifies this
      ensures Valid() && history == old(history) + [Call(nsi, Request.CreateDeal(id, terms, valueDate, user))]
      ensures reply == Step(old(Current()), Call(nsi, Request.CreateDeal(id, terms, valueDate, user))).reply
    {
      ghost var call := Call(nsi, Request.CreateDeal(id, terms, valueDate, user));
      if !CounterpartyExists(nsi, terms.counterparty) {
        Abandon(call);
        return Unprocessable;
      }
      if id in stagedDeals || !FitsNumeric(terms.amount) || !FitsNumeric(terms.rate) {
        Abandon(call);
        return ServerError;
      }
      Save(id, Deal(terms, valueDate, Draft, NotValidated, user.id, None, None, []));
      Append(id, Created);
      assert Entries(id, [Created]) == [AuditEntry(id, Created)];
      Conclude(call);
      return Done;
    }

    method UpdateDeal(nsi: Nsi, id: DealId, patch: Patch, user: User) returns (reply: Reply)
      requires Valid()
      modifies this
      ensures Valid() && history == old(history) + [Call(nsi, Request.UpdateDeal(id, patch, user))]
      ensures reply == Step(old(Current()), Call(nsi, Request.UpdateDeal(id, patch, user))).reply
    {
      ghost var call := Call(nsi, Request.UpdateDeal(id, patch, user));
      if id !in stagedDeals {
        Abandon(call);
        return NotFound;
      }
      var deal := stagedDeals[id];
      if !deal.state.Draft? || deal.trader != user.id {
        Abandon(call);
        return Forbidden;
      }
      if !patch.counterparty.Unset? &&
         (patch.counterparty.Null? || !CounterpartyExists(nsi, patch.counterparty.value)) {
        Abandon(call);
        return Unprocessable;
      }
      if NullsRequired(patch) {
        Abandon(call);
        return ServerError;
      }
      var edited := PatchDeal(deal, patch);
      StageEdit(id, edited);
      if !FitsNumeric(edited.terms.amount) || !FitsNumeric(edited.terms.rate) {
        Abandon(call);
        return ServerError;
      }
      Append(id, Edited);
      assert Entries(id, [Edited]) == [AuditEntry(id, Edited)];
      Conclude(call);
      return Done;
    }

    /** Stages an edited deal: no longer validated, its payments gone. */
    method StageEdit(id: DealId, edited: Deal)
      requires id in stagedDeals
      modifies `stagedDeals
      ensures stagedDeals == old(stagedDeals)[id := edited.(status := NotValidated, payments := [])]
    {
      Save(id, edited);
      SetValidationStatus(id, NotValidated);
      var cleared := ReplacePayments(id, [], None);
    }

    /** Takes over the fields the patch sets, one by one. */
    method PatchDeal(deal: Deal, patch: Patch) returns (edited: Deal)
      ensures edited == deal.(terms := PatchTerms(deal.terms, patch),
                              valueDate := PatchValueDate(deal.valueDate, patch.valueDate))
    {
      var counterparty := deal.terms.counterparty;
      if patch.counterparty.Set? {
        counterparty := patch.counterparty.value;
      }
      var tradeDate := deal.terms.tradeDate;
      if patch.tradeDate.Set? {
        tradeDate := patch.tradeDate.value;
      }
      var valueDate := deal.valueDate;
      if !patch.valueDate.Unset? {
        valueDate := if patch.valueDate.Null? then None else Some(patch.valueDate.value);
      }
      var amount, rate := deal.terms.amount, deal.terms.rate;
      if patch.amount.Set? {
        amount := patch.amount.value;
      }
      if patch.rate.Set? {
        rate := patch.rate.value;
      }
      var buy, sell := deal.terms.buy, deal.terms.sell;
      if patch.buy.Set? {
        buy := patch.buy.value;
      }
      if patch.sell.Set? {
        sell := patch.sell.value;
      }
      var operation, dealType := deal.terms.operation, deal.terms.dealType;
      if patch.operation.Set? {
        operation := patch.operation.value;
      }
      if patch.dealType.Set? {
        dealType := patch.dealType.value;
      }
      edited := deal.(terms := Terms(tradeDate, dealType, operation, buy, sell, amount, rate, counterparty),
                      valueDate := valueDate);
    }

    /** Marks the deal INVALID and keeps that, before the issues are raised. */
    method CommitFailure(ghost call: Call, id: DealId)
      requires Valid() && id in deals && !HandsOver(Current(), call.request)
      requires Step(Run(history), call).store == Write(Current(), id, deals[id].(status := Invalid), [ValidationFailed])
      modifies this
      ensures Valid() && history == old(history) + [call]
    {
      SetValidationStatus(id, Invalid);
      Append(id, ValidationFailed);
      assert Entries(id, [ValidationFailed]) == [AuditEntry(id, ValidationFailed)];
      Conclude(call);
    }

    method ValidateDeal(nsi: Nsi, id: DealId, user: User, faultAfter: Option<int>) returns (reply: Reply)
      requires Valid()
      modifies this
      ensures Valid() && history == old(history) + [Call(nsi, Request.ValidateDeal(id, user, faultAfter))]
      ensures reply == Step(old(Current()), Call(nsi, Request.ValidateDeal(id, user, faultAfter))).reply
    {
      ghost var call := Call(nsi, Request.ValidateDeal(id, user, faultAfter));
      if id !in stagedDeals {
        Abandon(call);
        return NotFound;
      }
      var deal := stagedDeals[id];
      if deal.trader != user.id && !user.role.AdminRole? {
        Abandon(call);
        return Forbidden;
      }
      var verdict := Pipeline(nsi, deal);
      match verdict {
        case Failed =>
          CommitFailure(call, id);
          return Unprocessable;
        case Aborted(code) =>
          Abandon(call);
          return code;
        case Passed(valueDate, rows) =>
          reply := StorePayments(call, id, valueDate, rows, faultAfter);
      }
    }

    /** Checks, limits, value date, payments and accounts, in the order of the service. */
    method Pipeline(nsi: Nsi, deal: Deal) returns (verdict: Verdict)
      ensures verdict == Judge(nsi, deal)
    {
      var t := deal.terms;
      var issues := V.Validate(deal, Lookup(nsi.counterparties, t.counterparty), nsi.currencies);
      if issues != [] {
        return Failed;
      }
      var limitIssues := L.Check(nsi.limits, t);
      if limitIssues.None? {
        return Aborted(ServerError);
      }
      if limitIssues.value != [] {
        return Failed;
      }
      var calendar := LoadCalendar(nsi.calendar, t.tradeDate, t.tradeDate + WINDOW_DAYS);
      var valueDate := CalculateValueDate(t.tradeDate, t.dealType, calendar, deal.valueDate);
      if valueDate.None? {
        return Aborted(Unprocessable);
      }
      var calculated := P.Calculate(t, valueDate.value);
      if calculated.None? {
        return Aborted(ServerError);
      }
      var rows := AssignAccounts(nsi, calculated.value);
      if rows.None? {
        return Failed;
      }
      return Passed(valueDate.value, rows.value);
    }

    method AssignAccounts(nsi: Nsi, calculated: seq<CalculatedPayment>) returns (rows: Option<seq<Payment>>)
      ensures rows == P.PaymentRows(calculated, nsi.nostros)
    {
      var nostroMap := P.NostroByCurrency(nsi.nostros);
      var pairs, errors := P.Assign(calculated, nostroMap);
      P.AllAssigned(calculated, nostroMap);
      if errors != [] {
        return None;
      }
      var built: seq<Payment> := [];
      for i := 0 to |pairs|
        invariant |built| == i
        invariant forall j :: 0 <= j < i ==> built[j] == P.Row(pairs[j].0, pairs[j].1)
      {
        built := built + [P.Row(pairs[i].0, pairs[i].1)];
      }
      forall j | 0 <= j < |calculated|
        ensures P.FirstActive(nsi.nostros, calculated[j].currency).Some?
        ensures built[j] == P.Row(calculated[j], P.FirstActive(nsi.nostros, calculated[j].currency).value.number)
      {
        assert Lookup(nostroMap, calculated[j].currency) == P.FirstActive(nsi.nostros, calculated[j].currency);
      }
      assert built == P.PaymentRows(calculated, nsi.nostros).value;
      return Some(built);
    }

    method StorePayments(ghost call: Call, id: DealId, valueDate: Day, rows: seq<Payment>, faultAfter: Option<int>)
      returns (reply: Reply)
      requires Valid() && id in deals
      requires call.request.ValidateDeal? && call.request.id == id && call.request.faultAfter == faultAfter
      requires TraderMay(deals[id], call.request.user) && Judge(call.nsi, deals[id]) == Passed(valueDate, rows)
      modifies this
      ensures Valid() && history == old(history) + [call]
      ensures reply == Step(old(Current()), call).reply
    {
      StoreOutcome(Current(), call, valueDate, rows);
      Save(id, stagedDeals[id].(valueDate := Some(valueDate)));
      SetValidationStatus(id, ValidationStatus.Valid);
      var ok := ReplacePayments(id, rows, faultAfter);
      if !ok || exists p :: p in rows && !RowFits(p) {
        Abandon(call);
        return ServerError;
      }
      Append(id, ValidationPassed(valueDate, |rows|));
      assert Entries(id, [ValidationPassed(valueDate, |rows|)]) ==
             [AuditEntry(id, ValidationPassed(valueDate, |rows|))];
      Conclude(call);
      return Done;
    }

    static lemma StoreOutcome(s: Store, c: Call, valueDate: Day, rows: seq<Payment>)
      requires c.request.ValidateDeal? && c.request.id in s.deals && TraderMay(s.deals[c.request.id], c.request.user)
      requires Judge(c.nsi, s.deals[c.request.id]) == Passed(valueDate, rows)
      ensures var id := c.request.id;
        Step(s, c) ==
          if !NoFault(rows, c.request.faultAfter) || exists p :: p in rows && !RowFits(p) then Refuse(s, ServerError)
          else
            var d' := s.deals[id].(valueDate := Some(valueDate), status := ValidationStatus.Valid, payments := rows);
            Outcome(Write(s, id, d', [ValidationPassed(valueDate, |rows|)]), Done, Checked(true))
    {
    }

    // ----- approval service

    method SubmitDeal(nsi: Nsi, id: DealId, user: User) returns (reply: Reply)
      requires Valid()
      modifies this
      ensures Valid() && history == old(history) + [Call(nsi, Request.SubmitDeal(id, user))]
      ensures reply == Step(old(Current()), Call(nsi, Request.SubmitDeal(id, user))).reply
    {
      ghost var call := Call(nsi, Request.SubmitDeal(id, user));
      if id !in stagedDeals {
        Abandon(call);
        return NotFound;
      }
      var deal := stagedDeals[id];
      if (deal.trader != user.id && !user.role.AdminRole?) || !deal.state.Draft? {
        Abandon(call);
        return Forbidden;
      }
      if !deal.status.Valid? {
        Abandon(call);
        return Unprocessable;
      }
      var issues := L.Check(nsi.limits, deal.terms);
      if issues.None? {
        Abandon(call);
        return ServerError;
      }
      if issues.value != [] {
        CommitFailure(call, id);
        return Unprocessable;
      }
      SetDealState(id, Waiting);
      Append(id, StatusChange(deal.state, Waiting));
      assert Entries(id, [StatusChange(Draft, Waiting)]) == [AuditEntry(id, StatusChange(Draft, Waiting))];
      Conclude(call);
      return Done;
    }

    /** Stages the positioner's decision: the deal's positioner and state, and its one solution row,
        updated when it exists and added otherwise. */
    method SaveSolution(id: DealId, user: User, decision: Decision, comment: Option<string>, state: DealState)
      requires id in stagedDeals
      modifies `stagedDeals
      ensures stagedDeals == old(stagedDeals)[id := Decided(old(stagedDeals)[id], user, decision, comment, state)]
    {
      Save(id, stagedDeals[id].(positioner := Some(user.id)));
      SetDealState(id, state);
      var deal := stagedDeals[id];
      if deal.solution.Some? {
        var solution := deal.solution.value.(decision := decision, comment := comment, positioner := user.id);
        Save(id, deal.(solution := Some(solution)));
      } else {
        Save(id, deal.(solution := Some(Solution(decision, comment, user.id))));
      }
    }

    /** posts is everything sent to the position system. Whatever ran before, a request that gets
        past the guards sends the two calculated payments and nothing else. */
    method ApproveDeal(nsi: Nsi, id: DealId, user: User, swapped: bool, remote: Remote)
      returns (reply: Reply, posts: seq<Post>)
      requires Valid()
      modifies this
      ensures Valid() && history == old(history) + [Call(nsi, Request.ApproveDeal(id, user, swapped, remote))]
      ensures reply == Step(old(Current()), Call(nsi, Request.ApproveDeal(id, user, swapped, remote))).reply
      ensures !HandsOver(old(Current()), Request.ApproveDeal(id, user, swapped, remote)) ==> posts == []
      ensures user.role != PositionerRole && user.role != AdminRole ==>
                deals == old(deals) && posts == [] && reply == if id in old(deals) then Forbidden else NotFound
      ensures HandsOver(old(Current()), Request.ApproveDeal(id, user, swapped, remote)) ==>
        var before := old(deals)[id];
        && before.valueDate.Some? && P.Calculate(before.terms, before.valueDate.value).Some?
        && posts == SendPosts(remote, id, Decided(before, user, Approve, None, Approved),
                              Loaded(before.payments, swapped))
        && forall p :: p in posts ==>
             exists leg, row ::
               && leg in P.Calculate(before.terms, before.valueDate.value).value
               && row in before.payments
               && Carries(p.payload, id, leg, row)
    {
      ghost var call := Call(nsi, Request.ApproveDeal(id, user, swapped, remote));
      if id !in stagedDeals {
        Abandon(call);
        return NotFound, [];
      }
      var deal := stagedDeals[id];
      if !(user.role.PositionerRole? || user.role.AdminRole?) || !deal.state.Waiting? || deal.trader == user.id {
        Abandon(call);
        return Forbidden, [];
      }
      PostedPayloadsAreLegs(history, call.request);
      reply, posts := HandOver(nsi, id, user, swapped, remote);
    }

    /** Approve once its guards have passed: decide, send, log and commit either way. */
    method HandOver(nsi: Nsi, id: DealId, user: User, swapped: bool, remote: Remote)
      returns (reply: Reply, posts: seq<Post>)
      requires Valid()
      requires HandsOver(Current(), Request.ApproveDeal(id, user, swapped, remote))
      modifies this
      ensures Valid() && history == old(history) + [Call(nsi, Request.ApproveDeal(id, user, swapped, remote))]
      ensures reply == Step(old(Current()), Call(nsi, Request.ApproveDeal(id, user, swapped, remote))).reply
      ensures posts == SendPosts(remote, id, Decided(old(deals)[id], user, Approve, None, Approved),
                                 Loaded(old(deals)[id].payments, swapped))
    {
      ghost var call := Call(nsi, Request.ApproveDeal(id, user, swapped, remote));
      var oldState := stagedDeals[id].state;
      SaveSolution(id, user, Approve, None, Approved);
      var result, waited;
      result, posts, waited := SendDeal(id, stagedDeals[id], Loaded(stagedDeals[id].payments, swapped), remote);
      outbox := outbox + posts;
      HandOverOutcome(Current(), call, result.success);
      reply := Settle(call, id, result.success, oldState);
    }

    /** Logs the hand-off and commits what the positioner decided, EXECUTED when it succeeded. */
    method Settle(ghost call: Call, id: DealId, success: bool, oldState: DealState) returns (reply: Reply)
      requires HandsOver(Current(), call.request) && call.request.id == id && oldState == Waiting
      requires Current() == Run(history) && outbox == Outbox(history) + PostsOf(Run(history), call.request)
      requires stagedLog == log
      requires stagedDeals == deals[id := Decided(deals[id], call.request.user, Approve, None, Approved)]
      requires success <==> SendSucceeds(call.request.remote, Loaded(deals[id].payments, call.request.swapped))
      modifies this
      ensures Valid() && history == old(history) + [call]
      ensures reply == Step(old(Current()), call).reply
    {
      HandOverOutcome(Current(), call, success);
      Append(id, PositionSend(success));
      if !success {
        assert Entries(id, [PositionSend(false)]) == [AuditEntry(id, PositionSend(false))];
        Conclude(call);
        return BadGateway;
      }
      SetDealState(id, Executed);
      Append(id, StatusChange(oldState, Executed));
      assert stagedLog == log + Entries(id, [PositionSend(true), StatusChange(Waiting, Executed)]);
      Conclude(call);
      return Done;
    }

    static lemma HandOverOutcome(s: Store, c: Call, success: bool)
      requires HandsOver(s, c.request)
      requires success <==> SendSucceeds(c.request.remote, Loaded(s.deals[c.request.id].payments, c.request.swapped))
      ensures PostsOf(s, c.request) ==
                SendPosts(c.request.remote, c.request.id,
                          Decided(s.deals[c.request.id], c.request.user, Approve, None, Approved),
                          Loaded(s.deals[c.request.id].payments, c.request.swapped))
      ensures var id, d := c.request.id, s.deals[c.request.id];
        Step(s, c) ==
          if success then
            Outcome(Write(s, id, Decided(d, c.request.user, Approve, None, Executed),
                          [PositionSend(true), StatusChange(Waiting, Executed)]), Done, Approval(true))
          else
            Outcome(Write(s, id, Decided(d, c.request.user, Approve, None, Approved), [PositionSend(false)]),
                    BadGateway, Approval(false))
    {
    }

    method PositionerDecision(ghost call: Call, id: DealId, user: User, decision: Decision, comment: Option<string>)
      returns (reply: Reply)
      requires Valid()
      requires Step(Current(), call) == DeclineStep(Current(), id, user, decision, comment)
      requires !call.request.ApproveDeal?
      modifies this
      ensures Valid() && history == old(history) + [call]
      ensures reply == Step(old(Current()), call).reply
      ensures user.role != PositionerRole && user.role != AdminRole ==>
                deals == old(deals) && reply == if id in old(deals) then Forbidden else NotFound
    {
      if id !in stagedDeals {
        Abandon(call);
        return NotFound;
      }
      var deal := stagedDeals[id];
      if !(user.role.PositionerRole? || user.role.AdminRole?) || !deal.state.Waiting? {
        Abandon(call);
        return Forbidden;
      }
      if decision.ReturnForEdit? && (comment.None? || comment.value == "") {
        Abandon(call);
        return Unprocessable;
      }
      SaveSolution(id, user, decision, comment, Rejected);
      Append(id, StatusChange(deal.state, Rejected));
      assert Entries(id, [StatusChange(Waiting, Rejected)]) == [AuditEntry(id, StatusChange(Waiting, Rejected))];
      Conclude(call);
      return Done;
    }

    method ReturnDeal(nsi: Nsi, id: DealId, comment: Option<string>, user: User) returns (reply: Reply)
      requires Valid()
      modifies this
      ensures Valid() && history == old(history) + [Call(nsi, Request.ReturnDeal(id, comment, user))]
      ensures reply == Step(old(Current()), Call(nsi, Request.ReturnDeal(id, comment, user))).reply
    {
      reply := PositionerDecision(Call(nsi, Request.ReturnDeal(id, comment, user)), id, user, ReturnForEdit, comment);
    }

    method RejectDeal(nsi: Nsi, id: DealId, comment: Option<string>, user: User) returns (reply: Reply)
      requires Valid()
      modifies this
      ensures Valid() && history == old(history) + [Call(nsi, Request.RejectDeal(id, comment, user))]
      ensures reply == Step(old(Current()), Call(nsi, Request.RejectDeal(id, comment, user))).reply
    {
      reply := PositionerDecision(Call(nsi, Request.RejectDeal(id, comment, user)), id, user, Reject, comment);
    }

    method TakeForEdit(nsi: Nsi, id: DealId, user: User) returns (reply: Reply)
      requires Valid()
      modifies this
      ensures Valid() && history == old(history) + [Call(nsi, Request.TakeForEdit(id, user))]
      ensures reply == Step(old(Current()), Call(nsi, Request.TakeForEdit(id, user))).reply
    {
      ghost var call := Call(nsi, Request.TakeForEdit(id, user));
      if id !in stagedDeals {
        Abandon(call);
        return NotFound;
      }
      var deal := stagedDeals[id];
      if (deal.trader != user.id && !user.role.AdminRole?) || !deal.state.Rejected? {
        Abandon(call);
        return Forbidden;
      }
      SetDealState(id, Draft);
      Append(id, StatusChange(deal.state, Draft));
      assert Entries(id, [StatusChange(Rejected, Draft)]) == [AuditEntry(id, StatusChange(Rejected, Draft))];
      Conclude(call);
      return Done;
    }

    method CancelDeal(nsi: Nsi, id: DealId, user: User) returns (reply: Reply)
      requires Valid()
      modifies this
      ensures Valid() && history == old(history) + [Call(nsi, Request.CancelDeal(id, user))]
      ensures reply == Step(old(Current()), Call(nsi, Request.CancelDeal(id, user))).reply
    {
      ghost var call := Call(nsi, Request.CancelDeal(id, user));
      if id !in stagedDeals {
        Abandon(call);
        return NotFound;
      }
      var deal := stagedDeals[id];
      if (deal.trader != user.id && !user.role.AdminRole?) || !deal.state.Draft? {
        Abandon(call);
        return Forbidden;
      }
      SetDealState(id, Cancelled);
      Append(id, StatusChange(deal.state, Cancelled));
      assert Entries(id, [StatusChange(Draft, Cancelled)]) == [AuditEntry(id, StatusChange(Draft, Cancelled))];
      Conclude(call);
      return Done;
    }

    // ----- regulatory report

    /** The deals the report query selects, none of them cancelled. Only an incomplete report writes,
        one audit entry under its first deal. */
    method GenerateReport(nsi: Nsi, selected: seq<DealId>) returns (report: G.Report)
      requires Valid()
      requires forall i :: 0 <= i < |selected| ==> selected[i] in deals && !deals[selected[i]].state.Cancelled?
      modifies this
      ensures Valid() && deals == old(deals)
      ensures forall rows :: && |rows| == |selected|
                             && (forall i :: 0 <= i < |selected| ==> rows[i] == (selected[i], deals[selected[i]])) ==>
                G.Answers(report, rows, nsi)
      ensures report.Incomplete? ==>
                selected != [] && history == old(history) + [Call(nsi, Request.FailReport(selected[0]))]
      ensures !report.Incomplete? ==> history == old(history) && log == old(log)
    {
      var rows := Rows(stagedDeals, selected);
      report := G.Generate(rows, nsi);
      assert forall other :: && |other| == |selected|
                             && (forall i :: 0 <= i < |selected| ==> other[i] == (selected[i], deals[selected[i]])) ==>
               other == rows;
      if report.Incomplete? {
        LogIncomplete(nsi, selected[0]);
      }
    }

    static function Rows(deals: map<DealId, Deal>, selected: seq<DealId>): seq<(DealId, Deal)>
      requires forall i :: 0 <= i < |selected| ==> selected[i] in deals
    {
      seq(|selected|, i requires 0 <= i < |selected| => (selected[i], deals[selected[i]]))
    }

    method LogIncomplete(nsi: Nsi, id: DealId)
      requires Valid()
      modifies this
      ensures Valid() && deals == old(deals) && history == old(history) + [Call(nsi, Request.FailReport(id))]
    {
      Append(id, ReportFailed);
      Conclude(Call(nsi, Request.FailReport(id)));
    }
  }
}
