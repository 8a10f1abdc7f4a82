/** The deal lifecycle as a transition relation: what each request does to the stored deals and the
    audit log. A request is one atomic step that commits or writes nothing. */
module Lifecycle {
  import opened Domain
  import opened Tables
  import opened Settlement
  import opened Limits
  import opened Payments
  import opened Validation
  import opened PositionClient

  // ----- requests

  /** A PATCH field: absent, explicitly null, or a value. */
  datatype Field<+T> = Unset | Null | Set(value: T)

  datatype Patch = Patch(
    tradeDate: Field<Day>,
    dealType: Field<DealType>,
    operation: Field<Operation>,
    buy: Field<string>,
    sell: Field<string>,
    amount: Field<int>,
    rate: Field<int>,
    counterparty: Field<string>,
    valueDate: Field<Day>)

  /** swapped: the order in which the database returns a pair of payments is unspecified.
      FailReport is the failed regulatory report, which writes to the same log. */
  datatype Request =
    | CreateDeal(id: DealId, terms: Terms, valueDate: Option<Day>, user: User)
    | UpdateDeal(id: DealId, patch: Patch, user: User)
    | ValidateDeal(id: DealId, user: User, faultAfter: Option<int>)
    | SubmitDeal(id: DealId, user: User)
    | ApproveDeal(id: DealId, user: User, swapped: bool, remote: Remote)
    | ReturnDeal(id: DealId, comment: Option<string>, user: User)
    | RejectDeal(id: DealId, comment: Option<string>, user: User)
    | TakeForEdit(id: DealId, user: User)
    | CancelDeal(id: DealId, user: User)
    | FailReport(id: DealId)

  /** A request together with the reference tables at that moment. */
  datatype Call = Call(nsi: Nsi, request: Request)

  // ----- stored data

  datatype Action =
    | Created
    | Edited
    | ValidationPassed(valueDate: Day, payments: nat)
    | ValidationFailed
    | StatusChange(before: DealState, after: DealState)
    | PositionSend(success: bool)
    | ReportFailed

  datatype AuditEntry = AuditEntry(entity: DealId, action: Action)

  datatype Store = Store(deals: map<DealId, Deal>, log: seq<AuditEntry>)

  const EMPTY := Store(map[], [])

  /** The HTTP classes: 200/201, 404, 403, 422, 500, 502. */
  datatype Reply = Done | NotFound | Forbidden | Unprocessable | ServerError | BadGateway

  /** What a request did, NoWrite when it committed nothing. */
  datatype Event =
    | NoWrite
    | Creation
    | Edit
    | Checked(passed: bool)
    | SubmitRefused
    | Submission
    | Approval(sent: bool)
    | Rejection
    | Reopening
    | Cancellation
    | ReportLogged

  datatype Outcome = Outcome(store: Store, reply: Reply, event: Event)

  function Refuse(s: Store, reply: Reply): Outcome {
    Outcome(s, reply, NoWrite)
  }

  function Entries(id: DealId, actions: seq<Action>): seq<AuditEntry> {
    seq(|actions|, i requires 0 <= i < |actions| => AuditEntry(id, actions[i]))
  }

  function Write(s: Store, id: DealId, d: Deal, actions: seq<Action>): Store {
    Store(s.deals[id := d], s.log + Entries(id, actions))
  }

  // ----- guards

  predicate TraderMay(d: Deal, user: User) {
    d.trader == user.id || user.role.AdminRole?
  }

  predicate PositionerMay(user: User) {
    user.role.PositionerRole? || user.role.AdminRole?
  }

  predicate CounterpartyExists(nsi: Nsi, cp: string) {
    cp in nsi.counterparties && nsi.counterparties[cp].active
  }

  // ----- create and update

  function CreateStep(s: Store, nsi: Nsi, r: Request): Outcome
    requires r.CreateDeal?
  {
    if !CounterpartyExists(nsi, r.terms.counterparty) then Refuse(s, Unprocessable)
    else if r.id in s.deals || !FitsNumeric(r.terms.amount) || !FitsNumeric(r.terms.rate) then Refuse(s, ServerError)
    else
      var d := Deal(r.terms, r.valueDate, Draft, NotValidated, r.user.id, None, None, []);
      Outcome(Write(s, r.id, d, [Created]), Done, Creation)
  }

  function Patched<T>(f: Field<T>, prior: T): T {
    if f.Set? then f.value else prior
  }

  /** The columns other than value date may not be set to null. */
  predicate NullsRequired(p: Patch) {
    || p.tradeDate.Null? || p.dealType.Null? || p.operation.Null?
    || p.buy.Null? || p.sell.Null? || p.amount.Null? || p.rate.Null?
  }

  function PatchTerms(t: Terms, p: Patch): Terms {
    Terms(
      Patched(p.tradeDate, t.tradeDate),
      Patched(p.dealType, t.dealType),
      Patched(p.operation, t.operation),
      Patched(p.buy, t.buy),
      Patched(p.sell, t.sell),
      Patched(p.amount, t.amount),
      Patched(p.rate, t.rate),
      Patched(p.counterparty, t.counterparty))
  }

  function PatchValueDate(prior: Option<Day>, f: Field<Day>): Option<Day> {
    match f
    case Unset => prior
    case Null => None
    case Set(v) => Some(v)
  }

  function UpdateStep(s: Store, nsi: Nsi, r: Request): Outcome
    requires r.UpdateDeal?
  {
    if r.id !in s.deals then Refuse(s, NotFound)
    else
      var d := s.deals[r.id];
      if !d.state.Draft? || d.trader != r.user.id then Refuse(s, Forbidden)
      else if !r.patch.counterparty.Unset? &&
              !(r.patch.counterparty.Set? && CounterpartyExists(nsi, r.patch.counterparty.value)) then
        Refuse(s, Unprocessable)
      else
        var t := PatchTerms(d.terms, r.patch);
        if NullsRequired(r.patch) || !FitsNumeric(t.amount) || !FitsNumeric(t.rate) then Refuse(s, ServerError)
        else
          var d' := d.(terms := t, valueDate := PatchValueDate(d.valueDate, r.patch.valueDate),
                       status := NotValidated, payments := []);
          Outcome(Write(s, r.id, d', [Edited]), Done, Edit)
  }

  // ----- validate

  datatype Verdict = Failed | Aborted(reply: Reply) | Passed(valueDate: Day, rows: seq<Payment>)

  /** The validation pipeline up to the point where payments are stored. */
  ghost function Judge(nsi: Nsi, d: Deal): Verdict {
    var t := d.terms;
    if !Passes(d, Lookup(nsi.counterparties, t.counterparty), nsi.currencies) then Failed
    else
      match LimitIssues(nsi.limits, t)
      case None => Aborted(ServerError)
      case Some(issues) =>
        if issues != [] then Failed
        else
          var window := Window(nsi.calendar, t.tradeDate, t.tradeDate + WINDOW_DAYS);
          match ValueDate(t.tradeDate, t.dealType, window, d.valueDate)
          case None => Aborted(Unprocessable)
          case Some(valueDate) =>
            match Calculate(t, valueDate)
            case None => Aborted(ServerError)
            case Some(calculated) =>
              match PaymentRows(calculated, nsi.nostros)
              case None => Failed
              case Some(rows) => Passed(valueDate, rows)
  }

  /** The account_code column holds at most thirty characters. */
  const ACCOUNT_CODE_LIMIT := 30

  predicate RowFits(p: Payment) {
    FitsNumeric(p.amount) && (p.account.Some? ==> |p.account.value| <= ACCOUNT_CODE_LIMIT)
  }

  /** No injected fault strikes while the rows are replaced. */
  predicate NoFault(rows: seq<Payment>, faultAfter: Option<int>) {
    faultAfter.None? || rows == [] || |rows| <= faultAfter.value
  }

  ghost function ValidateStep(s: Store, nsi: Nsi, r: Request): Outcome
    requires r.ValidateDeal?
  {
    if r.id !in s.deals then Refuse(s, NotFound)
    else
      var d := s.deals[r.id];
      if !TraderMay(d, r.user) then Refuse(s, Forbidden)
      else
        match Judge(nsi, d)
        case Failed =>
          Outcome(Write(s, r.id, d.(status := Invalid), [ValidationFailed]), Unprocessable, Checked(false))
        case Aborted(reply) => Refuse(s, reply)
        case Passed(valueDate, rows) =>
          if !NoFault(rows, r.faultAfter) || exists p :: p in rows && !RowFits(p) then Refuse(s, ServerError)
          else
            var d' := d.(valueDate := Some(valueDate), status := Valid, payments := rows);
            Outcome(Write(s, r.id, d', [ValidationPassed(valueDate, |rows|)]), Done, Checked(true))
  }

  // ----- submit and decide

  function SubmitStep(s: Store, nsi: Nsi, r: Request): Outcome
    requires r.SubmitDeal?
  {
    if r.id !in s.deals then Refuse(s, NotFound)
    else
      var d := s.deals[r.id];
      if !TraderMay(d, r.user) || !d.state.Draft? then Refuse(s, Forbidden)
      else if !d.status.Valid? then Refuse(s, Unprocessable)
      else
        match LimitIssues(nsi.limits, d.terms)
        case None => Refuse(s, ServerError)
        case Some(issues) =>
          if issues != [] then
            Outcome(Write(s, r.id, d.(status := Invalid), [ValidationFailed]), Unprocessable, SubmitRefused)
          else
            Outcome(Write(s, r.id, d.(state := Waiting), [StatusChange(Draft, Waiting)]), Done, Submission)
  }

  /** The payments as the request loads them. */
  function Loaded(payments: seq<Payment>, swapped: bool): seq<Payment> {
    if swapped && |payments| == 2 then [payments[1], payments[0]] else payments
  }

  /** The guards of approve let the request reach the position system. */
  predicate HandsOver(s: Store, r: Request) {
    && r.ApproveDeal?
    && r.id in s.deals
    && PositionerMay(r.user)
    && s.deals[r.id].state.Waiting?
    && s.deals[r.id].trader != r.user.id
  }

  function Decided(d: Deal, user: User, decision: Decision, comment: Option<string>, state: DealState): Deal {
    d.(state := state, positioner := Some(user.id), solution := Some(Solution(decision, comment, user.id)))
  }

  ghost function ApproveStep(s: Store, r: Request): Outcome
    requires r.ApproveDeal?
  {
    if r.id !in s.deals then Refuse(s, NotFound)
    else if !HandsOver(s, r) then Refuse(s, Forbidden)
    else
      var d := s.deals[r.id];
      if SendSucceeds(r.remote, Loaded(d.payments, r.swapped)) then
        Outcome(Write(s, r.id, Decided(d, r.user, Approve, None, Executed),
                      [PositionSend(true), StatusChange(Waiting, Executed)]),
                Done, Approval(true))
      else
        Outcome(Write(s, r.id, Decided(d, r.user, Approve, None, Approved), [PositionSend(false)]),
                BadGateway, Approval(false))
  }

  function DeclineStep(s: Store, id: DealId, user: User, decision: Decision, comment: Option<string>): Outcome {
    if id !in s.deals then Refuse(s, NotFound)
    else
      var d := s.deals[id];
      if !PositionerMay(user) || !d.state.Waiting? then Refuse(s, Forbidden)
      else if decision == ReturnForEdit && (comment == None || comment == Some("")) then Refuse(s, Unprocessable)
      else
        Outcome(Write(s, id, Decided(d, user, decision, comment, Rejected), [StatusChange(Waiting, Rejected)]),
                Done, Rejection)
  }

  function MoveStep(s: Store, id: DealId, user: User, before: DealState, after: DealState, event: Event): Outcome {
    if id !in s.deals then Refuse(s, NotFound)
    else if !TraderMay(s.deals[id], user) || s.deals[id].state != before then Refuse(s, Forbidden)
    else Outcome(Write(s, id, s.deals[id].(state := after), [StatusChange(before, after)]), Done, event)
  }

  ghost function Step(s: Store, c: Call): Outcome {
    var r := c.request;
    match r
    case CreateDeal(_, _, _, _) => CreateStep(s, c.nsi, r)
    case UpdateDeal(_, _, _) => UpdateStep(s, c.nsi, r)
    case ValidateDeal(_, _, _) => ValidateStep(s, c.nsi, r)
    case SubmitDeal(_, _) => SubmitStep(s, c.nsi, r)
    case ApproveDeal(_, _, _, _) => ApproveStep(s, r)
    case ReturnDeal(id, comment, user) => DeclineStep(s, id, user, ReturnForEdit, comment)
    case RejectDeal(id, comment, user) => DeclineStep(s, id, user, Reject, comment)
    case TakeForEdit(id, user) => MoveStep(s, id, user, Rejected, Draft, Reopening)
    case CancelDeal(id, user) => MoveStep(s, id, user, Draft, Cancelled, Cancellation)
    case FailReport(id) => Outcome(Store(s.deals, s.log + [AuditEntry(id, ReportFailed)]), Unprocessable, ReportLogged)
  }

  // ----- runs

  /** The store after a run of calls on an empty database. */
  ghost function Run(calls: seq<Call>): Store {
    if calls == [] then EMPTY else Step(Run(calls[..|calls| - 1]), calls[|calls| - 1]).store
  }

  /** The last call of a run, with what it did. */
  ghost function LastEvent(calls: seq<Call>): Event
    requires calls != []
  {
    Step(Run(calls[..|calls| - 1]), calls[|calls| - 1]).event
  }
}
