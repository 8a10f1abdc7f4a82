/** The audit log as a history: replaying a deal's entries rebuilds its state and its validation
    status. */
module AuditReplay {
  import opened Domain
  import opened Lifecycle
  import opened Runs

  datatype Replayed = Replayed(state: DealState, status: ValidationStatus)

  /** What one entry says about the deal it names. A failed hand-off logs no STATUS_CHANGE: the
      unsuccessful POSITION_SEND entry alone tells that the deal became APPROVED. A reader who
      ignores those entries passes sends = false. */
  function Read(now: Option<Replayed>, a: Action, sends: bool): Option<Replayed> {
    if a.Created? then Some(Replayed(Draft, NotValidated))
    else if now.None? then None
    else
      match a
      case Created => now
      case Edited => Some(now.value.(status := NotValidated))
      case ValidationPassed(_, _) => Some(now.value.(status := Valid))
      case ValidationFailed => Some(now.value.(status := Invalid))
      case StatusChange(_, after) => Some(now.value.(state := after))
      case PositionSend(success) => if success || !sends then now else Some(now.value.(state := Approved))
      case ReportFailed => now
  }

  function Replay(log: seq<AuditEntry>, id: DealId, sends: bool): Option<Replayed> {
    if log == [] then None
    else
      var before := Replay(log[..|log| - 1], id, sends);
      var last := log[|log| - 1];
      if last.entity == id then Read(before, last.action, sends) else before
  }

  /** What a replay should yield; a reader who ignores the sends takes APPROVED for WAITING. */
  function ViewOf(d: Deal, sends: bool): Replayed {
    Replayed(if d.state.Approved? && !sends then Waiting else d.state, d.status)
  }

  function View(s: Store, id: DealId, sends: bool): Option<Replayed> {
    if id in s.deals then Some(ViewOf(s.deals[id], sends)) else None
  }

  /** Every STATUS_CHANGE records as old status the one the entries before it replay to. */
  ghost predicate Chained(log: seq<AuditEntry>, sends: bool) {
    forall k :: 0 <= k < |log| && log[k].action.StatusChange? ==>
      Starts(Replay(log[..k], log[k].entity, sends), log[k].action)
  }

  predicate Starts(before: Option<Replayed>, a: Action) {
    a.StatusChange? ==> before.Some? && before.value.state == a.before
  }

  ghost predicate Faithful(s: Store, sends: bool) {
    && Chained(s.log, sends)
    && forall id :: Replay(s.log, id, sends) == View(s, id, sends)
  }

  /** One more entry. */
  lemma Extend(log: seq<AuditEntry>, e: AuditEntry, sends: bool)
    requires Chained(log, sends) && Starts(Replay(log, e.entity, sends), e.action)
    ensures forall id :: Replay(log + [e], id, sends) ==
                         if e.entity == id then Read(Replay(log, id, sends), e.action, sends)
                         else Replay(log, id, sends)
    ensures Chained(log + [e], sends)
  {
    assert (log + [e])[..|log|] == log;
    forall k | 0 <= k < |log|
      ensures (log + [e])[..k] == log[..k]
    {
    }
  }

  /** Committing one entry about a deal keeps the log faithful when reading the entry takes the old
      view of the deal to the new one. */
  lemma WriteOne(s: Store, id: DealId, d: Deal, a: Action, sends: bool)
    requires Faithful(s, sends)
    requires Read(View(s, id, sends), a, sends) == Some(ViewOf(d, sends))
    requires Starts(View(s, id, sends), a)
    ensures Faithful(Write(s, id, d, [a]), sends)
  {
    Extend(s.log, AuditEntry(id, a), sends);
    assert Entries(id, [a]) == [AuditEntry(id, a)];
  }

  lemma WriteExecution(s: Store, id: DealId, d: Deal, sends: bool)
    requires Faithful(s, sends)
    requires id in s.deals && s.deals[id].state.Waiting? && d.state.Executed? && d.status == s.deals[id].status
    ensures Faithful(Write(s, id, d, [PositionSend(true), StatusChange(Waiting, Executed)]), sends)
  {
    var e, f := AuditEntry(id, PositionSend(true)), AuditEntry(id, StatusChange(Waiting, Executed));
    Extend(s.log, e, sends);
    Extend(s.log + [e], f, sends);
    assert s.log + Entries(id, [e.action, f.action]) == s.log + [e] + [f];
  }

  lemma ValidateIsFaithful(s: Store, nsi: Nsi, r: Request, sends: bool)
    requires Faithful(s, sends) && r.ValidateDeal?
    ensures Faithful(ValidateStep(s, nsi, r).store, sends)
  {
    var o := ValidateStep(s, nsi, r);
    if o.event.Checked? {
      var d := o.store.deals[r.id];
      var a := if o.event.passed then ValidationPassed(d.valueDate.value, |d.payments|) else ValidationFailed;
      WriteOne(s, r.id, d, a, sends);
    }
  }

  lemma ApproveIsFaithful(s: Store, r: Request, sends: bool)
    requires Faithful(s, sends) && r.ApproveDeal?
    ensures Faithful(ApproveStep(s, r).store, sends)
  {
    var o := ApproveStep(s, r);
    if o.event == Approval(true) {
      WriteExecution(s, r.id, o.store.deals[r.id], sends);
    } else if o.event == Approval(false) {
      WriteOne(s, r.id, o.store.deals[r.id], PositionSend(false), sends);
    }
  }

  lemma OtherStepIsFaithful(s: Store, c: Call, sends: bool)
    requires Faithful(s, sends) && !c.request.ValidateDeal? && !c.request.ApproveDeal?
    ensures Faithful(Step(s, c).store, sends)
  {
    var o, id := Step(s, c), c.request.id;
    match o.event {
      case NoWrite =>
      case Creation => WriteOne(s, id, o.store.deals[id], Created, sends);
      case Edit => WriteOne(s, id, o.store.deals[id], Edited, sends);
      case SubmitRefused => WriteOne(s, id, o.store.deals[id], ValidationFailed, sends);
      case Submission => WriteOne(s, id, o.store.deals[id], StatusChange(Draft, Waiting), sends);
      case Rejection => WriteOne(s, id, o.store.deals[id], StatusChange(Waiting, Rejected), sends);
      case Reopening => WriteOne(s, id, o.store.deals[id], StatusChange(Rejected, Draft), sends);
      case Cancellation => WriteOne(s, id, o.store.deals[id], StatusChange(Draft, Cancelled), sends);
      case ReportLogged => Extend(s.log, AuditEntry(id, ReportFailed), sends);
    }
  }

  lemma {:induction false} RunIsFaithful(calls: seq<Call>, sends: bool)
    ensures Faithful(Run(calls), sends)
  {
    if calls != [] {
      var s, c := Run(calls[..|calls| - 1]), calls[|calls| - 1];
      RunIsFaithful(calls[..|calls| - 1], sends);
      match c.request {
        case ValidateDeal(_, _, _) => ValidateIsFaithful(s, c.nsi, c.request, sends);
        case ApproveDeal(_, _, _, _) => ApproveIsFaithful(s, c.request, sends);
        case _ => OtherStepIsFaithful(s, c, sends);
      }
    }
  }

  /** For every run, replaying the log rebuilds the committed state and validation status of every
      deal (and of nothing else), and every STATUS_CHANGE starts from the replayed state just
      before it. */
  lemma ReplayRebuildsEveryDeal(calls: seq<Call>, id: DealId)
    ensures id in Run(calls).deals ==>
              Replay(Run(calls).log, id, true) ==
                Some(Replayed(Run(calls).deals[id].state, Run(calls).deals[id].status))
    ensures id !in Run(calls).deals ==> Replay(Run(calls).log, id, true) == None
    ensures Chained(Run(calls).log, true)
  {
    RunIsFaithful(calls, true);
  }

  /** The log records a failed hand-off of the deal. */
  ghost predicate LogsFailedSend(log: seq<AuditEntry>, id: DealId) {
    AuditEntry(id, PositionSend(false)) in log
  }

  lemma FailedSendLogged(s: Store, c: Call, id: DealId)
    ensures LogsFailedSend(Step(s, c).store.log, id) <==>
              LogsFailedSend(s.log, id) || (c.request.id == id && Step(s, c).event == Approval(false))
  {
    match c.request {
      case ApproveDeal(_, _, _, _) => ApproveLogs(s, c.request, id);
      case ValidateDeal(_, _, _) => ValidateLogs(s, c.nsi, c.request, id);
      case _ => OtherStepLogs(s, c, id);
    }
  }

  lemma WriteLogs(s: Store, id: DealId, d: Deal, actions: seq<Action>, e: AuditEntry)
    ensures e in Write(s, id, d, actions).log <==> e in s.log || (e.entity == id && e.action in actions)
  {
    var entries := Entries(id, actions);
    if e.entity == id && e.action in actions {
      var i :| 0 <= i < |actions| && actions[i] == e.action;
      assert entries[i] == e;
    }
  }

  lemma ApproveLogs(s: Store, r: Request, id: DealId)
    requires r.ApproveDeal?
    ensures LogsFailedSend(ApproveStep(s, r).store.log, id) <==>
              LogsFailedSend(s.log, id) || (r.id == id && ApproveStep(s, r).event == Approval(false))
  {
    var o, e := ApproveStep(s, r), AuditEntry(id, PositionSend(false));
    if o.event.Approval? {
      WriteLogs(s, r.id, o.store.deals[r.id], [PositionSend(true), StatusChange(Waiting, Executed)], e);
      WriteLogs(s, r.id, o.store.deals[r.id], [PositionSend(false)], e);
    }
  }

  lemma ValidateLogs(s: Store, nsi: Nsi, r: Request, id: DealId)
    requires r.ValidateDeal?
    ensures LogsFailedSend(ValidateStep(s, nsi, r).store.log, id) <==> LogsFailedSend(s.log, id)
  {
  }

  lemma OtherStepLogs(s: Store, c: Call, id: DealId)
    requires !c.request.ValidateDeal? && !c.request.ApproveDeal?
    ensures LogsFailedSend(Step(s, c).store.log, id) <==> LogsFailedSend(s.log, id)
    ensures !Step(s, c).event.Approval?
  {
  }

  /** A deal is APPROVED exactly when a failed hand-off of it is on record. */
  lemma {:induction false} ApprovedIffFailedSend(calls: seq<Call>, id: DealId)
    ensures StateOf(Run(calls), id) == Some(Approved) <==> LogsFailedSend(Run(calls).log, id)
  {
    if calls != [] {
      var front, last := calls[..|calls| - 1], calls[|calls| - 1];
      ApprovedIffFailedSend(front, id);
      FailedSendLogged(Run(front), last, id);
      StepIsLocal(Run(front), last);
    }
  }

  /** A reader who goes by STATUS_CHANGE alone gets the state of a deal right exactly when the log holds
      no failed POSITION_SEND of it, which is to say when it is not APPROVED; an APPROVED deal still
      looks WAITING to that reader. */
  lemma StatusChangesAloneMissApproved(calls: seq<Call>, id: DealId)
    requires id in Run(calls).deals
    ensures Replay(Run(calls).log, id, false).Some?
    ensures Replay(Run(calls).log, id, false).value.state == Run(calls).deals[id].state
       <==> !LogsFailedSend(Run(calls).log, id)
    ensures LogsFailedSend(Run(calls).log, id) <==> Run(calls).deals[id].state.Approved?
    ensures Run(calls).deals[id].state.Approved? ==> Replay(Run(calls).log, id, false).value.state == Waiting
  {
    RunIsFaithful(calls, false);
    ApprovedIffFailedSend(calls, id);
  }
}
