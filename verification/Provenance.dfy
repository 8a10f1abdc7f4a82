/** Where the terms of a deal come from: over every run each of them is what was last written to it, by the
    creation of the deal or by the last edit that set it. */
module Provenance {
  import opened Domain
  import opened Lifecycle
  import opened Runs
  import opened Requests

  /** Call k wrote v to the field that get reads from the terms and patchOf from a patch. */
  ghost predicate Writes<T>(calls: seq<Call>, k: nat, id: DealId, get: Terms -> T, patchOf: Patch -> Field<T>, v: T) {
    && k < |calls| && calls[k].request.id == id
    && (|| (EventAt(calls, k) == Creation && calls[k].request.CreateDeal? && get(calls[k].request.terms) == v)
        || (EventAt(calls, k) == Edit && calls[k].request.UpdateDeal? && patchOf(calls[k].request.patch) == Set(v)))
  }

  /** No edit after call k names the field. */
  ghost predicate UntouchedSince<T>(calls: seq<Call>, k: nat, id: DealId, patchOf: Patch -> Field<T>) {
    forall j :: k < j < |calls| && calls[j].request.id == id && EventAt(calls, j) == Edit ==>
      calls[j].request.UpdateDeal? && patchOf(calls[j].request.patch) == Unset
  }

  ghost predicate LastWritten<T>(calls: seq<Call>, id: DealId, get: Terms -> T, patchOf: Patch -> Field<T>, v: T) {
    exists k :: Writes(calls, k, id, get, patchOf, v) && UntouchedSince(calls, k, id, patchOf)
  }

  /** The field is stored by an edit as its patch says and may not be set to null. */
  ghost predicate Follows<T>(get: Terms -> T, patchOf: Patch -> Field<T>) {
    forall d: Deal, p: Patch, d': Deal :: EditedBy(d, p, d') && !NullIn(p) ==>
      get(d'.terms) == if patchOf(p).Set? then patchOf(p).value else get(d.terms)
  }

  /** Some column other than the value date is set to null. */
  predicate NullIn(p: Patch) {
    || p.tradeDate.Null? || p.dealType.Null? || p.operation.Null? || p.buy.Null? || p.sell.Null?
    || p.amount.Null? || p.rate.Null? || p.counterparty.Null?
  }

  // ----- one more call

  lemma WriteStays<T>(calls: seq<Call>, c: Call, id: DealId, get: Terms -> T, patchOf: Patch -> Field<T>, v: T)
    requires LastWritten(calls, id, get, patchOf, v)
    requires c.request.id == id && Step(Run(calls), c).event == Edit ==>
               c.request.UpdateDeal? && patchOf(c.request.patch) == Unset
    ensures LastWritten(calls + [c], id, get, patchOf, v)
  {
    var k :| Writes(calls, k, id, get, patchOf, v) && UntouchedSince(calls, k, id, patchOf);
    EventsOneMore(calls, c);
    assert Writes(calls + [c], k, id, get, patchOf, v);
    StaysUntouched(calls, c, k, id, patchOf);
  }

  lemma StaysUntouched<T>(calls: seq<Call>, c: Call, k: nat, id: DealId, patchOf: Patch -> Field<T>)
    requires UntouchedSince(calls, k, id, patchOf)
    requires c.request.id == id && Step(Run(calls), c).event == Edit ==>
               c.request.UpdateDeal? && patchOf(c.request.patch) == Unset
    ensures UntouchedSince(calls + [c], k, id, patchOf)
  {
    EventsOneMore(calls, c);
    forall j | k < j <= |calls| && (calls + [c])[j].request.id == id && EventAt(calls + [c], j) == Edit
      ensures (calls + [c])[j].request.UpdateDeal? && patchOf((calls + [c])[j].request.patch) == Unset
    {
      assert j < |calls| ==> (calls + [c])[j] == calls[j];
    }
  }

  lemma WriteHappens<T>(calls: seq<Call>, c: Call, id: DealId, get: Terms -> T, patchOf: Patch -> Field<T>, v: T)
    requires c.request.id == id
    requires || (Step(Run(calls), c).event == Creation && c.request.CreateDeal? && get(c.request.terms) == v)
             || (Step(Run(calls), c).event == Edit && c.request.UpdateDeal? && patchOf(c.request.patch) == Set(v))
    ensures LastWritten(calls + [c], id, get, patchOf, v)
  {
    EventsOneMore(calls, c);
    assert Writes(calls + [c], |calls|, id, get, patchOf, v);
    assert UntouchedSince(calls + [c], |calls|, id, patchOf);
  }

  /** What an event does to the terms of its deal. */
  lemma TermsAfterStep(s: Store, c: Call)
    requires c.request.id in s.deals
    ensures c.request.id in Step(s, c).store.deals
    ensures Step(s, c).event != Creation
    ensures Step(s, c).event == Edit ==>
              && c.request.UpdateDeal? && !NullIn(c.request.patch)
              && EditedBy(s.deals[c.request.id], c.request.patch, Step(s, c).store.deals[c.request.id])
    ensures Step(s, c).event != Edit ==> Step(s, c).store.deals[c.request.id].terms == s.deals[c.request.id].terms
  {
    StepIsLocal(s, c);
    match c.request {
      case UpdateDeal(id, p, user) => UpdateRequest(s, c.nsi, id, p, user);
      case ValidateDeal(_, _, _) => ValidateKeepsTerms(s, c.nsi, c.request);
      case ApproveDeal(_, _, _, _) => ApproveIsLocal(s, c.request);
      case _ =>
    }
  }

  lemma ValidateKeepsTerms(s: Store, nsi: Nsi, r: Request)
    requires r.ValidateDeal? && r.id in s.deals
    ensures r.id in ValidateStep(s, nsi, r).store.deals
    ensures ValidateStep(s, nsi, r).store.deals[r.id].terms == s.deals[r.id].terms
    ensures !ValidateStep(s, nsi, r).event.Edit?
  {
  }

  lemma CreationTerms(s: Store, c: Call)
    requires c.request.id !in s.deals && c.request.id in Step(s, c).store.deals
    ensures Step(s, c).event == Creation && c.request.CreateDeal?
    ensures Step(s, c).store.deals[c.request.id].terms == c.request.terms
  {
    StepIsLocal(s, c);
  }

  lemma OwnStepWrites<T>(calls: seq<Call>, c: Call, id: DealId, get: Terms -> T, patchOf: Patch -> Field<T>)
    requires c.request.id == id && Follows(get, patchOf)
    requires forall p :: patchOf(p).Null? ==> NullIn(p)
    requires id in Run(calls).deals ==> LastWritten(calls, id, get, patchOf, get(Run(calls).deals[id].terms))
    requires id in Step(Run(calls), c).store.deals
    ensures LastWritten(calls + [c], id, get, patchOf, get(Step(Run(calls), c).store.deals[id].terms))
  {
    var s := Run(calls);
    var v := get(Step(s, c).store.deals[id].terms);
    if id !in s.deals {
      CreationTerms(s, c);
      WriteHappens(calls, c, id, get, patchOf, v);
    } else {
      TermsAfterStep(s, c);
      if Step(s, c).event == Edit && patchOf(c.request.patch).Set? {
        WriteHappens(calls, c, id, get, patchOf, v);
      } else {
        WriteStays(calls, c, id, get, patchOf, v);
      }
    }
  }

  /** Any one field. */
  lemma {:induction false} FieldIsLastWritten<T>(calls: seq<Call>, id: DealId, get: Terms -> T,
                                                 patchOf: Patch -> Field<T>)
    requires Follows(get, patchOf) && forall p :: patchOf(p).Null? ==> NullIn(p)
    requires id in Run(calls).deals
    ensures LastWritten(calls, id, get, patchOf, get(Run(calls).deals[id].terms))
  {
    var front, last := calls[..|calls| - 1], calls[|calls| - 1];
    assert calls == front + [last];
    if id in Run(front).deals {
      FieldIsLastWritten(front, id, get, patchOf);
    }
    if last.request.id == id {
      OwnStepWrites(front, last, id, get, patchOf);
    } else {
      StepIsLocal(Run(front), last);
      WriteStays(front, last, id, get, patchOf, get(Run(calls).deals[id].terms));
    }
  }

  /** Over every run each of the eight agreed terms of a deal is what the creation of the deal gave it or
      what the last committed edit that names it set it to. */
  lemma TermsAreLastWritten(calls: seq<Call>, id: DealId)
    requires id in Run(calls).deals
    ensures var t := Run(calls).deals[id].terms;
      && LastWritten(calls, id, (x: Terms) => x.tradeDate, (p: Patch) => p.tradeDate, t.tradeDate)
      && LastWritten(calls, id, (x: Terms) => x.dealType, (p: Patch) => p.dealType, t.dealType)
      && LastWritten(calls, id, (x: Terms) => x.operation, (p: Patch) => p.operation, t.operation)
      && LastWritten(calls, id, (x: Terms) => x.buy, (p: Patch) => p.buy, t.buy)
      && LastWritten(calls, id, (x: Terms) => x.sell, (p: Patch) => p.sell, t.sell)
      && LastWritten(calls, id, (x: Terms) => x.amount, (p: Patch) => p.amount, t.amount)
      && LastWritten(calls, id, (x: Terms) => x.rate, (p: Patch) => p.rate, t.rate)
      && LastWritten(calls, id, (x: Terms) => x.counterparty, (p: Patch) => p.counterparty, t.counterparty)
  {
    FieldIsLastWritten(calls, id, (x: Terms) => x.tradeDate, (p: Patch) => p.tradeDate);
    FieldIsLastWritten(calls, id, (x: Terms) => x.dealType, (p: Patch) => p.dealType);
    FieldIsLastWritten(calls, id, (x: Terms) => x.operation, (p: Patch) => p.operation);
    FieldIsLastWritten(calls, id, (x: Terms) => x.buy, (p: Patch) => p.buy);
    FieldIsLastWritten(calls, id, (x: Terms) => x.sell, (p: Patch) => p.sell);
    FieldIsLastWritten(calls, id, (x: Terms) => x.amount, (p: Patch) => p.amount);
    FieldIsLastWritten(calls, id, (x: Terms) => x.rate, (p: Patch) => p.rate);
    FieldIsLastWritten(calls, id, (x: Terms) => x.counterparty, (p: Patch) => p.counterparty);
  }
}
