/** Deal limits: the repository's filtered list, the choice of the most specific limit, and the
    check run at validate and again at submit. */
module Limits {
  import opened Domain
  import opened Money
  import opened Tables

  /** The table is ordered by its integer primary key. */
  ghost predicate IdsIncreasing(limits: seq<DealLimit>) {
    forall i, j :: 0 <= i < j < |limits| ==> limits[i].id < limits[j].id
  }

  predicate AppliesTo(l: DealLimit, cp: string) {
    l.counterparty == None || l.counterparty == Some(cp)
  }

  predicate Matches(l: DealLimit, cp: string, ccy: string) {
    AppliesTo(l, cp) && (l.currency == None || l.currency == Some(ccy))
  }

  function ListActiveLimits(table: seq<DealLimit>, cp: string): seq<DealLimit> {
    Filter(table, (l: DealLimit) => l.active && AppliesTo(l, cp))
  }

  /** Counterparty first, then currency: (cp, ccy) 3, (cp, any) 2, (any, ccy) 1, (any, any) 0. */
  function Specificity(l: DealLimit, cp: string, ccy: string): nat {
    (if l.counterparty == Some(cp) then 2 else 0) + if l.currency == Some(ccy) then 1 else 0
  }

  /** max with a key: the first of the rows whose key is largest. */
  function FirstMax(matched: seq<DealLimit>, cp: string, ccy: string): DealLimit
    requires matched != []
  {
    var last := matched[|matched| - 1];
    if |matched| == 1 then last
    else
      var best := FirstMax(matched[..|matched| - 1], cp, ccy);
      if Specificity(last, cp, ccy) > Specificity(best, cp, ccy) then last else best
  }

  function FindBestLimit(limits: seq<DealLimit>, cp: string, ccy: string): Option<DealLimit> {
    var matched := Filter(limits, (l: DealLimit) => Matches(l, cp, ccy));
    if matched == [] then None else Some(FirstMax(matched, cp, ccy))
  }

  lemma {:induction false} FilterKeepsOrder(limits: seq<DealLimit>, p: DealLimit -> bool)
    requires IdsIncreasing(limits)
    ensures IdsIncreasing(Filter(limits, p))
  {
    if limits != [] {
      var front := limits[..|limits| - 1];
      FilterKeepsOrder(front, p);
      FilterMembers(front, p);
      var f := Filter(front, p);
      forall i | 0 <= i < |f|
        ensures f[i].id < limits[|limits| - 1].id
      {
        assert f[i] in front;
      }
    }
  }

  lemma {:induction false} FirstMaxIsMostSpecific(matched: seq<DealLimit>, cp: string, ccy: string)
    requires matched != [] && IdsIncreasing(matched)
    ensures var b := FirstMax(matched, cp, ccy);
      && b in matched
      && forall l :: l in matched ==>
           || Specificity(l, cp, ccy) < Specificity(b, cp, ccy)
           || (Specificity(l, cp, ccy) == Specificity(b, cp, ccy) && b.id <= l.id)
  {
    if |matched| > 1 {
      FirstMaxIsMostSpecific(matched[..|matched| - 1], cp, ccy);
    }
    assert matched == matched[..|matched| - 1] + [matched[|matched| - 1]];
  }

  /** a belongs to a higher class than b: (cp, ccy), then (cp, any), then (any, ccy), then (any, any). */
  predicate Outranks(a: DealLimit, b: DealLimit, cp: string, ccy: string) {
    var aCp, bCp := a.counterparty == Some(cp), b.counterparty == Some(cp);
    var aCcy, bCcy := a.currency == Some(ccy), b.currency == Some(ccy);
    (aCp && !bCp) || (aCp == bCp && aCcy && !bCcy)
  }

  /** b is the lowest-id row of the highest class that has an active row. */
  ghost predicate MostSpecific(b: DealLimit, table: seq<DealLimit>, cp: string, ccy: string) {
    && b in table && b.active
    && (b.counterparty == None || b.counterparty == Some(cp)) && (b.currency == None || b.currency == Some(ccy))
    && forall l :: && l in table && l.active
                   && (l.counterparty == None || l.counterparty == Some(cp))
                   && (l.currency == None || l.currency == Some(ccy)) ==>
         !Outranks(l, b, cp, ccy) && (Outranks(b, l, cp, ccy) || b.id <= l.id)
  }

  /** What the check selects for one currency. */
  function LimitFor(table: seq<DealLimit>, cp: string, ccy: string): Option<DealLimit> {
    FindBestLimit(ListActiveLimits(table, cp), cp, ccy)
  }

  /** The selection returns the lowest-id member of the highest non-empty class, and nothing
      exactly when no active limit matches. */
  lemma SelectionIsMostSpecific(table: seq<DealLimit>, cp: string, ccy: string, b: DealLimit)
    requires IdsIncreasing(table)
    ensures LimitFor(table, cp, ccy) == Some(b) <==> MostSpecific(b, table, cp, ccy)
    ensures LimitFor(table, cp, ccy) == None <==>
              forall l :: l in table && l.active ==>
                !(&& (l.counterparty == None || l.counterparty == Some(cp))
                  && (l.currency == None || l.currency == Some(ccy)))
  {
    var p := (l: DealLimit) => l.active && AppliesTo(l, cp);
    var q := (l: DealLimit) => Matches(l, cp, ccy);
    var listed := Filter(table, p);
    var matched := Filter(listed, q);
    FilterMembers(table, p);
    FilterMembers(listed, q);
    FilterKeepsOrder(table, p);
    FilterKeepsOrder(listed, q);
    assert forall l :: l in matched <==> l in table && l.active && Matches(l, cp, ccy);
    if matched == [] {
      assert forall l :: l !in matched;
    } else {
      assert matched[0] in matched;
      FirstMaxIsMostSpecific(matched, cp, ccy);
      var best := FirstMax(matched, cp, ccy);
      if MostSpecific(b, table, cp, ccy) {
        assert b.id == best.id;
        SameIdSameRow(table, b, best);
      }
    }
  }

  /** Some active row names this counterparty and this currency, each possibly none. */
  ghost predicate Names(table: seq<DealLimit>, counterparty: Option<string>, currency: Option<string>) {
    exists l :: l in table && l.active && l.counterparty == counterparty && l.currency == currency
  }

  /** The selection class by class: a row for the counterparty and the currency, or else one for the
      counterparty, or else one for the currency, or else one for everything; in its class the lowest
      id. */
  lemma SelectionByClass(table: seq<DealLimit>, cp: string, ccy: string, b: DealLimit)
    requires IdsIncreasing(table)
    ensures LimitFor(table, cp, ccy) == Some(b) <==>
              && b in table && b.active
              && (|| (b.counterparty == Some(cp) && b.currency == Some(ccy))
                  || (b.counterparty == Some(cp) && b.currency == None && !Names(table, Some(cp), Some(ccy)))
                  || (b.counterparty == None && b.currency == Some(ccy)
                      && !Names(table, Some(cp), Some(ccy)) && !Names(table, Some(cp), None))
                  || (b.counterparty == None && b.currency == None && !Names(table, Some(cp), Some(ccy))
                      && !Names(table, Some(cp), None) && !Names(table, None, Some(ccy))))
              && forall l :: l in table && l.active && l.counterparty == b.counterparty && l.currency == b.currency ==>
                   b.id <= l.id
  {
    SelectionIsMostSpecific(table, cp, ccy, b);
  }

  lemma SameIdSameRow(table: seq<DealLimit>, a: DealLimit, b: DealLimit)
    requires IdsIncreasing(table) && a in table && b in table && a.id == b.id
    ensures a == b
  {
    var i :| 0 <= i < |table| && table[i] == a;
    var j :| 0 <= j < |table| && table[j] == b;
  }

  /** Choosing from the repository's prefiltered rows is choosing from all active ones. */
  lemma PrefilterIsHarmless(table: seq<DealLimit>, cp: string, ccy: string)
    ensures LimitFor(table, cp, ccy) == FindBestLimit(Filter(table, (l: DealLimit) => l.active), cp, ccy)
  {
    var listed := (l: DealLimit) => l.active && AppliesTo(l, cp);
    var active := (l: DealLimit) => l.active;
    var q := (l: DealLimit) => Matches(l, cp, ccy);
    var both := (l: DealLimit) => l.active && Matches(l, cp, ccy);
    FilterTwice(table, listed, q, both);
    FilterTwice(table, active, q, both);
  }

  // ----- the check

  datatype LimitIssue = BuySide | SellSide

  predicate Within(table: seq<DealLimit>, cp: string, ccy: string, amount: int) {
    match LimitFor(table, cp, ccy)
    case None => true
    case Some(l) => amount <= l.maxAmount
  }

  /** None where the service raises InvalidOperation from quantize. */
  function LimitIssues(table: seq<DealLimit>, t: Terms): Option<seq<LimitIssue>> {
    if ListActiveLimits(table, t.counterparty) == [] then Some([])
    else
      match CounterAmount(t.amount, t.rate)
      case None => None
      case Some(counter) =>
        var buyOk := Within(table, t.counterparty, t.buy, t.amount);
        var sellOk := Within(table, t.counterparty, t.sell, counter);
        Some(if buyOk && sellOk then []
             else if sellOk then [BuySide]
             else if buyOk then [SellSide]
             else [BuySide, SellSide])
  }

  method Check(table: seq<DealLimit>, t: Terms) returns (r: Option<seq<LimitIssue>>)
    ensures r == LimitIssues(table, t)
  {
    var limits := ListActiveLimits(table, t.counterparty);
    if limits == [] {
      return Some([]);
    }
    var issues: seq<LimitIssue> := [];
    var counter := CounterAmount(t.amount, t.rate);
    if counter.None? {
      return None;
    }
    var buyLimit := FindBestLimit(limits, t.counterparty, t.buy);
    if buyLimit.Some? && t.amount > buyLimit.value.maxAmount {
      issues := issues + [BuySide];
    }
    var sellLimit := FindBestLimit(limits, t.counterparty, t.sell);
    if sellLimit.Some? && counter.value > sellLimit.value.maxAmount {
      issues := issues + [SellSide];
    }
    assert issues == LimitIssues(table, t).value;
    return Some(issues);
  }

  lemma NoRowsNoLimit(table: seq<DealLimit>, cp: string, ccy: string)
    requires ListActiveLimits(table, cp) == []
    ensures LimitFor(table, cp, ccy) == None
  {
  }

  /** The check passes exactly when both legs, the counter one computed exactly, are within the
      limit for their currency; only an uncomputable counter amount under some limit can also
      stop it. */
  lemma PassesIffBothLegsWithin(table: seq<DealLimit>, t: Terms)
    requires t.amount >= 0 && t.rate >= 0
    requires forall l :: l in table ==> FitsNumeric(l.maxAmount)
    ensures LimitIssues(table, t) == Some([]) <==>
              && Within(table, t.counterparty, t.buy, t.amount)
              && Within(table, t.counterparty, t.sell, HalfUp(t.amount * t.rate))
              && (ListActiveLimits(table, t.counterparty) == [] || CounterAmount(t.amount, t.rate).Some?)
  {
    if ListActiveLimits(table, t.counterparty) == [] {
      NoRowsNoLimit(table, t.counterparty, t.buy);
      NoRowsNoLimit(table, t.counterparty, t.sell);
    } else {
      var sell := LimitFor(table, t.counterparty, t.sell);
      if sell.Some? {
        LimitComesFromTable(table, t.counterparty, t.sell);
        LimitDecisionIsExact(t.amount, t.rate, sell.value.maxAmount);
      }
    }
  }

  /** Which leg is over which limit: a leg equal to its limit is not. */
  lemma IssuesIff(table: seq<DealLimit>, t: Terms)
    requires LimitIssues(table, t).Some?
    ensures BuySide in LimitIssues(table, t).value <==>
              exists l :: LimitFor(table, t.counterparty, t.buy) == Some(l) && t.amount > l.maxAmount
    ensures SellSide in LimitIssues(table, t).value <==>
              exists l, c :: && LimitFor(table, t.counterparty, t.sell) == Some(l)
                             && CounterAmount(t.amount, t.rate) == Some(c) && c > l.maxAmount
  {
    if ListActiveLimits(table, t.counterparty) == [] {
      NoRowsNoLimit(table, t.counterparty, t.buy);
      NoRowsNoLimit(table, t.counterparty, t.sell);
    }
  }

  /** A limit for every counterparty and currency binds a deal that no other active limit concerns: the
      check passes exactly when neither leg is above it. */
  lemma HouseLimitBinds(table: seq<DealLimit>, t: Terms, l: DealLimit)
    requires IdsIncreasing(table) && t.amount >= 0 && t.rate >= 0
    requires forall x :: x in table ==> FitsNumeric(x.maxAmount)
    requires l in table && l.active && l.counterparty == None && l.currency == None
    requires forall x :: x in table && x.active && x != l ==>
               || (x.counterparty.Some? && x.counterparty.value != t.counterparty)
               || (x.currency.Some? && x.currency.value != t.buy && x.currency.value != t.sell)
    ensures LimitIssues(table, t) == Some([]) <==>
              && t.amount <= l.maxAmount && HalfUp(t.amount * t.rate) <= l.maxAmount
              && CounterAmount(t.amount, t.rate).Some?
  {
    SelectionByClass(table, t.counterparty, t.buy, l);
    SelectionByClass(table, t.counterparty, t.sell, l);
    PassesIffBothLegsWithin(table, t);
    FilterMembers(table, (x: DealLimit) => x.active && AppliesTo(x, t.counterparty));
    assert l in ListActiveLimits(table, t.counterparty);
  }

  lemma LimitComesFromTable(table: seq<DealLimit>, cp: string, ccy: string)
    requires LimitFor(table, cp, ccy).Some?
    ensures LimitFor(table, cp, ccy).value in table
  {
    var p := (l: DealLimit) => l.active && AppliesTo(l, cp);
    var q := (l: DealLimit) => Matches(l, cp, ccy);
    FilterMembers(table, p);
    FilterMembers(Filter(table, p), q);
    FirstMaxMember(Filter(Filter(table, p), q), cp, ccy);
  }

  lemma {:induction false} FirstMaxMember(matched: seq<DealLimit>, cp: string, ccy: string)
    requires matched != []
    ensures FirstMax(matched, cp, ccy) in matched
  {
    if |matched| > 1 {
      FirstMaxMember(matched[..|matched| - 1], cp, ccy);
    }
  }

  /** Lowering amount or rate never introduces a limit issue, whatever issues there already are, nor
      an error. */
  lemma LoweringKeepsWithinLimits(table: seq<DealLimit>, t: Terms, amount: int, rate: int)
    requires 0 <= amount <= t.amount && 0 <= rate <= t.rate
    requires LimitIssues(table, t).Some?
    ensures var lowered := LimitIssues(table, t.(amount := amount, rate := rate));
      lowered.Some? && forall issue :: issue in lowered.value ==> issue in LimitIssues(table, t).value
  {
    if CounterAmount(t.amount, t.rate).Some? {
      CounterMonotone(t.amount, t.rate, amount, rate);
    }
  }
}
