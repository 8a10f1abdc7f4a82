/** Open FX exposure per currency: the fold over query rows, the sum over the book it stands for,
    and what every lifecycle step does to it. Amounts are in hundredths. */
module Exposure {
  import opened Domain
  import opened Money
  import opened PositionClient
  import opened Lifecycle
  import opened Invariants
  import opened Runs

  datatype Row = Row(currency: string, amount: int, direction: Direction)

  function Signed(r: Row): int {
    if r.direction.In? then r.amount else -r.amount
  }

  /** The signed sum of the rows in one currency. */
  function SignedSum(rows: seq<Row>, ccy: string): int {
    if rows == [] then 0
    else
      var last := rows[|rows| - 1];
      SignedSum(rows[..|rows| - 1], ccy) + if last.currency == ccy then Signed(last) else 0
  }

  predicate Mentions(rows: seq<Row>, ccy: string) {
    exists i :: 0 <= i < |rows| && rows[i].currency == ccy
  }

  /** The dictionary holds exactly the currencies of the rows, each with its signed sum. */
  method OpenExposureByCurrency(rows: seq<Row>) returns (exposure: map<string, int>)
    ensures forall ccy :: ccy in exposure <==> Mentions(rows, ccy)
    ensures forall ccy :: ccy in exposure ==> exposure[ccy] == SignedSum(rows, ccy)
  {
    exposure := map[];
    for i := 0 to |rows|
      invariant forall ccy :: ccy in exposure <==> Mentions(rows[..i], ccy)
      invariant forall ccy :: SignedSum(rows[..i], ccy) == if ccy in exposure then exposure[ccy] else 0
    {
      var row := rows[i];
      assert rows[..i + 1] == rows[..i] + [row];
      var sum := (if row.currency in exposure then exposure[row.currency] else 0) + Signed(row);
      exposure := exposure[row.currency := sum];
      forall ccy
        ensures Mentions(rows[..i + 1], ccy) <==> Mentions(rows[..i], ccy) || row.currency == ccy
      {
        if Mentions(rows[..i], ccy) {
          var j :| 0 <= j < i && rows[..i][j].currency == ccy;
          assert rows[..i + 1][j].currency == ccy;
        }
        assert rows[..i + 1][i] == row;
      }
    }
    assert rows[..|rows|] == rows;
  }

  // ----- the order of the rows is irrelevant

  lemma {:induction false} SumConcat(a: seq<Row>, b: seq<Row>, ccy: string)
    ensures SignedSum(a + b, ccy) == SignedSum(a, ccy) + SignedSum(b, ccy)
  {
    if b == [] {
      assert a + b == a;
    } else {
      var front := b[..|b| - 1];
      assert (a + b)[..|a + b| - 1] == a + front;
      SumConcat(a, front, ccy);
    }
  }

  lemma RemoveAt(rows: seq<Row>, j: nat)
    requires j < |rows|
    ensures multiset(rows[..j] + rows[j + 1..]) == multiset(rows) - multiset{rows[j]}
  {
    assert rows == rows[..j] + [rows[j]] + rows[j + 1..];
  }

  lemma SumOfOne(row: Row, ccy: string)
    ensures SignedSum([row], ccy) == if row.currency == ccy then Signed(row) else 0
  {
    assert [row][..0] == [];
  }

  lemma SumWithout(rows: seq<Row>, j: nat, ccy: string)
    requires j < |rows|
    ensures SignedSum(rows, ccy) ==
              SignedSum(rows[..j] + rows[j + 1..], ccy) + if rows[j].currency == ccy then Signed(rows[j]) else 0
  {
    var head, row, tail := rows[..j], [rows[j]], rows[j + 1..];
    assert rows == head + row + tail;
    SumConcat(head + row, tail, ccy);
    SumConcat(head, row, ccy);
    SumConcat(head, tail, ccy);
    SumOfOne(rows[j], ccy);
  }

  /** Every order in which the database returns the rows gives the same sums. */
  lemma {:induction false} SumIgnoresOrder(a: seq<Row>, b: seq<Row>, ccy: string)
    requires multiset(a) == multiset(b)
    ensures SignedSum(a, ccy) == SignedSum(b, ccy)
  {
    if a == [] {
      assert |multiset(b)| == 0;
      assert b == [];
    } else {
      var front, last := a[..|a| - 1], a[|a| - 1];
      assert last in multiset(a);
      assert last in multiset(b);
      var j :| 0 <= j < |b| && b[j] == last;
      var rest := b[..j] + b[j + 1..];
      RemoveAt(a, |a| - 1);
      RemoveAt(b, j);
      assert a[..|a| - 1] + a[|a|..] == front;
      SumIgnoresOrder(front, rest, ccy);
      SumWithout(a, |a| - 1, ccy);
      SumWithout(b, j, ccy);
    }
  }

  // ----- the book

  predicate IsOpen(state: DealState) {
    state.Draft? || state.Waiting? || state.Approved?
  }

  function PaymentRowsOf(payments: seq<Payment>): seq<Row> {
    seq(|payments|, i requires 0 <= i < |payments| =>
      Row(payments[i].currency, payments[i].amount, payments[i].direction))
  }

  function OpenRows(d: Deal): seq<Row> {
    if IsOpen(d.state) then PaymentRowsOf(d.payments) else []
  }

  ghost function Pick(ids: set<DealId>): (id: DealId)
    requires ids != {}
    ensures id in ids
  {
    var id :| id in ids;
    id
  }

  /** The joined rows of all open deals, in some order. */
  ghost function BookRows(deals: map<DealId, Deal>): seq<Row>
    decreases deals.Keys
  {
    if deals == map[] then []
    else
      var id := Pick(deals.Keys);
      BookRows(deals - {id}) + OpenRows(deals[id])
  }

  ghost function BookExposure(deals: map<DealId, Deal>, ccy: string): int {
    SignedSum(BookRows(deals), ccy)
  }

  lemma {:induction false} ExposureWithout(deals: map<DealId, Deal>, id: DealId, ccy: string)
    requires id in deals
    ensures BookExposure(deals, ccy) == BookExposure(deals - {id}, ccy) + SignedSum(OpenRows(deals[id]), ccy)
    decreases deals.Keys
  {
    var first := Pick(deals.Keys);
    SumConcat(BookRows(deals - {first}), OpenRows(deals[first]), ccy);
    if first != id {
      ExposureWithout(deals - {first}, id, ccy);
      ExposureWithout(deals - {id}, first, ccy);
      assert deals - {first} - {id} == deals - {id} - {first};
    }
  }

  lemma ExposureAfterWrite(deals: map<DealId, Deal>, id: DealId, d: Deal, ccy: string)
    ensures BookExposure(deals[id := d], ccy) ==
              BookExposure(deals, ccy) + SignedSum(OpenRows(d), ccy)
              - if id in deals then SignedSum(OpenRows(deals[id]), ccy) else 0
  {
    ExposureWithout(deals[id := d], id, ccy);
    assert deals[id := d] - {id} == deals - {id};
    if id in deals {
      ExposureWithout(deals, id, ccy);
    } else {
      assert deals - {id} == deals;
    }
  }

  // ----- the query

  /** One row of the payment table. */
  datatype PaymentRow = PaymentRow(deal: DealId, row: Row)

  /** Each payment joined with its deal, kept when the deal exists and is open. */
  function Joined(table: seq<PaymentRow>, deals: map<DealId, Deal>): seq<Row> {
    if table == [] then []
    else
      var last := table[|table| - 1];
      Joined(table[..|table| - 1], deals) +
      if last.deal in deals && IsOpen(deals[last.deal].state) then [last.row] else []
  }

  function RowsOfDeal(table: seq<PaymentRow>, id: DealId): seq<Row> {
    if table == [] then []
    else
      var last := table[|table| - 1];
      RowsOfDeal(table[..|table| - 1], id) + if last.deal == id then [last.row] else []
  }

  /** The payment table holds the payments of every deal, in any order and mixed with one another. */
  ghost predicate TableHolds(table: seq<PaymentRow>, deals: map<DealId, Deal>) {
    forall id :: id in deals ==> multiset(RowsOfDeal(table, id)) == multiset(PaymentRowsOf(deals[id].payments))
  }

  /** rows is what the query returns: the joined rows, in the order the database chooses. */
  ghost predicate QueryResult(rows: seq<Row>, table: seq<PaymentRow>, deals: map<DealId, Deal>) {
    multiset(rows) == multiset(Joined(table, deals))
  }

  lemma {:induction false} JoinedWithout(table: seq<PaymentRow>, deals: map<DealId, Deal>, id: DealId, ccy: string)
    requires id in deals
    ensures SignedSum(Joined(table, deals), ccy) ==
              SignedSum(Joined(table, deals - {id}), ccy) +
              if IsOpen(deals[id].state) then SignedSum(RowsOfDeal(table, id), ccy) else 0
  {
    if table != [] {
      var front, last := table[..|table| - 1], table[|table| - 1];
      JoinedWithout(front, deals, id, ccy);
      AppendIf(Joined(front, deals), last.row, last.deal in deals && IsOpen(deals[last.deal].state), ccy);
      AppendIf(Joined(front, deals - {id}), last.row,
               last.deal in deals - {id} && IsOpen(deals[last.deal].state), ccy);
      AppendIf(RowsOfDeal(front, id), last.row, last.deal == id, ccy);
    }
  }

  lemma AppendIf(rows: seq<Row>, row: Row, keep: bool, ccy: string)
    ensures SignedSum(rows + if keep then [row] else [], ccy) ==
              SignedSum(rows, ccy) + if keep && row.currency == ccy then Signed(row) else 0
  {
    if keep {
      assert (rows + [row])[..|rows|] == rows;
    } else {
      assert rows + [] == rows;
    }
  }

  lemma {:induction false} NothingJoined(table: seq<PaymentRow>)
    ensures Joined(table, map[]) == []
  {
    if table != [] {
      NothingJoined(table[..|table| - 1]);
    }
  }

  lemma {:induction false} JoinGivesBookExposure(table: seq<PaymentRow>, deals: map<DealId, Deal>, ccy: string)
    requires TableHolds(table, deals)
    ensures SignedSum(Joined(table, deals), ccy) == BookExposure(deals, ccy)
    decreases deals.Keys
  {
    if deals == map[] {
      NothingJoined(table);
    } else {
      var id :| id in deals;
      JoinGivesBookExposure(table, deals - {id}, ccy);
      JoinedWithout(table, deals, id, ccy);
      ExposureWithout(deals, id, ccy);
      SumIgnoresOrder(RowsOfDeal(table, id), PaymentRowsOf(deals[id].payments), ccy);
    }
  }

  /** Whatever the order of the payment table and of the query's rows, their signed sums are the
      exposure of the book: the payments of the open deals and no others, each once. */
  lemma QueryGivesBookExposure(rows: seq<Row>, table: seq<PaymentRow>, deals: map<DealId, Deal>, ccy: string)
    requires TableHolds(table, deals) && QueryResult(rows, table, deals)
    ensures SignedSum(rows, ccy) == BookExposure(deals, ccy)
  {
    SumIgnoresOrder(rows, Joined(table, deals), ccy);
    JoinGivesBookExposure(table, deals, ccy);
  }

  // ----- what a step does to the exposure

  /** What a deal's payments add up to in one currency. */
  function PaymentSum(d: Deal, ccy: string): int {
    SignedSum(PaymentRowsOf(d.payments), ccy)
  }

  function PaymentSumAt(s: Store, id: DealId, ccy: string): int {
    if id in s.deals then PaymentSum(s.deals[id], ccy) else 0
  }

  /** By how much an event changes the exposure in one currency. */
  function Change(e: Event, before: int, after: int): int {
    match e
    case Approval(sent) => if sent then -before else 0
    case Rejection => -before
    case Reopening => before
    case Cancellation => -before
    case Edit => -before
    case Checked(passed) => if passed then after - before else 0
    case NoWrite => 0
    case Creation => 0
    case SubmitRefused => 0
    case Submission => 0
    case ReportLogged => 0
  }

  lemma OpenSum(d: Deal, ccy: string)
    ensures SignedSum(OpenRows(d), ccy) == if IsOpen(d.state) then PaymentSum(d, ccy) else 0
  {
  }

  lemma ChangeOfOpenSum(d: Deal, d': Deal, e: Event, ccy: string)
    requires Moves(Some(d.state), e, Some(d'.state))
    requires e.Edit? ==> d'.payments == []
    requires e.Edit? || e == Checked(true) || d'.payments == d.payments
    ensures SignedSum(OpenRows(d'), ccy) - SignedSum(OpenRows(d), ccy) ==
              Change(e, PaymentSum(d, ccy), PaymentSum(d', ccy))
  {
    OpenSum(d, ccy);
    OpenSum(d', ccy);
  }

  /** The exposure moves with the one deal a step touches. */
  lemma LocalChange(s: Store, id: DealId, o: Outcome, ccy: string)
    requires Local(s, id, o) && Moves(StateOf(s, id), o.event, StateOf(o.store, id))
    requires o.event.Creation? || o.event.Edit? ==> id in o.store.deals && o.store.deals[id].payments == []
    requires o.event == Checked(false) && id in s.deals ==> o.store.deals[id].payments == s.deals[id].payments
    ensures BookExposure(o.store.deals, ccy) == BookExposure(s.deals, ccy) +
              Change(o.event, PaymentSumAt(s, id, ccy), PaymentSumAt(o.store, id, ccy))
  {
    if id in o.store.deals {
      var d' := o.store.deals[id];
      assert o.store.deals == s.deals[id := d'];
      ExposureAfterWrite(s.deals, id, d', ccy);
      if id in s.deals {
        ChangeOfOpenSum(s.deals[id], d', o.event, ccy);
      } else {
        OpenSum(d', ccy);
      }
    } else {
      assert o.store.deals == s.deals;
    }
  }

  lemma PaymentsAfterStep(s: Store, c: Call)
    ensures var id, o := c.request.id, Step(s, c);
      && (o.event.Creation? || o.event.Edit? ==> id in o.store.deals && o.store.deals[id].payments == [])
      && (o.event == Checked(false) ==>
            id in s.deals && id in o.store.deals && o.store.deals[id].payments == s.deals[id].payments)
  {
  }

  /** Exposure is conserved by every step: it moves by exactly the signed sum of the payments that
      leave or enter the open book. Submission, a failed hand-off and a refusal move nothing. */
  lemma StepConservesExposure(s: Store, c: Call, ccy: string)
    ensures var id, o := c.request.id, Step(s, c);
      BookExposure(o.store.deals, ccy) == BookExposure(s.deals, ccy) +
        Change(o.event, PaymentSumAt(s, id, ccy), PaymentSumAt(o.store, id, ccy))
  {
    StepIsLocal(s, c);
    PaymentsAfterStep(s, c);
    LocalChange(s, c.request.id, Step(s, c), ccy);
  }

  /** The position a calculated pair opens: a BUY brings in the amount and pays out the counter
      amount, a SELL the reverse, and no other currency is touched. */
  function PairPosition(t: Terms, ccy: string): int {
    var counter: int := HalfUp(Abs(t.amount * t.rate));
    if ccy == t.buy then (if t.operation.Buy? then t.amount else -t.amount)
    else if ccy == t.sell then (if t.operation.Buy? then -counter else counter)
    else 0
  }

  lemma PairOpensPosition(d: Deal, ccy: string)
    requires Pair(d)
    ensures PaymentSum(d, ccy) == PairPosition(d.terms, ccy)
  {
    StoredCounterIsExact(d.terms.amount, d.terms.rate);
    var rows := PaymentRowsOf(d.payments);
    assert rows == [rows[0]] + [rows[1]];
    SumConcat([rows[0]], [rows[1]], ccy);
    SumOfOne(rows[0], ccy);
    SumOfOne(rows[1], ccy);
  }

  /** In every reachable store a deal contributes to the exposure exactly the position its terms open,
      while it is open and has payments, and otherwise nothing. */
  lemma DealContributesItsPosition(calls: seq<Call>, id: DealId, ccy: string)
    requires id in Run(calls).deals
    ensures var d := Run(calls).deals[id];
      SignedSum(OpenRows(d), ccy) == if IsOpen(d.state) && d.payments != [] then PairPosition(d.terms, ccy) else 0
  {
    RunKeepsInv(calls);
    var d := Run(calls).deals[id];
    if d.payments != [] {
      PairOpensPosition(d, ccy);
    }
  }

  lemma LoadOrderKeepsSum(payments: seq<Payment>, swapped: bool, ccy: string)
    ensures SignedSum(PaymentRowsOf(Loaded(payments, swapped)), ccy) == SignedSum(PaymentRowsOf(payments), ccy)
  {
    if swapped && |payments| == 2 {
      var rows := PaymentRowsOf(payments);
      assert rows == [rows[0]] + [rows[1]];
      assert PaymentRowsOf(Loaded(payments, swapped)) == [rows[1]] + [rows[0]];
      SumConcat([rows[0]], [rows[1]], ccy);
      SumConcat([rows[1]], [rows[0]], ccy);
    }
  }

  lemma ApprovalMeansAccepted(s: Store, r: Request)
    requires r.ApproveDeal? && ApproveStep(s, r).event == Approval(true)
    ensures HandsOver(s, r)
    ensures forall i: nat :: i < |Loaded(s.deals[r.id].payments, r.swapped)| ==> Accepted(r.remote, i)
  {
    ApproveIsLocal(s, r);
  }

  /** A successful approve lowers the exposure by exactly the payments the position system
      acknowledged; every one of them was. */
  lemma ApprovalSettlesWhatWasAcknowledged(s: Store, c: Call, ccy: string)
    requires c.request.ApproveDeal? && Step(s, c).event == Approval(true)
    ensures HandsOver(s, c.request)
    ensures var sent := Loaded(s.deals[c.request.id].payments, c.request.swapped);
      && BookExposure(Step(s, c).store.deals, ccy) == BookExposure(s.deals, ccy) - SignedSum(PaymentRowsOf(sent), ccy)
      && forall i: nat :: i < |sent| ==> Accepted(c.request.remote, i)
  {
    ApprovalMeansAccepted(s, c.request);
    StepConservesExposure(s, c, ccy);
    LoadOrderKeepsSum(s.deals[c.request.id].payments, c.request.swapped, ccy);
  }

  // ----- a hand-off that stops part way

  /** How many payments the position system acknowledged. */
  ghost function Handed(remote: Remote): nat {
    if remote.configured && remote.tokenOk then AcceptedPrefix(remote, 2) else 0
  }

  /** What the acknowledged payments add to the position held, and the change of the open exposure:
      by so much the projected position of the currency moves in an approve. */
  ghost function Drift(s: Store, c: Call, ccy: string): int
    requires HandsOver(s, c.request)
  {
    var sent := Loaded(s.deals[c.request.id].payments, c.request.swapped);
    var k := if Handed(c.request.remote) <= |sent| then Handed(c.request.remote) else |sent|;
    SignedSum(PaymentRowsOf(sent[..k]), ccy) + BookExposure(Step(s, c).store.deals, ccy) - BookExposure(s.deals, ccy)
  }

  lemma ExposureAfterHandOff(s: Store, c: Call, ccy: string)
    requires HandsOver(s, c.request)
    ensures var sent := Loaded(s.deals[c.request.id].payments, c.request.swapped);
      BookExposure(Step(s, c).store.deals, ccy) == BookExposure(s.deals, ccy) -
        if SendSucceeds(c.request.remote, sent) then SignedSum(PaymentRowsOf(sent), ccy) else 0
  {
    ApproveIsLocal(s, c.request);
    StepConservesExposure(s, c, ccy);
    LoadOrderKeepsSum(s.deals[c.request.id].payments, c.request.swapped, ccy);
  }

  lemma SendSucceedsIffAllHanded(remote: Remote, payments: seq<Payment>)
    requires |payments| == 2
    ensures Handed(remote) <= 2
    ensures SendSucceeds(remote, payments) <==> Handed(remote) == 2
  {
    PrefixIsMaximal(remote, 2);
  }

  /** A failed hand-off leaves every payment in the open exposure, so the ones acknowledged before it
      stopped are counted twice: the projected position is off by exactly them. A successful one moves
      nothing. */
  lemma PartialHandOffDrifts(calls: seq<Call>, c: Call, ccy: string)
    requires HandsOver(Run(calls), c.request)
    ensures var s := Run(calls);
      var sent := Loaded(s.deals[c.request.id].payments, c.request.swapped);
      && |sent| == 2 && Handed(c.request.remote) <= 2
      && Drift(s, c, ccy) ==
           if SendSucceeds(c.request.remote, sent) then 0
           else SignedSum(PaymentRowsOf(sent[..Handed(c.request.remote)]), ccy)
  {
    SentIsTwo(calls, c.request);
    var sent := Loaded(Run(calls).deals[c.request.id].payments, c.request.swapped);
    SendSucceedsIffAllHanded(c.request.remote, sent);
    ExposureAfterHandOff(Run(calls), c, ccy);
    assert sent[..2] == sent;
  }

  lemma SentIsTwo(calls: seq<Call>, r: Request)
    requires HandsOver(Run(calls), r)
    ensures |Loaded(Run(calls).deals[r.id].payments, r.swapped)| == 2
  {
    RunKeepsInv(calls);
  }

  lemma SumOfFirst(payments: seq<Payment>, ccy: string)
    requires payments != []
    ensures SignedSum(PaymentRowsOf(payments[..1]), ccy) ==
              if payments[0].currency != ccy then 0
              else if payments[0].direction.In? then payments[0].amount else -payments[0].amount
  {
    var p := payments[0];
    assert PaymentRowsOf(payments[..1]) == [Row(p.currency, p.amount, p.direction)];
    SumOfOne(Row(p.currency, p.amount, p.direction), ccy);
  }

  /** In every reachable store an approve keeps the projected position of every currency exactly when
      the hand-off succeeds, or nothing was acknowledged, or the one payment acknowledged was of zero. */
  lemma ProjectionKeptIff(calls: seq<Call>, c: Call)
    requires HandsOver(Run(calls), c.request)
    ensures var sent := Loaded(Run(calls).deals[c.request.id].payments, c.request.swapped);
      && |sent| == 2
      && ((forall ccy :: Drift(Run(calls), c, ccy) == 0) <==>
            SendSucceeds(c.request.remote, sent) || Handed(c.request.remote) == 0 || sent[0].amount == 0)
  {
    var sent := Loaded(Run(calls).deals[c.request.id].payments, c.request.swapped);
    PartialHandOffDrifts(calls, c, "");
    SendSucceedsIffAllHanded(c.request.remote, sent);
    forall ccy
      ensures Drift(Run(calls), c, ccy) ==
                if SendSucceeds(c.request.remote, sent) then 0
                else SignedSum(PaymentRowsOf(sent[..Handed(c.request.remote)]), ccy)
    {
      PartialHandOffDrifts(calls, c, ccy);
    }
    forall ccy {
      SumOfFirst(sent, ccy);
    }
    if !SendSucceeds(c.request.remote, sent) && Handed(c.request.remote) == 1 {
      assert Drift(Run(calls), c, sent[0].currency) == SignedSum(PaymentRowsOf(sent[..1]), sent[0].currency);
    }
  }

  lemma RejectionThenReopening(s: Store, id: DealId, o: Outcome, o': Outcome, ccy: string)
    requires Local(s, id, o) && Moves(StateOf(s, id), o.event, StateOf(o.store, id)) && o.event == Rejection
    requires Local(o.store, id, o') && Moves(StateOf(o.store, id), o'.event, StateOf(o'.store, id))
    requires o'.event == Reopening
    ensures BookExposure(o'.store.deals, ccy) == BookExposure(s.deals, ccy)
  {
    LocalChange(s, id, o, ccy);
    LocalChange(o.store, id, o', ccy);
  }

  /** Rejecting a deal and taking it back for editing restores the exposure. */
  lemma RejectThenReopenRestores(s: Store, c: Call, s': Store, c': Call, ccy: string)
    requires Step(s, c).event == Rejection && s' == Step(s, c).store
    requires Step(s', c').event == Reopening && c'.request.id == c.request.id
    ensures BookExposure(Step(s', c').store.deals, ccy) == BookExposure(s.deals, ccy)
  {
    StepIsLocal(s, c);
    StepIsLocal(s', c');
    RejectionThenReopening(s, c.request.id, Step(s, c), Step(s', c'), ccy);
  }

  // ----- positions overview

  datatype AccountPosition = AccountPosition(currency: string, position: Option<int>)

  datatype CurrencyPosition = CurrencyPosition(currency: string, current: int, open: int, projected: int)

  function Held(accounts: seq<AccountPosition>, ccy: string): int {
    if accounts == [] then 0
    else
      var last := accounts[|accounts| - 1];
      Held(accounts[..|accounts| - 1], ccy) +
      if last.currency == ccy && last.position.Some? then last.position.value else 0
  }

  /** One account adds its position to its own currency, nothing when it has none, and nothing to any
      other. */
  lemma HeldOfOne(ccy: string, position: Option<int>, other: string)
    ensures position.Some? ==> Held([AccountPosition(ccy, position)], ccy) == position.value
    ensures position.None? ==> Held([AccountPosition(ccy, position)], ccy) == 0
    ensures other != ccy ==> Held([AccountPosition(ccy, position)], other) == 0
  {
    assert Held([AccountPosition(ccy, position)][..0], ccy) == 0;
    assert Held([AccountPosition(ccy, position)][..0], other) == 0;
  }

  lemma {:induction false} HeldConcat(a: seq<AccountPosition>, b: seq<AccountPosition>, ccy: string)
    ensures Held(a + b, ccy) == Held(a, ccy) + Held(b, ccy)
  {
    if b == [] {
      assert a + b == a;
    } else {
      assert (a + b)[..|a + b| - 1] == a + b[..|b| - 1];
      HeldConcat(a, b[..|b| - 1], ccy);
    }
  }

  ghost predicate Holds(accounts: seq<AccountPosition>, ccy: string) {
    exists i :: 0 <= i < |accounts| && accounts[i].currency == ccy
  }

  lemma HoldsOneMore(accounts: seq<AccountPosition>, i: nat, ccy: string)
    requires i < |accounts|
    ensures Holds(accounts[..i + 1], ccy) <==> Holds(accounts[..i], ccy) || accounts[i].currency == ccy
  {
    if Holds(accounts[..i], ccy) {
      var j :| 0 <= j < i && accounts[..i][j].currency == ccy;
      assert accounts[..i + 1][j].currency == ccy;
    }
    assert accounts[..i + 1][i] == accounts[i];
  }

  lemma HeldOneMore(accounts: seq<AccountPosition>, i: nat, ccy: string)
    requires i < |accounts|
    ensures Held(accounts[..i + 1], ccy) == Held(accounts[..i], ccy) +
              if accounts[i].currency == ccy && accounts[i].position.Some? then accounts[i].position.value else 0
  {
    assert accounts[..i + 1][..i] == accounts[..i];
  }

  /** What the accounts hold per currency; an account without a position counts zero. */
  method TotalsByCurrency(accounts: seq<AccountPosition>) returns (totals: map<string, int>)
    ensures forall ccy :: ccy in totals <==> Holds(accounts, ccy)
    ensures forall ccy :: Held(accounts, ccy) == if ccy in totals then totals[ccy] else 0
  {
    totals := map[];
    for i := 0 to |accounts|
      invariant forall ccy :: ccy in totals <==> Holds(accounts[..i], ccy)
      invariant forall ccy :: Held(accounts[..i], ccy) == if ccy in totals then totals[ccy] else 0
    {
      forall ccy
        ensures Holds(accounts[..i + 1], ccy) <==> Holds(accounts[..i], ccy) || accounts[i].currency == ccy
      {
        HoldsOneMore(accounts, i, ccy);
      }
      forall ccy {
        HeldOneMore(accounts, i, ccy);
      }
      var account := accounts[i];
      if account.currency !in totals {
        totals := totals[account.currency := 0];
      }
      var held := if account.position.Some? then account.position.value else 0;
      totals := totals[account.currency := totals[account.currency] + held];
    }
    assert accounts[..|accounts|] == accounts;
  }

  /** Lexicographic order of strings. */
  predicate Below(a: string, b: string) {
    b != [] && (a == [] || a[0] < b[0] || (a[0] == b[0] && Below(a[1..], b[1..])))
  }

  lemma {:induction false} BelowIsTotal(a: string, b: string)
    ensures a == b || Below(a, b) || Below(b, a)
    ensures Below(a, b) ==> a != b
  {
    if a != [] && b != [] && a[0] == b[0] {
      BelowIsTotal(a[1..], b[1..]);
      assert a == [a[0]] + a[1..] && b == [b[0]] + b[1..];
    }
  }

  lemma {:induction false} BelowIsTransitive(a: string, b: string, c: string)
    requires Below(a, b) && Below(b, c)
    ensures Below(a, c)
  {
    if a != [] && a[0] == b[0] == c[0] {
      BelowIsTransitive(a[1..], b[1..], c[1..]);
    }
  }

  /** a is a proper beginning of b, or at the first place where they differ a has the smaller character. */
  lemma {:induction false} BelowIff(a: string, b: string)
    ensures Below(a, b) <==>
              exists k :: && 0 <= k <= |a| && k < |b| && a[..k] == b[..k]
                          && (k == |a| || a[k] < b[k])
  {
    if Below(a, b) {
      var k := BelowAt(a, b);
    }
    if k :| 0 <= k <= |a| && k < |b| && a[..k] == b[..k] && (k == |a| || a[k] < b[k]) {
      BelowFrom(a, b, k);
    }
  }

  lemma {:induction false} BelowAt(a: string, b: string) returns (k: nat)
    requires Below(a, b)
    ensures k <= |a| && k < |b| && a[..k] == b[..k] && (k == |a| || a[k] < b[k])
  {
    if a == [] || a[0] < b[0] {
      k := 0;
    } else {
      var rest := BelowAt(a[1..], b[1..]);
      k := rest + 1;
      assert a[..k] == [a[0]] + a[1..][..rest] && b[..k] == [b[0]] + b[1..][..rest];
    }
  }

  lemma {:induction false} BelowFrom(a: string, b: string, k: nat)
    requires k <= |a| && k < |b| && a[..k] == b[..k] && (k == |a| || a[k] < b[k])
    ensures Below(a, b)
  {
    if k > 0 {
      assert a[0] == a[..k][0] == b[..k][0] == b[0];
      assert a[1..][..k - 1] == a[..k][1..] == b[..k][1..] == b[1..][..k - 1];
      BelowFrom(a[1..], b[1..], k - 1);
    }
  }

  /** Strictly ascending, so without repetition. */
  ghost predicate Ascending(codes: seq<string>) {
    forall i, j :: 0 <= i < j < |codes| ==> Below(codes[i], codes[j])
  }

  /** Where a new code belongs: everything before it is smaller and everything from there on larger. */
  method Place(codes: seq<string>, code: string) returns (i: nat)
    requires Ascending(codes) && code !in codes
    ensures i <= |codes|
    ensures forall j :: 0 <= j < i ==> Below(codes[j], code)
    ensures forall j :: i <= j < |codes| ==> Below(code, codes[j])
  {
    i := 0;
    while i < |codes| && Below(codes[i], code)
      invariant i <= |codes|
      invariant forall j :: 0 <= j < i ==> Below(codes[j], code)
    {
      i := i + 1;
    }
    if i < |codes| {
      BelowIsTotal(codes[i], code);
      forall j | i < j < |codes|
        ensures Below(code, codes[j])
      {
        BelowIsTransitive(code, codes[i], codes[j]);
      }
    }
  }

  lemma InsertionMembers(codes: seq<string>, i: nat, code: string)
    requires i <= |codes|
    ensures forall x :: x in codes[..i] + [code] + codes[i..] <==> x in codes || x == code
  {
    assert codes == codes[..i] + codes[i..];
  }

  method Sorted(keys: set<string>) returns (codes: seq<string>)
    ensures Ascending(codes)
    ensures forall k :: k in codes <==> k in keys
  {
    codes := [];
    var pending := keys;
    while pending != {}
      invariant pending <= keys
      invariant Ascending(codes)
      invariant forall k :: k in codes <==> k in keys - pending
    {
      var k :| k in pending;
      var i := Place(codes, k);
      InsertionMembers(codes, i, k);
      codes := codes[..i] + [k] + codes[i..];
      pending := pending - {k};
    }
  }

  /** Every non-empty currency of an account or of the exposure is listed once, in ascending order, with
      what the accounts hold, the open exposure, and their sum. */
  method PositionsByCurrency(accounts: seq<AccountPosition>, exposure: map<string, int>)
    returns (currencies: seq<CurrencyPosition>)
    ensures forall i, j :: 0 <= i < j < |currencies| ==> Below(currencies[i].currency, currencies[j].currency)
    ensures forall ccy :: Listed(currencies, ccy) <==> ccy != "" && (Holds(accounts, ccy) || ccy in exposure)
    ensures forall i :: 0 <= i < |currencies| ==>
              var ccy := currencies[i].currency;
              && currencies[i].current == Held(accounts, ccy)
              && currencies[i].open == (if ccy in exposure then exposure[ccy] else 0)
              && currencies[i].projected == currencies[i].current + currencies[i].open
  {
    var held := TotalsByCurrency(accounts);
    var totals := WithExposed(held, exposure);
    var codes := Sorted(totals.Keys);
    currencies := Listing(codes, totals, exposure);
  }

  /** Currencies without an account get a total of zero. */
  method WithExposed(held: map<string, int>, exposure: map<string, int>) returns (totals: map<string, int>)
    ensures totals.Keys == held.Keys + exposure.Keys
    ensures forall ccy :: ccy in totals ==> totals[ccy] == if ccy in held then held[ccy] else 0
  {
    totals := held;
    var pending := exposure.Keys;
    while pending != {}
      invariant pending <= exposure.Keys
      invariant totals.Keys == held.Keys + (exposure.Keys - pending)
      invariant forall ccy :: ccy in totals ==> totals[ccy] == if ccy in held then held[ccy] else 0
    {
      var ccy :| ccy in pending;
      if ccy !in totals {
        totals := totals[ccy := 0];
      }
      pending := pending - {ccy};
    }
  }

  /** The currencies of the list, the empty code left out, with their three positions. */
  method Listing(codes: seq<string>, totals: map<string, int>, exposure: map<string, int>)
    returns (currencies: seq<CurrencyPosition>)
    requires Ascending(codes) && forall k :: k in codes ==> k in totals
    ensures forall i, j :: 0 <= i < j < |currencies| ==> Below(currencies[i].currency, currencies[j].currency)
    ensures forall ccy :: Listed(currencies, ccy) <==> ccy != "" && ccy in codes
    ensures forall i :: 0 <= i < |currencies| ==> currencies[i].currency in totals
    ensures forall i :: 0 <= i < |currencies| ==>
              currencies[i] == PositionOf(currencies[i].currency, totals[currencies[i].currency], exposure)
  {
    currencies := [];
    for n := 0 to |codes|
      invariant forall i :: 0 <= i < |currencies| ==> currencies[i].currency in codes[..n]
      invariant forall i, j :: 0 <= i < j < |currencies| ==> Below(currencies[i].currency, currencies[j].currency)
      invariant forall ccy :: Listed(currencies, ccy) <==> ccy != "" && ccy in codes[..n]
      invariant forall i :: 0 <= i < |currencies| ==>
                  currencies[i] == PositionOf(currencies[i].currency, totals[currencies[i].currency], exposure)
    {
      var ccy := codes[n];
      assert codes[..n + 1] == codes[..n] + [ccy];
      if ccy != "" {
        var position := PositionOf(ccy, totals[ccy], exposure);
        ListedOneMore(currencies, position);
        currencies := currencies + [position];
      }
    }
    assert codes[..|codes|] == codes;
  }

  function PositionOf(ccy: string, held: int, exposure: map<string, int>): CurrencyPosition {
    var open := if ccy in exposure then exposure[ccy] else 0;
    CurrencyPosition(ccy, held, open, held + open)
  }

  ghost predicate Listed(currencies: seq<CurrencyPosition>, ccy: string) {
    exists i :: 0 <= i < |currencies| && currencies[i].currency == ccy
  }

  lemma ListedOneMore(currencies: seq<CurrencyPosition>, position: CurrencyPosition)
    ensures forall ccy :: Listed(currencies + [position], ccy) <==> Listed(currencies, ccy) || position.currency == ccy
  {
    forall ccy
      ensures Listed(currencies + [position], ccy) <==> Listed(currencies, ccy) || position.currency == ccy
    {
      if i :| 0 <= i < |currencies| && currencies[i].currency == ccy {
        assert (currencies + [position])[i].currency == ccy;
      }
      assert (currencies + [position])[|currencies|] == position;
    }
  }
}
