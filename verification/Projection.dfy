/** The projected position over whole runs: what the position system was given, deal by deal, and how
    that and the open exposure add up. */
module Projection {
  import opened Domain
  import opened PositionClient
  import opened Lifecycle
  import opened Runs
  import opened HandOffs
  import opened Exposure

  // ----- what one hand-off books

  function RowOf(p: Payload): Row {
    Row(p.currency, p.amount, p.direction)
  }

  /** The rows of the posts that were acknowledged. */
  function Booked(remote: Remote, posts: seq<Post>): seq<Row> {
    if posts == [] then []
    else
      var last := posts[|posts| - 1];
      Booked(remote, posts[..|posts| - 1]) +
      if remote.reply(last.payment, last.attempt).Ack? then [RowOf(last.payload)] else []
  }

  lemma {:induction false} BookedConcat(remote: Remote, a: seq<Post>, b: seq<Post>)
    ensures Booked(remote, a + b) == Booked(remote, a) + Booked(remote, b)
  {
    if b == [] {
      assert a + b == a;
    } else {
      assert (a + b)[..|a + b| - 1] == a + b[..|b| - 1];
      BookedConcat(remote, a, b[..|b| - 1]);
    }
  }

  lemma {:induction false} NothingBookedAt(remote: Remote, id: DealId, d: Deal, payments: seq<Payment>, i: nat, k: nat)
    requires i < |payments|
    requires forall b: nat :: 1 <= b <= k ==> !remote.reply(i, b).Ack?
    ensures Booked(remote, PostsAt(id, d, payments, i, k)) == []
  {
    if k > 0 {
      var front := PostsAt(id, d, payments, i, k - 1);
      assert PostsAt(id, d, payments, i, k)[..|front|] == front;
      NothingBookedAt(remote, id, d, payments, i, k - 1);
    }
  }

  /** Of the attempts at a payment only the last can book it, and does when the payment is accepted. */
  lemma BookedAt(remote: Remote, id: DealId, d: Deal, payments: seq<Payment>, i: nat)
    requires i < |payments|
    ensures Booked(remote, PostsAt(id, d, payments, i, LastAttempt(remote, i))) ==
              if Accepted(remote, i) then PaymentRowsOf([payments[i]]) else []
  {
    AcceptedIffLastAcknowledged(remote, i);
    var k := LastAttempt(remote, i);
    if k > 0 {
      var front := PostsAt(id, d, payments, i, k - 1);
      assert PostsAt(id, d, payments, i, k)[..|front|] == front;
      assert forall b: nat :: 1 <= b <= k - 1 ==> !Decisive(remote.reply(i, b));
      NothingBookedAt(remote, id, d, payments, i, k - 1);
      assert PaymentRowsOf([payments[i]]) == [RowOf(PayloadOf(id, d, payments[i]))];
    }
  }

  /** The acknowledged posts, in order, are exactly the payments before the first that was not accepted. */
  lemma {:induction false} BookedIsPrefix(remote: Remote, id: DealId, d: Deal, payments: seq<Payment>, n: nat)
    requires n <= |payments|
    ensures AcceptedPrefix(remote, n) <= n
    ensures Booked(remote, PostsUpTo(remote, id, d, payments, n)) ==
              PaymentRowsOf(payments[..AcceptedPrefix(remote, n)])
  {
    if n > 0 {
      BookedIsPrefix(remote, id, d, payments, n - 1);
      PrefixOneMore(remote, n);
      if AllAccepted(remote, n - 1) {
        var posts := PostsAt(id, d, payments, n - 1, LastAttempt(remote, n - 1));
        BookedConcat(remote, PostsUpTo(remote, id, d, payments, n - 1), posts);
        BookedAt(remote, id, d, payments, n - 1);
        RowsOneMore(payments, n);
      } else {
        assert PostsUpTo(remote, id, d, payments, n) == PostsUpTo(remote, id, d, payments, n - 1);
      }
    }
  }

  lemma PrefixOneMore(remote: Remote, n: nat)
    requires n > 0
    ensures var k := AcceptedPrefix(remote, n - 1);
      && (AllAccepted(remote, n - 1) <==> k == n - 1)
      && AcceptedPrefix(remote, n) == if k == n - 1 && Accepted(remote, n - 1) then n else k
  {
    PrefixIsMaximal(remote, n - 1);
  }

  lemma RowsOneMore(payments: seq<Payment>, n: nat)
    requires 0 < n <= |payments|
    ensures PaymentRowsOf(payments[..n]) == PaymentRowsOf(payments[..n - 1]) + PaymentRowsOf([payments[n - 1]])
  {
  }

  // ----- what a run books

  /** The rows of the acknowledged deliveries about one deal, in order. */
  function BookedFor(deliveries: seq<Delivery>, id: DealId): seq<Row> {
    if deliveries == [] then []
    else
      var last := deliveries[|deliveries| - 1];
      BookedFor(deliveries[..|deliveries| - 1], id) +
      if last.acknowledged && last.post.payload.deal == id then [RowOf(last.post.payload)] else []
  }

  /** The rows of all acknowledged deliveries: everything the position system has taken on. */
  function BookedInAll(deliveries: seq<Delivery>): seq<Row> {
    if deliveries == [] then []
    else
      var last := deliveries[|deliveries| - 1];
      BookedInAll(deliveries[..|deliveries| - 1]) + if last.acknowledged then [RowOf(last.post.payload)] else []
  }

  lemma {:induction false} BookedForConcat(a: seq<Delivery>, b: seq<Delivery>, id: DealId)
    ensures BookedFor(a + b, id) == BookedFor(a, id) + BookedFor(b, id)
  {
    if b == [] {
      assert a + b == a;
    } else {
      assert (a + b)[..|a + b| - 1] == a + b[..|b| - 1];
      BookedForConcat(a, b[..|b| - 1], id);
    }
  }

  /** Deliveries that are all about one deal. */
  lemma {:induction false} BookedForOne(remote: Remote, posts: seq<Post>, deliveries: seq<Delivery>, id: DealId,
                                        x: DealId)
    requires |posts| == |deliveries|
    requires forall i :: 0 <= i < |posts| ==>
               && deliveries[i].post == posts[i] && posts[i].payload.deal == id
               && deliveries[i].acknowledged == remote.reply(posts[i].payment, posts[i].attempt).Ack?
    ensures BookedFor(deliveries, x) == if x == id then Booked(remote, posts) else []
  {
    if posts != [] {
      BookedForOne(remote, posts[..|posts| - 1], deliveries[..|posts| - 1], id, x);
    }
  }

  /** What a request that hands over books for its deal: the payments it got past. */
  lemma BookedByHandOff(s: Store, r: Request, n: nat, x: DealId)
    requires HandsOver(s, r) && |s.deals[r.id].payments| == 2
    ensures Handed(r.remote) <= 2 == |Loaded(s.deals[r.id].payments, r.swapped)|
    ensures BookedFor(DeliveriesOf(n, s, r), x) ==
              if x != r.id then []
              else PaymentRowsOf(Loaded(s.deals[r.id].payments, r.swapped)[..Handed(r.remote)])
  {
    var d := s.deals[r.id];
    var decided, sent := Decided(d, r.user, Approve, None, Approved), Loaded(d.payments, r.swapped);
    var posts := PostsOf(s, r);
    PrefixIsMaximal(r.remote, 2);
    PostsAreExactly(r.remote, r.id, decided, sent, 2);
    forall i | 0 <= i < |posts|
      ensures posts[i].payload.deal == r.id
    {
      assert Posted(r.remote, r.id, decided, sent, 2, posts[i]);
    }
    BookedForOne(r.remote, posts, DeliveriesOf(n, s, r), r.id, x);
    BookedIsPrefix(r.remote, r.id, decided, sent, 2);
  }

  lemma BookedByOther(s: Store, r: Request, n: nat, x: DealId)
    requires !HandsOver(s, r)
    ensures BookedFor(DeliveriesOf(n, s, r), x) == []
  {
  }

  // ----- deal by deal

  /** rows are the first k payments of the deal, in one of the two orders they can be loaded in. */
  predicate FirstOf(rows: seq<Row>, d: Deal, swapped: bool, k: nat) {
    k <= |Loaded(d.payments, swapped)| && rows == PaymentRowsOf(Loaded(d.payments, swapped)[..k])
  }

  /** What the position system has taken on for a deal: both payments when it is EXECUTED, none or one of
      them when it is APPROVED, and none otherwise. */
  ghost predicate Accounted(rows: seq<Row>, d: Deal) {
    match d.state
    case Executed => |d.payments| == 2 && exists swapped :: FirstOf(rows, d, swapped, 2)
    case Approved => |d.payments| == 2 && exists swapped, k :: k < 2 && FirstOf(rows, d, swapped, k)
    case _ => rows == []
  }

  ghost predicate LedgerOf(rows: seq<Row>, s: Store, id: DealId) {
    if id in s.deals then Accounted(rows, s.deals[id]) else rows == []
  }

  lemma OtherStepKeepsLedger(rows: seq<Row>, s: Store, c: Call, id: DealId)
    requires LedgerOf(rows, s, id)
    requires c.request.id != id || !HandsOver(s, c.request)
    ensures LedgerOf(rows, Step(s, c).store, id)
  {
    StepIsLocal(s, c);
    ApprovalIsHandOff(s, c);
    if id in s.deals {
      SettledStays(rows, s.deals[id], Step(s, c).store.deals[id]);
    }
  }

  lemma SettledStays(rows: seq<Row>, d: Deal, d': Deal)
    requires Accounted(rows, d)
    requires d.state.Approved? || d.state.Executed? ==> d'.state == d.state && d'.payments == d.payments
    requires d'.state.Approved? || d'.state.Executed? ==> d'.state == d.state
    ensures Accounted(rows, d')
  {
    if d.state.Executed? {
      var swapped :| FirstOf(rows, d, swapped, 2);
      assert FirstOf(rows, d', swapped, 2);
    } else if d.state.Approved? {
      var swapped, k :| k < 2 && FirstOf(rows, d, swapped, k);
      assert FirstOf(rows, d', swapped, k);
    }
  }

  lemma HandOffGivesLedger(s: Store, r: Request)
    requires HandsOver(s, r) && |s.deals[r.id].payments| == 2
    ensures Handed(r.remote) <= 2 == |Loaded(s.deals[r.id].payments, r.swapped)|
    ensures LedgerOf(PaymentRowsOf(Loaded(s.deals[r.id].payments, r.swapped)[..Handed(r.remote)]),
                     ApproveStep(s, r).store, r.id)
  {
    SendSucceedsIffAllHanded(r.remote, Loaded(s.deals[r.id].payments, r.swapped));
    var d' := ApproveStep(s, r).store.deals[r.id];
    assert d'.payments == s.deals[r.id].payments;
    assert FirstOf(PaymentRowsOf(Loaded(s.deals[r.id].payments, r.swapped)[..Handed(r.remote)]),
                   d', r.swapped, Handed(r.remote));
  }

  /** What the last call of a run books for a deal. */
  lemma {:induction false} BookedOneMore(calls: seq<Call>, id: DealId)
    requires calls != []
    ensures var front, r := calls[..|calls| - 1], calls[|calls| - 1].request;
      if r.id == id && HandsOver(Run(front), r) then
        && |Run(front).deals[id].payments| == 2
        && Handed(r.remote) <= 2 == |Loaded(Run(front).deals[id].payments, r.swapped)|
        && BookedFor(Deliveries(calls), id) ==
             BookedFor(Deliveries(front), id) +
             PaymentRowsOf(Loaded(Run(front).deals[id].payments, r.swapped)[..Handed(r.remote)])
      else BookedFor(Deliveries(calls), id) == BookedFor(Deliveries(front), id)
  {
    var front, r := calls[..|calls| - 1], calls[|calls| - 1].request;
    BookedForConcat(Deliveries(front), DeliveriesOf(|front|, Run(front), r), id);
    if HandsOver(Run(front), r) {
      HandedOverPair(front, r);
      BookedByHandOff(Run(front), r, |front|, id);
    } else {
      BookedByOther(Run(front), r, |front|, id);
    }
  }

  /** Over every run, for every deal, the position system has taken on both payments exactly once when
      the deal is EXECUTED, none or the first that was handed over when it is APPROVED, and nothing in
      any other state. */
  lemma {:induction false} EveryDealIsAccounted(calls: seq<Call>, id: DealId)
    ensures LedgerOf(BookedFor(Deliveries(calls), id), Run(calls), id)
  {
    if calls != [] {
      var front, last := calls[..|calls| - 1], calls[|calls| - 1];
      EveryDealIsAccounted(front, id);
      BookedOneMore(calls, id);
      if last.request.id == id && HandsOver(Run(front), last.request) {
        var r := last.request;
        var sent := Loaded(Run(front).deals[id].payments, r.swapped);
        HandOffGivesLedger(Run(front), r);
        assert BookedFor(Deliveries(calls), id) == PaymentRowsOf(sent[..Handed(r.remote)]);
      } else {
        OtherStepKeepsLedger(BookedFor(Deliveries(front), id), Run(front), last, id);
      }
    }
  }

  // ----- sums over deals

  ghost function SumOver(ids: set<DealId>, f: DealId -> int): int {
    if ids == {} then 0
    else
      var id := Pick(ids);
      f(id) + SumOver(ids - {id}, f)
  }

  /** Changing the summand of one deal changes the sum by as much. */
  lemma {:induction false} SumBump(ids: set<DealId>, f: DealId -> int, g: DealId -> int, id: DealId, x: int)
    requires id !in ids ==> x == 0
    requires forall i :: i in ids ==> g(i) == f(i) + if i == id then x else 0
    ensures SumOver(ids, g) == SumOver(ids, f) + x
  {
    if ids != {} {
      var first := Pick(ids);
      SumBump(ids - {first}, f, g, id, if first == id then 0 else x);
    }
  }

  lemma {:induction false} SumsAgree(ids: set<DealId>, a: DealId -> int, b: DealId -> int, c: DealId -> int,
                                     d: DealId -> int)
    requires forall i :: i in ids ==> a(i) + b(i) == c(i) + d(i)
    ensures SumOver(ids, a) + SumOver(ids, b) == SumOver(ids, c) + SumOver(ids, d)
  {
    if ids != {} {
      SumsAgree(ids - {Pick(ids)}, a, b, c, d);
    }
  }

  lemma {:induction false} BookIsSum(deals: map<DealId, Deal>, f: DealId -> int, ccy: string)
    requires forall id :: id in deals ==> f(id) == SignedSum(OpenRows(deals[id]), ccy)
    ensures BookExposure(deals, ccy) == SumOver(deals.Keys, f)
    decreases deals.Keys
  {
    if deals != map[] {
      var id := Pick(deals.Keys);
      SumConcat(BookRows(deals - {id}), OpenRows(deals[id]), ccy);
      BookIsSum(deals - {id}, f, ccy);
      assert (deals - {id}).Keys == deals.Keys - {id};
    }
  }

  function BookedPart(deliveries: seq<Delivery>, ccy: string): DealId -> int {
    (id: DealId) => SignedSum(BookedFor(deliveries, id), ccy)
  }

  lemma {:induction false} NothingBooked(ids: set<DealId>, ccy: string)
    ensures SumOver(ids, BookedPart([], ccy)) == 0
  {
    if ids != {} {
      NothingBooked(ids - {Pick(ids)}, ccy);
    }
  }

  /** The last delivery adds its row to its own deal only. */
  lemma LastBooking(deliveries: seq<Delivery>, id: DealId, ccy: string)
    requires deliveries != []
    ensures var front, last := deliveries[..|deliveries| - 1], deliveries[|deliveries| - 1];
      var row := RowOf(last.post.payload);
      && SignedSum(BookedFor(deliveries, id), ccy) ==
           SignedSum(BookedFor(front, id), ccy) +
           (if last.acknowledged && last.post.payload.deal == id && row.currency == ccy then Signed(row) else 0)
      && (BookedFor(deliveries, id) == [] ==>
            BookedFor(front, id) == [] && !(last.acknowledged && last.post.payload.deal == id))
  {
    var last := deliveries[|deliveries| - 1];
    AppendIf(BookedFor(deliveries[..|deliveries| - 1], id), RowOf(last.post.payload),
             last.acknowledged && last.post.payload.deal == id, ccy);
  }

  lemma LastOfAll(deliveries: seq<Delivery>, ccy: string)
    requires deliveries != []
    ensures var front, last := deliveries[..|deliveries| - 1], deliveries[|deliveries| - 1];
      var row := RowOf(last.post.payload);
      SignedSum(BookedInAll(deliveries), ccy) ==
        SignedSum(BookedInAll(front), ccy) + if last.acknowledged && row.currency == ccy then Signed(row) else 0
  {
    var last := deliveries[|deliveries| - 1];
    AppendIf(BookedInAll(deliveries[..|deliveries| - 1]), RowOf(last.post.payload), last.acknowledged, ccy);
  }

  /** Everything booked is booked for some deal. */
  lemma {:induction false} BookedIsSum(deliveries: seq<Delivery>, ids: set<DealId>, ccy: string)
    requires forall id :: id !in ids ==> BookedFor(deliveries, id) == []
    ensures SignedSum(BookedInAll(deliveries), ccy) == SumOver(ids, BookedPart(deliveries, ccy))
  {
    if deliveries == [] {
      NothingBooked(ids, ccy);
    } else {
      var front, last := deliveries[..|deliveries| - 1], deliveries[|deliveries| - 1];
      var row := RowOf(last.post.payload);
      forall id | id !in ids
        ensures BookedFor(front, id) == [] && !(last.acknowledged && last.post.payload.deal == id)
      {
        LastBooking(deliveries, id, ccy);
      }
      BookedIsSum(front, ids, ccy);
      LastOfAll(deliveries, ccy);
      var x := if last.acknowledged && row.currency == ccy then Signed(row) else 0;
      forall id | id in ids
        ensures BookedPart(deliveries, ccy)(id) ==
                  BookedPart(front, ccy)(id) + if id == last.post.payload.deal then x else 0
      {
        LastBooking(deliveries, id, ccy);
      }
      SumBump(ids, BookedPart(front, ccy), BookedPart(deliveries, ccy), last.post.payload.deal, x);
    }
  }

  // ----- the projected position

  function OpenPart(deals: map<DealId, Deal>, ccy: string): DealId -> int {
    (id: DealId) => if id in deals then SignedSum(OpenRows(deals[id]), ccy) else 0
  }

  /** The payments of a deal that was neither rejected nor cancelled. */
  function LivePart(deals: map<DealId, Deal>, ccy: string): DealId -> int {
    (id: DealId) =>
      if id in deals && !(deals[id].state.Rejected? || deals[id].state.Cancelled?) then PaymentSum(deals[id], ccy)
      else 0
  }

  /** What the position system took on of a deal that nevertheless stayed open. */
  function StrandedPart(deals: map<DealId, Deal>, deliveries: seq<Delivery>, ccy: string): DealId -> int {
    (id: DealId) =>
      if id in deals && deals[id].state.Approved? then SignedSum(BookedFor(deliveries, id), ccy) else 0
  }

  /** Booked and open make up the payments of a live deal, with what is stranded counted twice. */
  lemma DealAddsUp(rows: seq<Row>, d: Deal, ccy: string)
    requires Accounted(rows, d)
    ensures SignedSum(rows, ccy) + SignedSum(OpenRows(d), ccy) ==
              (if d.state.Rejected? || d.state.Cancelled? then 0 else PaymentSum(d, ccy)) +
              if d.state.Approved? then SignedSum(rows, ccy) else 0
  {
    OpenSum(d, ccy);
    if d.state.Executed? {
      var swapped :| FirstOf(rows, d, swapped, 2);
      var sent := Loaded(d.payments, swapped);
      assert sent[..2] == sent;
      LoadOrderKeepsSum(d.payments, swapped, ccy);
    }
  }

  /** Over every run and in every currency, the signed payments the position system acknowledged so far
      and the open exposure add up to the payments of all deals that were neither rejected nor
      cancelled, plus, counted twice, what was acknowledged of the APPROVED deals. */
  lemma ProjectionAddsUp(calls: seq<Call>, ccy: string)
    ensures var deals, deliveries := Run(calls).deals, Deliveries(calls);
      SignedSum(BookedInAll(deliveries), ccy) + BookExposure(deals, ccy) ==
        SumOver(deals.Keys, LivePart(deals, ccy)) + SumOver(deals.Keys, StrandedPart(deals, deliveries, ccy))
  {
    var deals, deliveries := Run(calls).deals, Deliveries(calls);
    forall id
      ensures LedgerOf(BookedFor(deliveries, id), Run(calls), id)
    {
      EveryDealIsAccounted(calls, id);
    }
    BookIsSum(deals, OpenPart(deals, ccy), ccy);
    BookedIsSum(deliveries, deals.Keys, ccy);
    forall id | id in deals
      ensures BookedPart(deliveries, ccy)(id) + OpenPart(deals, ccy)(id) ==
                LivePart(deals, ccy)(id) + StrandedPart(deals, deliveries, ccy)(id)
    {
      DealAddsUp(BookedFor(deliveries, id), deals[id], ccy);
    }
    SumsAgree(deals.Keys, BookedPart(deliveries, ccy), OpenPart(deals, ccy),
              LivePart(deals, ccy), StrandedPart(deals, deliveries, ccy));
  }
}
