/** Everything a run posts to the position system: each leg of a deal is acknowledged at most once, and
    a deal is EXECUTED exactly when both its legs were. */
module HandOffs {
  import opened Domain
  import opened PositionClient
  import opened Lifecycle
  import opened Invariants
  import opened Runs

  /** One POST, the call of the run that made it, and whether it was acknowledged. */
  datatype Delivery = Delivery(call: nat, post: Post, acknowledged: bool)

  ghost function PostsOf(s: Store, r: Request): seq<Post> {
    if HandsOver(s, r) then
      var d := s.deals[r.id];
      SendPosts(r.remote, r.id, Decided(d, r.user, Approve, None, Approved), Loaded(d.payments, r.swapped))
    else []
  }

  ghost function DeliveriesOf(n: nat, s: Store, r: Request): seq<Delivery> {
    var posts := PostsOf(s, r);
    seq(|posts|, i requires 0 <= i < |posts| =>
      Delivery(n, posts[i], r.ApproveDeal? && r.remote.reply(posts[i].payment, posts[i].attempt).Ack?))
  }

  ghost function Deliveries(calls: seq<Call>): seq<Delivery> {
    if calls == [] then []
    else
      var front := calls[..|calls| - 1];
      Deliveries(front) + DeliveriesOf(|front|, Run(front), calls[|front|].request)
  }

  /** The posts of a run, in the order they were made. */
  ghost function Outbox(calls: seq<Call>): seq<Post> {
    if calls == [] then []
    else
      var front := calls[..|calls| - 1];
      Outbox(front) + PostsOf(Run(front), calls[|front|].request)
  }

  lemma {:induction false} OutboxIsDeliveries(calls: seq<Call>)
    ensures |Outbox(calls)| == |Deliveries(calls)|
    ensures forall x :: 0 <= x < |Outbox(calls)| ==> Outbox(calls)[x] == Deliveries(calls)[x].post
  {
    if calls != [] {
      var front := calls[..|calls| - 1];
      OutboxIsDeliveries(front);
      SameParts(Outbox(front), PostsOf(Run(front), calls[|front|].request),
                Deliveries(front), DeliveriesOf(|front|, Run(front), calls[|front|].request));
    }
  }

  lemma SameParts(p: seq<Post>, p': seq<Post>, d: seq<Delivery>, d': seq<Delivery>)
    requires |p| == |d| && forall x :: 0 <= x < |p| ==> p[x] == d[x].post
    requires |p'| == |d'| && forall x :: 0 <= x < |p'| ==> p'[x] == d'[x].post
    ensures |p + p'| == |d + d'| && forall x :: 0 <= x < |p + p'| ==> (p + p')[x] == (d + d')[x].post
  {
  }

  // ----- one call

  /** A post of a calculated pair: which leg it carries, and when it is acknowledged. */
  lemma PostOfPair(d: Deal, decided: Deal, id: DealId, swapped: bool, remote: Remote, p: Post)
    requires Pair(d)
    requires p in SendPosts(remote, id, decided, Loaded(d.payments, swapped))
    ensures remote.configured && remote.tokenOk
    ensures p.payment < 2 && p.payload.deal == id
    ensures p.payload.currency == if (p.payment == 0) == swapped then d.terms.sell else d.terms.buy
    ensures remote.reply(p.payment, p.attempt).Ack? <==>
              p.payment < AcceptedPrefix(remote, 2) && p.attempt == LastAttempt(remote, p.payment)
  {
    var sent := Loaded(d.payments, swapped);
    PairCurrencies(d, swapped);
    HandOffStopsAtOnePoint(remote, id, decided, sent);
    PostsAreExactly(remote, id, decided, sent, 2);
    assert Posted(remote, id, decided, sent, 2, p);
  }

  lemma PairCurrencies(d: Deal, swapped: bool)
    requires Pair(d)
    ensures d.terms.buy != d.terms.sell
    ensures var sent := Loaded(d.payments, swapped);
      && |sent| == 2
      && sent[0].currency == (if swapped then d.terms.sell else d.terms.buy)
      && sent[1].currency == (if swapped then d.terms.buy else d.terms.sell)
  {
  }

  lemma HandedOverPair(calls: seq<Call>, r: Request)
    requires HandsOver(Run(calls), r)
    ensures Pair(Run(calls).deals[r.id])
  {
    RunKeepsInv(calls);
  }

  lemma PostsOfHandOff(calls: seq<Call>, r: Request, p: Post)
    requires p in PostsOf(Run(calls), r)
    ensures HandsOver(Run(calls), r) && r.remote.configured && r.remote.tokenOk
    ensures var d := Run(calls).deals[r.id];
      && d.terms.buy != d.terms.sell
      && p.payment < 2 && p.payload.deal == r.id
      && p.payload.currency == if (p.payment == 0) == r.swapped then d.terms.sell else d.terms.buy
    ensures r.remote.reply(p.payment, p.attempt).Ack? <==>
              p.payment < AcceptedPrefix(r.remote, 2) && p.attempt == LastAttempt(r.remote, p.payment)
  {
    HandedOverPair(calls, r);
    var d := Run(calls).deals[r.id];
    PostOfPair(d, Decided(d, r.user, Approve, None, Approved), r.id, r.swapped, r.remote, p);
    PairCurrencies(d, r.swapped);
  }

  lemma PostsInOrder(s: Store, r: Request, x: nat, y: nat)
    requires x < y < |PostsOf(s, r)|
    ensures Before(PostsOf(s, r)[x], PostsOf(s, r)[y])
  {
    var d := s.deals[r.id];
    var sent := Loaded(d.payments, r.swapped);
    var decided := Decided(d, r.user, Approve, None, Approved);
    PostsAreExactly(r.remote, r.id, decided, sent, |sent|);
    assert PostsOf(s, r) == PostsUpTo(r.remote, r.id, decided, sent, |sent|);
  }

  /** Two posts of one hand-off that are both acknowledged are about different legs. */
  lemma AcknowledgedOncePerHandOff(calls: seq<Call>, r: Request, x: nat, y: nat)
    requires x < y < |PostsOf(Run(calls), r)|
    requires var posts := PostsOf(Run(calls), r);
      && r.ApproveDeal?
      && r.remote.reply(posts[x].payment, posts[x].attempt).Ack?
      && r.remote.reply(posts[y].payment, posts[y].attempt).Ack?
    ensures PostsOf(Run(calls), r)[x].payload.currency != PostsOf(Run(calls), r)[y].payload.currency
  {
    var p, q := PostsOf(Run(calls), r)[x], PostsOf(Run(calls), r)[y];
    PostsOfHandOff(calls, r, p);
    PostsOfHandOff(calls, r, q);
    PostsInOrder(Run(calls), r, x, y);
  }

  // ----- a whole run

  /** A delivery comes from the hand-off of its deal in the call it names. */
  lemma {:induction false} DeliveryComesFromHandOff(calls: seq<Call>, x: nat)
    requires x < |Deliveries(calls)|
    ensures var e := Deliveries(calls)[x];
      && e.call < |calls|
      && calls[e.call].request.id == e.post.payload.deal
      && HandsOver(Run(calls[..e.call]), calls[e.call].request)
  {
    var front := calls[..|calls| - 1];
    if x < |Deliveries(front)| {
      DeliveryComesFromHandOff(front, x);
      assert front[..Deliveries(front)[x].call] == calls[..Deliveries(front)[x].call];
    } else {
      var r := calls[|front|].request;
      var p := PostsOf(Run(front), r)[x - |Deliveries(front)|];
      PostsOfHandOff(front, r, p);
    }
  }

  /** All posts about a deal come from one call. */
  lemma {:induction false} PostsOfADealShareACall(calls: seq<Call>, x: nat, y: nat)
    requires x < |Deliveries(calls)| && y < |Deliveries(calls)|
    requires Deliveries(calls)[x].post.payload.deal == Deliveries(calls)[y].post.payload.deal
    ensures Deliveries(calls)[x].call == Deliveries(calls)[y].call
  {
    DeliveryComesFromHandOff(calls, x);
    DeliveryComesFromHandOff(calls, y);
    var i, j := Deliveries(calls)[x].call, Deliveries(calls)[y].call;
    if i < j {
      SentAtMostOnce(calls, i, j);
    } else if j < i {
      SentAtMostOnce(calls, j, i);
    }
  }

  lemma {:induction false} CallsBefore(calls: seq<Call>, x: nat)
    requires calls != [] && x < |Deliveries(calls)|
    ensures Deliveries(calls)[x].call == |calls| - 1 <==> x >= |Deliveries(calls[..|calls| - 1])|
  {
    var front := calls[..|calls| - 1];
    if x < |Deliveries(front)| {
      DeliveryComesFromHandOff(front, x);
    }
  }

  /** Over every run each leg of a deal is acknowledged at most once: two acknowledged posts about one
      deal are in its two different currencies. */
  lemma {:induction false} LegAcknowledgedAtMostOnce(calls: seq<Call>, x: nat, y: nat)
    requires x < y < |Deliveries(calls)|
    requires Deliveries(calls)[x].acknowledged && Deliveries(calls)[y].acknowledged
    requires Deliveries(calls)[x].post.payload.deal == Deliveries(calls)[y].post.payload.deal
    ensures Deliveries(calls)[x].post.payload.currency != Deliveries(calls)[y].post.payload.currency
  {
    var front := calls[..|calls| - 1];
    var m := |Deliveries(front)|;
    if y < m {
      LegAcknowledgedAtMostOnce(front, x, y);
    } else {
      PostsOfADealShareACall(calls, x, y);
      CallsBefore(calls, x);
      CallsBefore(calls, y);
      AcknowledgedOncePerHandOff(front, calls[|front|].request, x - m, y - m);
    }
  }

  // ----- executed means acknowledged

  predicate About(e: Delivery, id: DealId, ccy: string) {
    e.acknowledged && e.post.payload.deal == id && e.post.payload.currency == ccy
  }

  ghost predicate AcknowledgedIn(deliveries: seq<Delivery>, id: DealId, ccy: string) {
    exists x :: 0 <= x < |deliveries| && About(deliveries[x], id, ccy)
  }

  /** Some post of the run about this leg of the deal was acknowledged. */
  ghost predicate Acknowledged(calls: seq<Call>, id: DealId, ccy: string) {
    AcknowledgedIn(Deliveries(calls), id, ccy)
  }

  /** The request posts about this leg and the post is acknowledged. */
  ghost predicate Acknowledges(s: Store, r: Request, id: DealId, ccy: string) {
    exists p :: && p in PostsOf(s, r) && r.ApproveDeal? && r.remote.reply(p.payment, p.attempt).Ack?
                && p.payload.deal == id && p.payload.currency == ccy
  }

  lemma InEitherPart(a: seq<Delivery>, b: seq<Delivery>, id: DealId, ccy: string)
    ensures AcknowledgedIn(a + b, id, ccy) <==> AcknowledgedIn(a, id, ccy) || AcknowledgedIn(b, id, ccy)
  {
    if x :| 0 <= x < |a| && About(a[x], id, ccy) {
      assert (a + b)[x] == a[x];
    }
    if x :| 0 <= x < |b| && About(b[x], id, ccy) {
      assert (a + b)[|a| + x] == b[x];
    }
  }

  lemma DeliveriesOfRequest(n: nat, s: Store, r: Request, id: DealId, ccy: string)
    ensures AcknowledgedIn(DeliveriesOf(n, s, r), id, ccy) <==> Acknowledges(s, r, id, ccy)
  {
    var posts, deliveries := PostsOf(s, r), DeliveriesOf(n, s, r);
    if x :| 0 <= x < |deliveries| && About(deliveries[x], id, ccy) {
      assert posts[x] in posts;
    }
    if Acknowledges(s, r, id, ccy) {
      var p :| && p in posts && r.ApproveDeal? && r.remote.reply(p.payment, p.attempt).Ack?
               && p.payload.deal == id && p.payload.currency == ccy;
      var x :| 0 <= x < |posts| && posts[x] == p;
      assert About(deliveries[x], id, ccy);
    }
  }

  lemma {:induction false} AcknowledgedSplits(calls: seq<Call>, id: DealId, ccy: string)
    requires calls != []
    ensures var front := calls[..|calls| - 1];
      Acknowledged(calls, id, ccy) <==>
        Acknowledged(front, id, ccy) || Acknowledges(Run(front), calls[|front|].request, id, ccy)
  {
    var front := calls[..|calls| - 1];
    var r := calls[|front|].request;
    InEitherPart(Deliveries(front), DeliveriesOf(|front|, Run(front), r), id, ccy);
    DeliveriesOfRequest(|front|, Run(front), r, id, ccy);
  }

  /** A hand-off acknowledges the leg in the currency of payment i exactly when it got past payment i. */
  lemma {:induction false} LegOfHandOff(calls: seq<Call>, r: Request, i: nat)
    requires HandsOver(Run(calls), r) && i < 2
    ensures |Loaded(Run(calls).deals[r.id].payments, r.swapped)| == 2
    ensures var ccy := Loaded(Run(calls).deals[r.id].payments, r.swapped)[i].currency;
      Acknowledges(Run(calls), r, r.id, ccy) <==>
        r.remote.configured && r.remote.tokenOk && i < AcceptedPrefix(r.remote, 2)
  {
    HandedOverPair(calls, r);
    var d := Run(calls).deals[r.id];
    var decided := Decided(d, r.user, Approve, None, Approved);
    PairCurrencies(d, r.swapped);
    forall p | p in PostsOf(Run(calls), r)
      ensures p.payload.deal == r.id && r.remote.configured && r.remote.tokenOk
      ensures p.payload.currency == Loaded(d.payments, r.swapped)[i].currency <==> p.payment == i
      ensures r.remote.reply(p.payment, p.attempt).Ack? ==> p.payment < AcceptedPrefix(r.remote, 2)
    {
      PostsOfHandOff(calls, r, p);
    }
    if r.remote.configured && r.remote.tokenOk && i < AcceptedPrefix(r.remote, 2) {
      PassedIsPosted(d, decided, r.id, r.swapped, r.remote, i);
    }
  }

  /** A payment the hand-off got past was acknowledged by its last post. */
  lemma PassedIsPosted(d: Deal, decided: Deal, id: DealId, swapped: bool, remote: Remote, i: nat)
    requires Pair(d) && remote.configured && remote.tokenOk && i < AcceptedPrefix(remote, 2)
    ensures i < |Loaded(d.payments, swapped)| == 2
    ensures var p := Post(i, LastAttempt(remote, i), PayloadOf(id, decided, Loaded(d.payments, swapped)[i]));
      p in SendPosts(remote, id, decided, Loaded(d.payments, swapped)) && remote.reply(i, p.attempt).Ack?
  {
    PairCurrencies(d, swapped);
    PrefixIsMaximal(remote, 2);
    HandOffStopsAtOnePoint(remote, id, decided, Loaded(d.payments, swapped));
  }

  /** Both legs of the deal were acknowledged. */
  ghost predicate BothAcknowledged(calls: seq<Call>, id: DealId, t: Terms) {
    Acknowledged(calls, id, t.buy) && Acknowledged(calls, id, t.sell)
  }

  lemma {:induction false} DeliveryMeansDecided(calls: seq<Call>, x: nat)
    requires x < |Deliveries(calls)|
    ensures var state := StateOf(Run(calls), Deliveries(calls)[x].post.payload.deal);
      state == Some(Approved) || state == Some(Executed)
  {
    DeliveryComesFromHandOff(calls, x);
    var j := Deliveries(calls)[x].call;
    ApproveIsLocal(Run(calls[..j]), calls[j].request);
    assert calls[..j + 1][..j] == calls[..j];
    FinalStatesStay(calls, j + 1, calls[j].request.id);
  }

  lemma {:induction false} NoDeliveryBeforeDecision(calls: seq<Call>, id: DealId, ccy: string)
    requires StateOf(Run(calls), id) != Some(Approved) && StateOf(Run(calls), id) != Some(Executed)
    ensures !Acknowledged(calls, id, ccy)
  {
    if x :| 0 <= x < |Deliveries(calls)| && About(Deliveries(calls)[x], id, ccy) {
      DeliveryMeansDecided(calls, x);
    }
  }

  /** A hand-off executes its deal exactly when it got past both payments. */
  lemma HandOffExecutesIff(calls: seq<Call>, r: Request)
    requires HandsOver(Run(calls), r)
    ensures var d, s' := Run(calls).deals[r.id], ApproveStep(Run(calls), r).store;
      && r.id in s'.deals && s'.deals[r.id].terms == d.terms
      && (s'.deals[r.id].state.Executed? <==>
            r.remote.configured && r.remote.tokenOk && AcceptedPrefix(r.remote, 2) == 2)
  {
    HandedOverPair(calls, r);
    PrefixIsMaximal(r.remote, 2);
  }

  lemma {:induction false} HandOffDecides(calls: seq<Call>, id: DealId)
    requires calls != [] && calls[|calls| - 1].request.id == id
    requires HandsOver(Run(calls[..|calls| - 1]), calls[|calls| - 1].request)
    ensures id in Run(calls).deals
    ensures Run(calls).deals[id].state.Executed? <==> BothAcknowledged(calls, id, Run(calls).deals[id].terms)
  {
    var front, r := calls[..|calls| - 1], calls[|calls| - 1].request;
    var t := Run(front).deals[id].terms;
    HandOffExecutesIff(front, r);
    HandOffAcknowledgesIff(calls, 0);
    HandOffAcknowledgesIff(calls, 1);
    HandedOverPair(front, r);
    PairCurrencies(Run(front).deals[id], r.swapped);
    PrefixIsMaximal(r.remote, 2);
  }

  /** After the call that hands a deal over, the leg of payment i counts as acknowledged exactly when
      that hand-off got past it. */
  lemma {:induction false} HandOffAcknowledgesIff(calls: seq<Call>, i: nat)
    requires calls != [] && i < 2
    requires HandsOver(Run(calls[..|calls| - 1]), calls[|calls| - 1].request)
    ensures var r := calls[|calls| - 1].request;
      var sent := Loaded(Run(calls[..|calls| - 1]).deals[r.id].payments, r.swapped);
      && |sent| == 2
      && (Acknowledged(calls, r.id, sent[i].currency) <==>
            r.remote.configured && r.remote.tokenOk && i < AcceptedPrefix(r.remote, 2))
  {
    var front, r := calls[..|calls| - 1], calls[|calls| - 1].request;
    LegOfHandOff(front, r, i);
    var ccy := Loaded(Run(front).deals[r.id].payments, r.swapped)[i].currency;
    NoDeliveryBeforeDecision(front, r.id, ccy);
    AcknowledgedSplits(calls, r.id, ccy);
  }

  /** Over every run a deal is EXECUTED exactly when both its legs were acknowledged, each then once. */
  lemma {:induction false} ExecutedIffBothAcknowledged(calls: seq<Call>, id: DealId)
    requires id in Run(calls).deals
    ensures Run(calls).deals[id].state.Executed? <==> BothAcknowledged(calls, id, Run(calls).deals[id].terms)
  {
    var front, last := calls[..|calls| - 1], calls[|calls| - 1];
    var now := Run(calls).deals[id];
    if last.request.id == id && HandsOver(Run(front), last.request) {
      HandOffDecides(calls, id);
    } else {
      OtherCallPostsNothing(calls, id, now.terms.buy);
      OtherCallPostsNothing(calls, id, now.terms.sell);
      StepIsLocal(Run(front), last);
      ApprovalIsHandOff(Run(front), last);
      if StateOf(Run(calls), id) == Some(Approved) || StateOf(Run(calls), id) == Some(Executed) {
        ExecutedIffBothAcknowledged(front, id);
      } else {
        NoDeliveryBeforeDecision(calls, id, now.terms.buy);
      }
    }
  }

  lemma ApprovalIsHandOff(s: Store, c: Call)
    ensures Step(s, c).event.Approval? <==> HandsOver(s, c.request)
  {
    match c.request {
      case ApproveDeal(_, _, _, _) => ApproveIsLocal(s, c.request);
      case _ =>
    }
  }

  lemma {:induction false} OtherCallPostsNothing(calls: seq<Call>, id: DealId, ccy: string)
    requires calls != []
    requires calls[|calls| - 1].request.id != id || !HandsOver(Run(calls[..|calls| - 1]), calls[|calls| - 1].request)
    ensures Acknowledged(calls, id, ccy) <==> Acknowledged(calls[..|calls| - 1], id, ccy)
  {
    var front, r := calls[..|calls| - 1], calls[|calls| - 1].request;
    AcknowledgedSplits(calls, id, ccy);
    forall p | p in PostsOf(Run(front), r)
      ensures p.payload.deal == r.id && HandsOver(Run(front), r)
    {
      PostsOfHandOff(front, r, p);
    }
  }
}
