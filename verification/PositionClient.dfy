/** Handing a deal's payments to the position system: one POST per payment, retried with
    exponential backoff, driven by an arbitrary stream of replies. */
module PositionClient {
  import opened Domain

  /** What one POST meets: a 2xx reply with a readable body (its two reference fields as text, when
      present), a reply with another status, or any other exception, such as a lost connection or bad
      JSON. */
  datatype PostOutcome =
    | Ack(paymentId: Option<string>, id: Option<string>)
    | HttpError(status: int)
    | Failure

  /** reply(i, a) is what attempt a (from 1) at payment i meets. */
  datatype Remote = Remote(configured: bool, tokenOk: bool, retries: int, reply: (nat, nat) -> PostOutcome)

  datatype Payload = Payload(
    deal: DealId,
    currency: string,
    amount: int,
    valueDate: Day,
    direction: Direction,
    account: Option<string>)

  datatype Post = Post(payment: nat, attempt: nat, payload: Payload)

  datatype SendError = NotConfigured | TokenError | Refused(status: int) | Exhausted

  datatype SendResult = SendResult(success: bool, externalRef: Option<string>, error: Option<SendError>)

  /** The 4xx class: the request itself is at fault (section 15.5 of RFC 9110), so it is not retried. */
  predicate ClientError(o: PostOutcome) {
    o.HttpError? && 400 <= o.status < 500
  }

  predicate Decisive(o: PostOutcome) {
    o.Ack? || ClientError(o)
  }

  function PayloadOf(id: DealId, d: Deal, p: Payment): Payload {
    var valueDate :=
      if p.valueDate.Some? then p.valueDate.value
      else if d.valueDate.Some? then d.valueDate.value
      else d.terms.tradeDate;
    Payload(id, p.currency, p.amount, valueDate, p.direction, p.account)
  }

  // ----- specification

  /** The last attempt made at payment i, looking from attempt a on. */
  function LastAttemptFrom(r: Remote, i: nat, a: nat): nat
    requires a >= 1
    decreases r.retries - a
  {
    if a > r.retries then a - 1
    else if Decisive(r.reply(i, a)) then a
    else LastAttemptFrom(r, i, a + 1)
  }

  function LastAttempt(r: Remote, i: nat): nat {
    LastAttemptFrom(r, i, 1)
  }

  /** Some attempt within the allowed ones is acknowledged and no earlier one is a client error. */
  ghost predicate Accepted(r: Remote, i: nat) {
    exists a: nat :: && 1 <= a <= r.retries && r.reply(i, a).Ack?
                     && forall b: nat :: 1 <= b < a ==> !ClientError(r.reply(i, b))
  }

  ghost predicate AllAccepted(r: Remote, n: nat) {
    forall i: nat :: i < n ==> Accepted(r, i)
  }

  ghost predicate SendSucceeds(r: Remote, payments: seq<Payment>) {
    r.configured && (payments == [] || (r.tokenOk && AllAccepted(r, |payments|)))
  }

  /** Attempts 1 to k at payment i. */
  function PostsAt(id: DealId, d: Deal, payments: seq<Payment>, i: nat, k: nat): seq<Post>
    requires i < |payments|
  {
    if k == 0 then [] else PostsAt(id, d, payments, i, k - 1) + [Post(i, k, PayloadOf(id, d, payments[i]))]
  }

  /** Everything posted while working through the first n payments. */
  ghost function PostsUpTo(r: Remote, id: DealId, d: Deal, payments: seq<Payment>, n: nat): seq<Post>
    requires n <= |payments|
  {
    if n == 0 then []
    else
      PostsUpTo(r, id, d, payments, n - 1) +
      if AllAccepted(r, n - 1) then PostsAt(id, d, payments, n - 1, LastAttempt(r, n - 1)) else []
  }

  ghost function SendPosts(r: Remote, id: DealId, d: Deal, payments: seq<Payment>): seq<Post> {
    if r.configured && r.tokenOk then PostsUpTo(r, id, d, payments, |payments|) else []
  }

  predicate Truthy(field: Option<string>) {
    field.Some? && field.value != ""
  }

  /** The reference an acknowledgement gives: payment_id, or else id, and none when that is empty. */
  function ReferenceIn(o: PostOutcome): seq<string> {
    match o
    case Ack(paymentId, id) => if Truthy(paymentId) then [paymentId.value] else if Truthy(id) then [id.value] else []
    case _ => []
  }

  /** The references of the acknowledging replies, in payment order. */
  function RefsUpTo(r: Remote, n: nat): seq<string> {
    if n == 0 then [] else RefsUpTo(r, n - 1) + ReferenceIn(r.reply(n - 1, LastAttempt(r, n - 1)))
  }

  function Joined(refs: seq<string>): string
    requires refs != []
  {
    if |refs| == 1 then refs[0] else Joined(refs[..|refs| - 1]) + "," + refs[|refs| - 1]
  }

  function ExternalRef(refs: seq<string>): Option<string> {
    if refs == [] then None else Some(Joined(refs))
  }

  /** How many payments were acknowledged before the first that was not. */
  ghost function AcceptedPrefix(r: Remote, n: nat): nat {
    if n == 0 then 0
    else
      var k := AcceptedPrefix(r, n - 1);
      if k == n - 1 && Accepted(r, n - 1) then n else k
  }

  lemma {:induction false} PrefixIsMaximal(r: Remote, n: nat)
    ensures var k := AcceptedPrefix(r, n);
      k <= n && AllAccepted(r, k) && (k < n ==> !Accepted(r, k))
  {
    if n > 0 {
      PrefixIsMaximal(r, n - 1);
    }
  }

  /** How the hand-off is reported when it stops at payment i. */
  function ErrorAt(r: Remote, i: nat): SendError {
    var k := LastAttempt(r, i);
    if k >= 1 && ClientError(r.reply(i, k)) then Refused(r.reply(i, k).status) else Exhausted
  }

  function Pow2(k: nat): nat {
    if k == 0 then 1 else 2 * Pow2(k - 1)
  }

  /** Backoff units slept through at payments 0 to n-1 when payment i takes LastAttempt(i) attempts. */
  ghost function WaitUpTo(r: Remote, n: nat): int {
    if n == 0 then 0
    else
      WaitUpTo(r, n - 1) +
      if AllAccepted(r, n - 1) && LastAttempt(r, n - 1) >= 1 then Pow2(LastAttempt(r, n - 1) - 1) - 1 else 0
  }

  // ----- one payment

  lemma {:induction false} LastAttemptDecides(r: Remote, i: nat, a: nat)
    requires a >= 1
    ensures var k := LastAttemptFrom(r, i, a);
      && a - 1 <= k
      && (a <= r.retries + 1 ==> k <= r.retries)
      && (a <= r.retries ==> a <= k)
      && (forall b: nat :: a <= b < k ==> !Decisive(r.reply(i, b)))
      && (a <= k && k < r.retries ==> Decisive(r.reply(i, k)))
    decreases r.retries - a
  {
    if a <= r.retries && !Decisive(r.reply(i, a)) {
      LastAttemptDecides(r, i, a + 1);
    }
  }

  /** A payment is accepted exactly when the last attempt at it was acknowledged. */
  lemma AcceptedIffLastAcknowledged(r: Remote, i: nat)
    ensures var k := LastAttempt(r, i);
      && k <= (if r.retries < 0 then 0 else r.retries)
      && (Accepted(r, i) <==> k >= 1 && r.reply(i, k).Ack?)
      && forall b: nat :: 1 <= b < k ==> !Decisive(r.reply(i, b))
  {
    LastAttemptDecides(r, i, 1);
    var k := LastAttempt(r, i);
    if k >= 1 && r.reply(i, k).Ack? {
      assert Accepted(r, i);
    }
    if Accepted(r, i) {
      var a: nat :| && 1 <= a <= r.retries && r.reply(i, a).Ack?
                    && forall b: nat :: 1 <= b < a ==> !ClientError(r.reply(i, b));
      assert Decisive(r.reply(i, a));
    }
  }

  /** The retry rule in numerals. Attempts that meet another status than 400 to 499, or no status at all,
      are followed by the next one; the first acknowledgement accepts the payment, the first status
      from 400 to 499 gives it up, and with neither all the allowed attempts are made in vain. */
  lemma FirstDecisionEnds(r: Remote, i: nat, a: nat)
    requires forall b: nat :: 1 <= b < a ==>
               || r.reply(i, b).Failure?
               || (r.reply(i, b).HttpError? && !(400 <= r.reply(i, b).status <= 499))
    ensures 1 <= a <= r.retries && r.reply(i, a).Ack? ==> Accepted(r, i) && LastAttempt(r, i) == a
    ensures 1 <= a <= r.retries && r.reply(i, a).HttpError? && 400 <= r.reply(i, a).status <= 499 ==>
              !Accepted(r, i) && LastAttempt(r, i) == a && ErrorAt(r, i) == Refused(r.reply(i, a).status)
    ensures 1 <= r.retries == a - 1 ==> !Accepted(r, i) && LastAttempt(r, i) == r.retries && ErrorAt(r, i) == Exhausted
    ensures r.retries <= 0 ==> !Accepted(r, i) && LastAttempt(r, i) == 0 && ErrorAt(r, i) == Exhausted
  {
    AcceptedIffLastAcknowledged(r, i);
    LastAttemptDecides(r, i, 1);
    forall b: nat | 1 <= b < a
      ensures !Decisive(r.reply(i, b))
    {
    }
  }

  /** Acceptance in numerals. */
  lemma AcceptedInNumerals(r: Remote, i: nat)
    ensures Accepted(r, i) <==>
              exists a: nat :: && 1 <= a <= r.retries && r.reply(i, a).Ack?
                               && forall b: nat :: 1 <= b < a ==>
                                    !(r.reply(i, b).HttpError? && 400 <= r.reply(i, b).status <= 499)
  {
  }

  // ----- what a post carries

  /** The six fields of a payload, and which date stands in for a missing value date. */
  lemma PayloadFields(id: DealId, d: Deal, p: Payment)
    ensures var payload := PayloadOf(id, d, p);
      && payload.deal == id && payload.currency == p.currency && payload.amount == p.amount
      && payload.direction == p.direction && payload.account == p.account
      && (p.valueDate.Some? ==> payload.valueDate == p.valueDate.value)
      && (p.valueDate.None? && d.valueDate.Some? ==> payload.valueDate == d.valueDate.value)
      && (p.valueDate.None? && d.valueDate.None? ==> payload.valueDate == d.terms.tradeDate)
  {
  }

  // ----- references

  /** payment_id comes before id, and empty references are dropped. */
  lemma ReferenceChoice(paymentId: Option<string>, id: Option<string>, x: string)
    ensures ReferenceIn(Ack(paymentId, id)) == [x] <==>
              x != "" && (paymentId == Some(x) || (id == Some(x) && (paymentId == None || paymentId == Some(""))))
    ensures |ReferenceIn(Ack(paymentId, id))| <= 1
  {
  }

  /** The list of a longer run of payments extends that of a shorter one by the reference of each further
      payment. */
  lemma {:induction false} ReferencesExtend(r: Remote, m: nat, n: nat)
    requires m <= n
    ensures RefsUpTo(r, m) <= RefsUpTo(r, n)
    ensures n == m + 1 ==> RefsUpTo(r, n) == RefsUpTo(r, m) + ReferenceIn(r.reply(m, LastAttempt(r, m)))
  {
    if m < n {
      ReferencesExtend(r, m, n - 1);
    }
  }

  /** Joining two lists puts one comma between them. */
  lemma {:induction false} JoinedSplits(a: seq<string>, b: seq<string>)
    requires a != [] && b != []
    ensures Joined(a + b) == Joined(a) + "," + Joined(b)
  {
    if |b| == 1 {
      assert (a + b)[..|a|] == a;
    } else {
      var front := b[..|b| - 1];
      assert (a + b)[..|a + b| - 1] == a + front;
      JoinedSplits(a, front);
      assert Joined(a) + "," + Joined(front) + "," + b[|b| - 1] == Joined(a) + "," + (Joined(front) + "," + b[|b| - 1]);
    }
  }

  /** The reference of a deal whose two payments were acknowledged under the ids x and y. */
  lemma TwoReferences(r: Remote, x: string, y: string)
    requires x != "" && y != ""
    requires r.reply(0, LastAttempt(r, 0)) == Ack(Some(x), None) && r.reply(1, LastAttempt(r, 1)) == Ack(Some(y), None)
    ensures ExternalRef(RefsUpTo(r, 2)) == Some(x + "," + y)
  {
    assert RefsUpTo(r, 1) == [x];
    assert RefsUpTo(r, 2) == [x] + [y];
    JoinedSplits([x], [y]);
  }

  // ----- the adapter

  method SendDeal(id: DealId, d: Deal, payments: seq<Payment>, r: Remote)
    returns (result: SendResult, posts: seq<Post>, waited: int)
    ensures result.success <==> SendSucceeds(r, payments)
    ensures result.success <==>
              && r.configured
              && (payments == [] || r.tokenOk)
              && forall i: nat :: i < |payments| ==> Accepted(r, i)
    ensures posts == SendPosts(r, id, d, payments)
    ensures result.externalRef == if result.success then ExternalRef(RefsUpTo(r, |payments|)) else None
    ensures result.success <==> result.error.None?
    ensures result.error == Some(NotConfigured) <==> !r.configured
    ensures result.error == Some(TokenError) <==> r.configured && payments != [] && !r.tokenOk
    ensures r.configured && r.tokenOk && !result.success ==>
              exists i: nat :: && i < |payments| && AllAccepted(r, i) && !Accepted(r, i)
                               && result.error == Some(ErrorAt(r, i))
    ensures waited == if r.configured && r.tokenOk then WaitUpTo(r, |payments|) else 0
  {
    posts, waited := [], 0;
    if !r.configured {
      return SendResult(false, None, Some(NotConfigured)), posts, waited;
    }
    if payments == [] {
      return SendResult(true, None, None), posts, waited;
    }
    if !r.tokenOk {
      return SendResult(false, None, Some(TokenError)), posts, waited;
    }
    var refs: seq<string> := [];
    for i := 0 to |payments|
      invariant AllAccepted(r, i)
      invariant posts == PostsUpTo(r, id, d, payments, i)
      invariant refs == RefsUpTo(r, i)
      invariant waited == WaitUpTo(r, i)
    {
      var last, made, slept := PostPayment(id, d, payments, i, r);
      posts, waited := posts + made, waited + slept;
      if last.None? || !last.value.Ack? {
        FailedAt(r, id, d, payments, i);
        var error := if last.Some? && ClientError(last.value) then Refused(last.value.status) else Exhausted;
        return SendResult(false, None, Some(error)), posts, waited;
      }
      var ref := if Truthy(last.value.paymentId) then last.value.paymentId else last.value.id;
      if Truthy(ref) {
        refs := refs + [ref.value];
      }
    }
    return SendResult(true, if refs == [] then None else Some(Joined(refs)), None), posts, waited;
  }

  /** The attempt loop at payment i: last is what the last attempt met, None when none was made. */
  method PostPayment(id: DealId, d: Deal, payments: seq<Payment>, i: nat, r: Remote)
    returns (last: Option<PostOutcome>, posts: seq<Post>, slept: int)
    requires i < |payments|
    ensures posts == PostsAt(id, d, payments, i, LastAttempt(r, i))
    ensures last == if LastAttempt(r, i) == 0 then None else Some(r.reply(i, LastAttempt(r, i)))
    ensures Accepted(r, i) <==> last.Some? && last.value.Ack?
    ensures forall a: nat :: 1 <= a < |posts| ==>
              !r.reply(i, a).Ack? && !(r.reply(i, a).HttpError? && 400 <= r.reply(i, a).status <= 499)
    ensures |posts| == (if r.retries < 0 then 0 else r.retries)
            || (last.Some? && (last.value.Ack? || (last.value.HttpError? && 400 <= last.value.status <= 499)))
    ensures slept == if LastAttempt(r, i) >= 1 then Pow2(LastAttempt(r, i) - 1) - 1 else 0
  {
    AcceptedIffLastAcknowledged(r, i);
    LastAttemptDecides(r, i, 1);
    PostsAtMembers(id, d, payments, i, LastAttempt(r, i));
    last, posts, slept := None, [], 0;
    var attempt := 1;
    while attempt <= r.retries
      invariant attempt >= 1 && LastAttempt(r, i) == LastAttemptFrom(r, i, attempt)
      invariant last == if attempt == 1 then None else Some(r.reply(i, attempt - 1))
      invariant attempt > 1 ==> attempt <= r.retries + 1
      invariant posts == PostsAt(id, d, payments, i, attempt - 1)
      invariant slept == if attempt <= r.retries || attempt == 1 then Pow2(attempt - 1) - 1 else Pow2(attempt - 2) - 1
      decreases r.retries - attempt
    {
      var outcome := r.reply(i, attempt);
      last, posts := Some(outcome), posts + [Post(i, attempt, PayloadOf(id, d, payments[i]))];
      if outcome.Ack? {
        return;
      }
      if outcome.HttpError? && 400 <= outcome.status < 500 {
        return;
      }
      if attempt < r.retries {
        slept := slept + Pow2(attempt - 1);
      }
      attempt := attempt + 1;
    }
  }

  /** After the first payment that is not accepted nothing more is posted. */
  lemma FailedAt(r: Remote, id: DealId, d: Deal, payments: seq<Payment>, i: nat)
    requires i < |payments| && AllAccepted(r, i) && !Accepted(r, i)
    ensures !AllAccepted(r, |payments|)
    ensures PostsUpTo(r, id, d, payments, |payments|) ==
              PostsUpTo(r, id, d, payments, i) + PostsAt(id, d, payments, i, LastAttempt(r, i))
    ensures WaitUpTo(r, |payments|) ==
              WaitUpTo(r, i) + if LastAttempt(r, i) >= 1 then Pow2(LastAttempt(r, i) - 1) - 1 else 0
  {
    NothingAfter(r, id, d, payments, i, |payments|);
  }

  lemma {:induction false} NothingAfter(r: Remote, id: DealId, d: Deal, payments: seq<Payment>, i: nat, n: nat)
    requires i < n <= |payments| && AllAccepted(r, i) && !Accepted(r, i)
    ensures PostsUpTo(r, id, d, payments, n) == PostsUpTo(r, id, d, payments, i + 1)
    ensures WaitUpTo(r, n) == WaitUpTo(r, i + 1)
  {
    if n > i + 1 {
      NothingAfter(r, id, d, payments, i, n - 1);
      assert !AllAccepted(r, n - 1);
    }
  }

  // ----- what is posted

  /** Exactly these attempts are posted: 1 to LastAttempt(i) at payment i, provided every earlier
      payment was accepted. */
  ghost predicate Posted(r: Remote, id: DealId, d: Deal, payments: seq<Payment>, n: nat, p: Post) {
    && p.payment < n <= |payments|
    && 1 <= p.attempt <= LastAttempt(r, p.payment)
    && AllAccepted(r, p.payment)
    && p.payload == PayloadOf(id, d, payments[p.payment])
  }

  lemma {:induction false} PostsAtMembers(id: DealId, d: Deal, payments: seq<Payment>, i: nat, k: nat)
    requires i < |payments|
    ensures |PostsAt(id, d, payments, i, k)| == k
    ensures forall a: nat :: a < k ==>
              PostsAt(id, d, payments, i, k)[a] == Post(i, a + 1, PayloadOf(id, d, payments[i]))
  {
    if k > 0 {
      PostsAtMembers(id, d, payments, i, k - 1);
    }
  }

  predicate Before(p: Post, q: Post) {
    p.payment < q.payment || (p.payment == q.payment && p.attempt < q.attempt)
  }

  /** The posts are exactly the permitted attempts, in payment then attempt order, each once. */
  lemma {:induction false} PostsAreExactly(r: Remote, id: DealId, d: Deal, payments: seq<Payment>, n: nat)
    requires n <= |payments|
    ensures var posts := PostsUpTo(r, id, d, payments, n);
      && (forall p :: p in posts <==> Posted(r, id, d, payments, n, p))
      && (forall x, y :: 0 <= x < y < |posts| ==> Before(posts[x], posts[y]))
  {
    if n > 0 {
      PostsAreExactly(r, id, d, payments, n - 1);
      var front := PostsUpTo(r, id, d, payments, n - 1);
      if AllAccepted(r, n - 1) {
        AppendPosts(r, id, d, payments, n, front);
      } else {
        assert PostsUpTo(r, id, d, payments, n) == front;
        assert forall p :: Posted(r, id, d, payments, n, p) ==> Posted(r, id, d, payments, n - 1, p);
      }
    }
  }

  /** Posts never exceed retries times the number of payments. */
  lemma {:induction false} PostsAreBounded(r: Remote, id: DealId, d: Deal, payments: seq<Payment>, n: nat)
    requires n <= |payments|
    ensures |PostsUpTo(r, id, d, payments, n)| <= n * if r.retries < 0 then 0 else r.retries
  {
    if n > 0 {
      PostsAreBounded(r, id, d, payments, n - 1);
      AcceptedIffLastAcknowledged(r, n - 1);
      PostsAtMembers(id, d, payments, n - 1, LastAttempt(r, n - 1));
      var most := if r.retries < 0 then 0 else r.retries;
      assert n * most == (n - 1) * most + most;
    }
  }

  lemma AppendPosts(r: Remote, id: DealId, d: Deal, payments: seq<Payment>, n: nat, front: seq<Post>)
    requires 0 < n <= |payments| && AllAccepted(r, n - 1)
    requires forall p :: p in front <==> Posted(r, id, d, payments, n - 1, p)
    requires forall x, y :: 0 <= x < y < |front| ==> Before(front[x], front[y])
    ensures var posts := front + PostsAt(id, d, payments, n - 1, LastAttempt(r, n - 1));
      && (forall p :: p in posts <==> Posted(r, id, d, payments, n, p))
      && (forall x, y :: 0 <= x < y < |posts| ==> Before(posts[x], posts[y]))
      && |posts| == |front| + LastAttempt(r, n - 1)
  {
    var k := LastAttempt(r, n - 1);
    PostsAtMembers(id, d, payments, n - 1, k);
    var last := PostsAt(id, d, payments, n - 1, k);
    forall x | 0 <= x < |front|
      ensures front[x].payment < n - 1
    {
      assert front[x] in front;
    }
    forall p | Posted(r, id, d, payments, n, p) && p.payment == n - 1
      ensures p in last
    {
      assert last[p.attempt - 1] == p;
    }
  }

  /** Once posting starts there is one point at which it ends: every payment before it was
      acknowledged by its last post and by no other, none of the posts at it was acknowledged, and
      nothing after it was posted. The hand-off succeeds exactly when that point is past the last
      payment. */
  lemma HandOffStopsAtOnePoint(r: Remote, id: DealId, d: Deal, payments: seq<Payment>)
    requires r.configured && r.tokenOk
    ensures StoppedAt(r, id, d, payments, AcceptedPrefix(r, |payments|))
    ensures SendSucceeds(r, payments) <==> AcceptedPrefix(r, |payments|) == |payments|
  {
    var i := AcceptedPrefix(r, |payments|);
    PrefixIsMaximal(r, |payments|);
    PostsAreExactly(r, id, d, payments, |payments|);
    forall p | p in SendPosts(r, id, d, payments)
      ensures p.payment <= i
      ensures r.reply(p.payment, p.attempt).Ack? <==> p.payment < i && p.attempt == LastAttempt(r, p.payment)
    {
      assert Posted(r, id, d, payments, |payments|, p);
      AcceptedIffLastAcknowledged(r, p.payment);
    }
    forall j: nat | j < i
      ensures Post(j, LastAttempt(r, j), PayloadOf(id, d, payments[j])) in SendPosts(r, id, d, payments)
    {
      AcceptedIffLastAcknowledged(r, j);
      assert Posted(r, id, d, payments, |payments|, Post(j, LastAttempt(r, j), PayloadOf(id, d, payments[j])));
    }
  }

  ghost predicate StoppedAt(r: Remote, id: DealId, d: Deal, payments: seq<Payment>, i: nat) {
    var posts := SendPosts(r, id, d, payments);
    && i <= |payments|
    && (forall p :: p in posts ==>
          && p.payment <= i
          && (r.reply(p.payment, p.attempt).Ack? <==> p.payment < i && p.attempt == LastAttempt(r, p.payment)))
    && forall j: nat :: j < i ==> Post(j, LastAttempt(r, j), PayloadOf(id, d, payments[j])) in posts
  }
}
