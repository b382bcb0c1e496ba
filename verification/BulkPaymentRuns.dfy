/** What one payout does to a list, and what every run of the contract keeps. */
module BulkPaymentRuns {
  import opened Wrappers
  import opened BulkPayment

  /** The first `k` payments are paid and the others pending: payouts go through a list front to back. */
  ghost predicate PaidPrefix(ps: seq<Payment>, k: nat) {
    && k <= |ps|
    && (forall i :: 0 <= i < k ==> ps[i].status.Paid?)
    && (forall i :: k <= i < |ps| ==> ps[i].status.Pending?)
  }

  function TransfersOf(route: Route, ps: seq<Payment>): (ts: seq<Transfer>)
    ensures |ts| == |ps| && forall i :: 0 <= i < |ts| ==> ts[i] == route.transfer(ps[i])
  {
    seq(|ps|, i requires 0 <= i < |ps| => route.transfer(ps[i]))
  }

  /** `qs` are the payments `ps`, the ones from `k` to `m` newly paid in this block and nothing else touched. */
  ghost predicate PaidFurther(ps: seq<Payment>, qs: seq<Payment>, k: nat, m: nat, height: nat) {
    && k <= m <= |ps| == |qs|
    && (forall i :: 0 <= i < |ps| ==> qs[i] == if k <= i < m then ps[i].(status := Paid(height)) else ps[i])
  }

  ghost predicate AllPayable(route: Route, ps: seq<Payment>) {
    forall i :: 0 <= i < |ps| ==> route.payable(ps[i].recipient)
  }

  /** What a payout that does not panic does: it pays the payments from `k` to `m`. */
  ghost predicate Pays(ps: seq<Payment>, k: nat, m: nat, route: Route, ctx: Context, checks: nat, r: Payout) {
    && k <= m <= |ps|
    && r.Done?
    && PaidFurther(ps, r.payments, k, m, ctx.blockHeight)
    && r.transfers == TransfersOf(route, ps[k..m])
    && AllPayable(route, ps[k..m])
    // it stops before the end only for lack of gas
    && (m < |ps| ==> ctx.gas(checks + m - k) < route.gasNeeded)
  }

  lemma PaysOverPaid(p: Payment, ps: seq<Payment>, k: nat, m: nat, route: Route, ctx: Context, checks: nat, r: Payout)
    requires Pays(ps, k, m, route, ctx, checks, r)
    ensures Pays([p] + ps, k + 1, m + 1, route, ctx, checks, After([p], [], r))
  {
    assert ([p] + ps)[k + 1..m + 1] == ps[k..m];
    assert checks + (m + 1) - (k + 1) == checks + m - k;
  }

  lemma PaysOneMore(p: Payment, ps: seq<Payment>, m: nat, route: Route, ctx: Context, checks: nat, r: Payout)
    requires Pays(ps, 0, m, route, ctx, checks + 1, r) && route.payable(p.recipient)
    ensures Pays([p] + ps, 0, m + 1, route, ctx, checks,
                 After([p.(status := Paid(ctx.blockHeight))], [route.transfer(p)], r))
  {
    assert ([p] + ps)[0..m + 1] == [p] + ps[0..m];
    assert checks + 1 + m - 0 == checks + (m + 1) - 0;
  }

  lemma PaysNothing(ps: seq<Payment>, route: Route, ctx: Context, checks: nat)
    requires ps != [] ==> ctx.gas(checks) < route.gasNeeded
    ensures Pays(ps, 0, 0, route, ctx, checks, Done(ps, []))
  {
    assert checks + 0 - 0 == checks;
  }

  lemma PaidPrefixTail(ps: seq<Payment>, k: nat)
    requires PaidPrefix(ps, k) && 0 < k
    ensures PaidPrefix(ps[1..], k - 1) && ps[0].status.Paid? && ps == [ps[0]] + ps[1..]
  {
  }

  lemma PassesOver(ps: seq<Payment>, k: nat, m: nat, route: Route, ctx: Context, checks: nat, found: bool)
    requires ps != [] && ps[0].status.Paid? && 0 < k && 0 < m
    requires Pays(ps[1..], k - 1, m - 1, route, ctx, checks, PayFrom(ps[1..], route, ctx, checks, found))
    ensures Pays(ps, k, m, route, ctx, checks, PayFrom(ps, route, ctx, checks, found))
  {
    PaysOverPaid(ps[0], ps[1..], k - 1, m - 1, route, ctx, checks, PayFrom(ps[1..], route, ctx, checks, found));
    assert ps == [ps[0]] + ps[1..];
  }

  /** Over pending payments only, gas decides how far a payout gets. */
  lemma {:induction false} PayPending(ps: seq<Payment>, route: Route, ctx: Context, checks: nat, found: bool)
    returns (m: nat)
    requires PaidPrefix(ps, 0) && PayFrom(ps, route, ctx, checks, found).Done?
    ensures Pays(ps, 0, m, route, ctx, checks, PayFrom(ps, route, ctx, checks, found))
    ensures ps != [] && !found ==> 0 < m
  {
    if ps == [] || ctx.gas(checks) < route.gasNeeded {
      PaysNothing(ps, route, ctx, checks);
      m := 0;
    } else {
      assert ps == [ps[0]] + ps[1..];
      var n := PayPending(ps[1..], route, ctx, checks + 1, true);
      PaysOneMore(ps[0], ps[1..], n, route, ctx, checks, PayFrom(ps[1..], route, ctx, checks + 1, true));
      m := n + 1;
    }
  }

  /**
   * A payout on a list paid up to `k` pays exactly the payments from `k` to some `m`, sends exactly their transfers
   * in that order, and pays at least one if any is pending; it stops short of the end only for lack of gas.
   */
  lemma {:induction false} PayoutPaysPrefix(ps: seq<Payment>, k: nat, route: Route, ctx: Context, checks: nat,
                                            found: bool)
    returns (m: nat)
    requires PaidPrefix(ps, k) && PayFrom(ps, route, ctx, checks, found).Done?
    ensures Pays(ps, k, m, route, ctx, checks, PayFrom(ps, route, ctx, checks, found))
    ensures k < |ps| && !found ==> k < m
  {
    if k == 0 {
      m := PayPending(ps, route, ctx, checks, found);
    } else {
      PaidPrefixTail(ps, k);
      m := PayoutPaysPrefix(ps[1..], k - 1, route, ctx, checks, found);
      m := m + 1;
      PassesOver(ps, k, m, route, ctx, checks, found);
    }
  }

  lemma PaidFurtherPrefix(ps: seq<Payment>, qs: seq<Payment>, k: nat, m: nat, height: nat)
    requires PaidPrefix(ps, k) && PaidFurther(ps, qs, k, m, height)
    ensures PaidPrefix(qs, m)
  {
  }

  // ---------------------------------------------------------------------------
  // What every run keeps.
  // ---------------------------------------------------------------------------

  /** The transfers sent for one list, in order. */
  function SentFor(sent: seq<Sent>, id: string): seq<Transfer> {
    if sent == [] then []
    else
      var last := sent[|sent| - 1];
      SentFor(sent[..|sent| - 1], id) + if last.listId == id then [last.transfer] else []
  }

  /** How many records the lists of an account hold. */
  function RecordsOf(lists: map<string, PaymentList>, ids: seq<string>, account: string): nat {
    if ids == [] then 0
    else
      var id := ids[|ids| - 1];
      RecordsOf(lists, ids[..|ids| - 1], account)
      + if id in lists && lists[id].submitter == account then |lists[id].payments| else 0
  }

  /** `ids` lists the keys of the map, each once. */
  ghost predicate Listed(ids: seq<string>, lists: map<string, PaymentList>) {
    && (forall id :: id in lists <==> id in ids)
    && (forall i, j :: 0 <= i < j < |ids| ==> ids[i] != ids[j])
  }

  /** The credits of every account and the records of its lists add up to what was bought for it. */
  ghost predicate Books(ids: seq<string>, lists: map<string, PaymentList>, credits: map<string, nat>,
                        bought: map<string, nat>)
  {
    && Listed(ids, lists)
    && (forall account :: Count(credits, account) + RecordsOf(lists, ids, account) == Count(bought, account))
  }

  /** `list` is paid up to `k`: what was sent for it is exactly what is marked paid, in order, and each was payable. */
  ghost predicate PaidUpTo(list: PaymentList, transfers: seq<Transfer>, k: nat) {
    && PaidPrefix(list.payments, k)
    && transfers == TransfersOf(RouteOf(list.tokenId), list.payments[..k])
    && AllPayable(RouteOf(list.tokenId), list.payments[..k])
    && (list.status != Approved ==> k == 0)
  }

  ghost predicate ListInv(w: World, id: string) {
    if id in w.lists then
      && IsListId(id) && w.lists[id].payments != []
      && (exists k: nat :: PaidUpTo(w.lists[id], SentFor(w.sent, id), k))
      // the call that approved a list brought its total, in whatever asset; other lists were brought nothing
      && (id in w.receipts <==> w.lists[id].status == Approved)
      && (id in w.receipts ==> w.receipts[id].amount == Total(w.lists[id].payments))
    else SentFor(w.sent, id) == [] && id !in w.receipts
  }

  ghost predicate Inv(w: World) {
    Books(w.ids, w.lists, w.credits, w.bought) && forall id :: ListInv(w, id)
  }

  lemma {:induction false} SentForAppend(sent: seq<Sent>, more: seq<Sent>, id: string)
    ensures SentFor(sent + more, id) == SentFor(sent, id) + SentFor(more, id)
  {
    if more == [] {
      assert sent + more == sent;
    } else {
      var n := |more| - 1;
      SentForAppend(sent, more[..n], id);
      assert (sent + more)[..|sent| + n] == sent + more[..n];
    }
  }

  lemma {:induction false} SentForTags(listId: string, ts: seq<Transfer>, id: string)
    ensures SentFor(Tags(listId, ts), id) == if listId == id then ts else []
  {
    if ts != [] {
      var n := |ts| - 1;
      SentForTags(listId, ts[..n], id);
      assert Tags(listId, ts)[..n] == Tags(listId, ts[..n]);
      assert ts == ts[..n] + [ts[n]];
    }
  }

  ghost predicate SameRecords(lists: map<string, PaymentList>, lists': map<string, PaymentList>, id: string) {
    && id in lists && id in lists'
    && lists[id].submitter == lists'[id].submitter && |lists[id].payments| == |lists'[id].payments|
  }

  lemma {:induction false} RecordsSame(lists: map<string, PaymentList>, lists': map<string, PaymentList>,
                                       ids: seq<string>, account: string)
    requires forall id :: id in ids ==> SameRecords(lists, lists', id)
    ensures RecordsOf(lists, ids, account) == RecordsOf(lists', ids, account)
  {
    if ids != [] {
      var n := |ids| - 1;
      assert ids[n] in ids;
      RecordsSame(lists, lists', ids[..n], account);
    }
  }

  /** Changing a list without touching its submitter or length keeps the books. */
  lemma BooksAfterChange(w: World, id: string, list: PaymentList)
    requires Books(w.ids, w.lists, w.credits, w.bought) && id in w.lists
    requires list.submitter == w.lists[id].submitter && |list.payments| == |w.lists[id].payments|
    ensures Books(w.ids, w.lists[id := list], w.credits, w.bought)
  {
    forall account ensures RecordsOf(w.lists[id := list], w.ids, account) == RecordsOf(w.lists, w.ids, account) {
      RecordsSame(w.lists, w.lists[id := list], w.ids, account);
    }
  }

  lemma RecordsAfterSubmit(lists: map<string, PaymentList>, ids: seq<string>, id: string, list: PaymentList,
                           account: string)
    requires id !in lists && id !in ids && forall other :: other in ids ==> other in lists
    ensures RecordsOf(lists[id := list], ids + [id], account)
            == RecordsOf(lists, ids, account) + if list.submitter == account then |list.payments| else 0
  {
    assert (ids + [id])[..|ids|] == ids;
    RecordsSame(lists, lists[id := list], ids, account);
  }

  lemma ListedAfterSubmit(ids: seq<string>, lists: map<string, PaymentList>, id: string, list: PaymentList)
    requires Listed(ids, lists) && id !in lists
    ensures Listed(ids + [id], lists[id := list])
  {
  }

  lemma BooksAfterSubmit(w: World, id: string, list: PaymentList)
    requires Books(w.ids, w.lists, w.credits, w.bought) && id !in w.lists
    requires |list.payments| <= Count(w.credits, list.submitter)
    ensures var w' := Submitted(w, id, list); Books(w'.ids, w'.lists, w'.credits, w'.bought)
  {
    ListedAfterSubmit(w.ids, w.lists, id, list);
    forall account
      ensures var w' := Submitted(w, id, list);
              Count(w'.credits, account) + RecordsOf(w'.lists, w'.ids, account) == Count(w'.bought, account)
    {
      AccountAfterSubmit(w, id, list, account);
    }
  }

  lemma AccountAfterSubmit(w: World, id: string, list: PaymentList, account: string)
    requires Books(w.ids, w.lists, w.credits, w.bought) && id !in w.lists
    requires |list.payments| <= Count(w.credits, list.submitter)
    ensures var w' := Submitted(w, id, list);
            Count(w'.credits, account) + RecordsOf(w'.lists, w'.ids, account) == Count(w'.bought, account)
  {
    RecordsAfterSubmit(w.lists, w.ids, id, list, account);
    CountAfterTaking(w.credits, list.submitter, |list.payments|, account);
    assert Count(w.credits, account) + RecordsOf(w.lists, w.ids, account) == Count(w.bought, account);
  }

  lemma CountAfterTaking(credits: map<string, nat>, owner: string, n: nat, account: string)
    requires n <= Count(credits, owner)
    ensures Count(credits[owner := Count(credits, owner) - n], account)
            == Count(credits, account) - if account == owner then n else 0
  {
  }

  /** A status or payout step on one list leaves the invariant of every other list alone. */
  lemma OthersKept(w: World, w': World, id: string, ts: seq<Transfer>)
    requires forall other :: ListInv(w, other)
    requires w'.sent == w.sent + Tags(id, ts)
    requires forall other :: other != id ==> (other in w'.lists <==> other in w.lists)
                                             && (other in w.lists ==> w'.lists[other] == w.lists[other])
    requires forall other :: other != id ==> (other in w'.receipts <==> other in w.receipts)
                                             && (other in w.receipts ==> w'.receipts[other] == w.receipts[other])
    ensures forall other :: other != id ==> ListInv(w', other)
    ensures SentFor(w'.sent, id) == SentFor(w.sent, id) + ts
  {
    forall other ensures SentFor(w'.sent, other) == SentFor(w.sent, other) + if other == id then ts else [] {
      SentForAppend(w.sent, Tags(id, ts), other);
      SentForTags(id, ts, other);
    }
    forall other | other != id ensures ListInv(w', other) {
      assert ListInv(w, other);
      assert SentFor(w'.sent, other) == SentFor(w.sent, other);
    }
  }

  lemma ApproveKeepsInv(w: World, id: string, received: Funds)
    requires Inv(w) && id in w.lists && Approve(w, id, received).Ok?
    ensures Inv(Approve(w, id, received).world)
  {
    var w' := Approve(w, id, received).world;
    assert ListInv(w, id);
    BooksAfterChange(w, id, w'.lists[id]);
    assert w'.sent == w.sent + Tags(id, []);
    OthersKept(w, w', id, []);
    var k: nat :| PaidUpTo(w.lists[id], SentFor(w.sent, id), k);
    assert PaidUpTo(w'.lists[id], SentFor(w'.sent, id), k);
    assert ListInv(w', id);
  }

  lemma RejectKeepsInv(w: World, id: string)
    requires Inv(w) && id in w.lists && w.lists[id].status == AwaitingApproval
    ensures Inv(WithStatus(w, id, Rejected))
  {
    var w' := WithStatus(w, id, Rejected);
    assert ListInv(w, id);
    BooksAfterChange(w, id, w'.lists[id]);
    assert w'.sent == w.sent + Tags(id, []);
    OthersKept(w, w', id, []);
    var k: nat :| PaidUpTo(w.lists[id], SentFor(w.sent, id), k);
    assert PaidUpTo(w'.lists[id], SentFor(w'.sent, id), k);
    assert ListInv(w', id);
  }

  lemma SubmittedOthers(w: World, id: string, list: PaymentList)
    requires (forall other :: ListInv(w, other)) && id !in w.lists
    requires |list.payments| <= Count(w.credits, list.submitter)
    ensures forall other :: other != id ==> ListInv(Submitted(w, id, list), other)
  {
    assert w.sent == w.sent + Tags(id, []);
    OthersKept(w, Submitted(w, id, list), id, []);
  }

  lemma SubmittedOwn(w: World, id: string, list: PaymentList)
    requires ListInv(w, id) && id !in w.lists && IsListId(id)
    requires list.payments != [] && list.status == AwaitingApproval && PaidPrefix(list.payments, 0)
    requires |list.payments| <= Count(w.credits, list.submitter)
    ensures ListInv(Submitted(w, id, list), id)
  {
    assert PaidUpTo(list, SentFor(w.sent, id), 0);
  }

  lemma SubmitKeepsInv(w: World, id: string, list: PaymentList)
    requires Inv(w) && id !in w.lists && IsListId(id)
    requires list.payments != [] && list.status == AwaitingApproval && PaidPrefix(list.payments, 0)
    requires |list.payments| <= Count(w.credits, list.submitter)
    ensures Inv(Submitted(w, id, list))
  {
    BooksAfterSubmit(w, id, list);
    SubmittedOthers(w, id, list);
    SubmittedOwn(w, id, list);
  }

  lemma {:induction false} TotalSame(ps: seq<Payment>, qs: seq<Payment>)
    requires |ps| == |qs| && forall i :: 0 <= i < |ps| ==> ps[i].amount == qs[i].amount
    ensures Total(ps) == Total(qs)
  {
    if ps != [] {
      TotalSame(ps[..|ps| - 1], qs[..|qs| - 1]);
    }
  }

  lemma PaidUpToFurther(list: PaymentList, sent: seq<Transfer>, qs: seq<Payment>, ts: seq<Transfer>, k: nat, m: nat,
                        height: nat)
    requires PaidUpTo(list, sent, k) && list.status == Approved
    requires PaidFurther(list.payments, qs, k, m, height)
    requires ts == TransfersOf(RouteOf(list.tokenId), list.payments[k..m])
    requires AllPayable(RouteOf(list.tokenId), list.payments[k..m])
    // a transfer says who is paid how much, not whether it was recorded yet
    requires forall p, s :: RouteOf(list.tokenId).transfer(p) == RouteOf(list.tokenId).transfer(p.(status := s))
    ensures PaidUpTo(list.(payments := qs), sent + ts, m)
  {
    var ps, route := list.payments, RouteOf(list.tokenId);
    forall i | 0 <= i < m
      ensures (sent + ts)[i] == route.transfer(qs[..m][i]) && route.payable(qs[..m][i].recipient)
    {
      if i < k {
        assert ps[..k][i] == qs[i];
      } else {
        assert ps[k..m][i - k] == ps[i] && qs[i] == ps[i].(status := Paid(height));
      }
    }
    assert sent + ts == TransfersOf(route, qs[..m]);
  }

  lemma TransferIgnoresStatus(tokenId: string, p: Payment, s: PaymentStatus)
    ensures RouteOf(tokenId).transfer(p) == RouteOf(tokenId).transfer(p.(status := s))
  {
  }

  /** Recording payments from `k` to `m` with their transfers keeps the invariant. */
  lemma PaidOutKeepsInv(w: World, id: string, qs: seq<Payment>, ts: seq<Transfer>, k: nat, m: nat, height: nat)
    requires Inv(w) && id in w.lists && w.lists[id].status == Approved
    requires PaidFurther(w.lists[id].payments, qs, k, m, height)
    requires PaidUpTo(w.lists[id].(payments := qs), SentFor(w.sent, id) + ts, m)
    ensures Inv(PaidOut(w, id, qs, ts))
  {
    var w' := PaidOut(w, id, qs, ts);
    assert ListInv(w, id);
    BooksAfterChange(w, id, w'.lists[id]);
    OthersKept(w, w', id, ts);
    TotalSame(w.lists[id].payments, qs);
    assert PaidUpTo(w'.lists[id], SentFor(w'.sent, id), m);
    assert ListInv(w', id);
  }

  lemma PayoutKeepsInv(w: World, ctx: Context, id: string)
    requires Inv(w) && BatchPayout(w, ctx, id).Ok?
    ensures Inv(BatchPayout(w, ctx, id).world)
  {
    var list := w.lists[id];
    var route := RouteOf(list.tokenId);
    var r := PayFrom(list.payments, route, ctx, 0, false);
    assert ListInv(w, id);
    var k: nat :| PaidUpTo(list, SentFor(w.sent, id), k);
    var m := PayoutPaysPrefix(list.payments, k, route, ctx, 0, false);
    forall p, s ensures route.transfer(p) == route.transfer(p.(status := s)) {
      TransferIgnoresStatus(list.tokenId, p, s);
    }
    PaidFurtherPrefix(list.payments, r.payments, k, m, ctx.blockHeight);
    PaidUpToFurther(list, SentFor(w.sent, id), r.payments, r.transfers, k, m, ctx.blockHeight);
    PaidOutKeepsInv(w, id, r.payments, r.transfers, k, m, ctx.blockHeight);
  }

  lemma BuyKeepsInv(w: World, account: string, n: nat)
    requires Inv(w)
    ensures Inv(Bought(w, account, n))
  {
    forall id ensures ListInv(Bought(w, account, n), id) {
      assert ListInv(w, id);
    }
  }

  lemma PurchaseKeepsInv(w: World, ctx: Context, n: nat, beneficiary: Option<string>)
    requires Inv(w) && Purchase(w, ctx, n, beneficiary).Ok?
    ensures Inv(Purchase(w, ctx, n, beneficiary).world)
  {
    BuyKeepsInv(w, if beneficiary.Some? then beneficiary.value else ctx.predecessor, n);
  }

  lemma SubmissionKeepsInv(w: World, ctx: Context, id: string, tokenId: string, inputs: seq<PaymentInput>,
                           submitterId: Option<string>)
    requires Inv(w) && Submission(w, ctx, id, tokenId, inputs, submitterId).Ok?
    ensures Inv(Submission(w, ctx, id, tokenId, inputs, submitterId).world)
  {
    SubmitKeepsInv(w, id, Submission(w, ctx, id, tokenId, inputs, submitterId).world.lists[id]);
  }

  lemma ExecKeepsInv(w: World, ctx: Context, call: Call)
    requires Inv(w)
    ensures Inv(Exec(w, ctx, call))
  {
    if Apply(w, ctx, call).Ok? {
      match call
      case BuyStorage(n, beneficiary) => PurchaseKeepsInv(w, ctx, n, beneficiary);
      case SubmitList(id, tokenId, inputs, submitterId) => SubmissionKeepsInv(w, ctx, id, tokenId, inputs, submitterId);
      case ApproveList(id) => ApproveKeepsInv(w, id, Funds(Near, ctx.deposit));
      case FtOnTransfer(sender, amount, id) => ApproveKeepsInv(w, id, Funds(Token(ctx.predecessor), amount));
      case MtOnTransfer(tokenIds, amounts, id) =>
        ApproveKeepsInv(w, id, Funds(MultiToken(ctx.predecessor, tokenIds[0]), amounts[0]));
      case PayoutBatch(id) => PayoutKeepsInv(w, ctx, id);
      case RejectList(id) => RejectKeepsInv(w, id);
    }
  }

  lemma {:induction false} RunKeepsInv(calls: seq<(Context, Call)>)
    ensures Inv(Run(calls))
  {
    if calls == [] {
      forall account ensures RecordsOf(START.lists, START.ids, account) == 0 {
      }
    } else {
      RunKeepsInv(calls[..|calls| - 1]);
      ExecKeepsInv(Run(calls[..|calls| - 1]), calls[|calls| - 1].0, calls[|calls| - 1].1);
    }
  }

  // ---------------------------------------------------------------------------
  // Credits and payments.
  // ---------------------------------------------------------------------------

  /** In every run each account's credits and the records of its lists add up to the records bought for it. */
  lemma CreditsConserved(calls: seq<(Context, Call)>, account: string)
    ensures var w := Run(calls);
            Count(w.credits, account) + RecordsOf(w.lists, w.ids, account) == Count(w.bought, account)
  {
    RunKeepsInv(calls);
  }

  // ---------------------------------------------------------------------------
  // How a list may change.
  // ---------------------------------------------------------------------------

  ghost predicate PaymentEvolves(p: Payment, q: Payment) {
    q.recipient == p.recipient && q.amount == p.amount && (p.status.Paid? ==> q == p)
  }

  /** Approval and rejection are final, and the order, the recipients, the amounts and past payments are fixed. */
  ghost predicate Evolves(a: PaymentList, b: PaymentList) {
    && b.tokenId == a.tokenId && b.submitter == a.submitter && b.createdAt == a.createdAt
    && (a.status != AwaitingApproval ==> b.status == a.status)
    && |b.payments| == |a.payments|
    && (forall i :: 0 <= i < |a.payments| ==> PaymentEvolves(a.payments[i], b.payments[i]))
    && (b.status != Approved ==> b.payments == a.payments)
  }

  lemma EvolvesTransitive(a: PaymentList, b: PaymentList, c: PaymentList)
    requires Evolves(a, b) && Evolves(b, c)
    ensures Evolves(a, c)
  {
    forall i | 0 <= i < |a.payments| ensures PaymentEvolves(a.payments[i], c.payments[i]) {
      assert PaymentEvolves(a.payments[i], b.payments[i]) && PaymentEvolves(b.payments[i], c.payments[i]);
    }
  }

  lemma {:induction false} PayFromEvolves(ps: seq<Payment>, route: Route, ctx: Context, checks: nat, found: bool)
    requires PayFrom(ps, route, ctx, checks, found).Done?
    ensures var qs := PayFrom(ps, route, ctx, checks, found).payments;
            |qs| == |ps| && forall i :: 0 <= i < |ps| ==> PaymentEvolves(ps[i], qs[i])
  {
    if ps != [] {
      if ps[0].status.Paid? {
        PayFromEvolves(ps[1..], route, ctx, checks, found);
      } else if ctx.gas(checks) >= route.gasNeeded {
        PayFromEvolves(ps[1..], route, ctx, checks + 1, true);
      }
    }
  }

  lemma PayoutEvolves(w: World, ctx: Context, listId: string, id: string)
    requires id in w.lists && BatchPayout(w, ctx, listId).Ok?
    ensures Evolves(w.lists[id], BatchPayout(w, ctx, listId).world.lists[id])
  {
    PayFromEvolves(w.lists[listId].payments, RouteOf(w.lists[listId].tokenId), ctx, 0, false);
  }

  lemma ExecEvolves(w: World, ctx: Context, call: Call, id: string)
    requires id in w.lists
    ensures id in Exec(w, ctx, call).lists && Evolves(w.lists[id], Exec(w, ctx, call).lists[id])
  {
    if Apply(w, ctx, call).Ok? {
      match call
      case PayoutBatch(listId) => PayoutEvolves(w, ctx, listId, id);
      case _ =>
    }
  }

  /** Between any two moments of a run a list only evolves. */
  lemma {:induction false} RunEvolves(calls: seq<(Context, Call)>, i: nat, id: string)
    requires i <= |calls| && id in Run(calls[..i]).lists
    ensures id in Run(calls).lists && Evolves(Run(calls[..i]).lists[id], Run(calls).lists[id])
  {
    if i == |calls| {
      assert calls[..i] == calls;
    } else {
      var n := |calls| - 1;
      assert calls[..n][..i] == calls[..i];
      RunEvolves(calls[..n], i, id);
      ExecEvolves(Run(calls[..n]), calls[n].0, calls[n].1, id);
      EvolvesTransitive(Run(calls[..i]).lists[id], Run(calls[..n]).lists[id], Run(calls).lists[id]);
    }
  }

  // ---------------------------------------------------------------------------
  // Which calls approve and reject.
  // ---------------------------------------------------------------------------

  /**
   * The calls that approve a waiting list, from the accounts that can make them: its submitter with NEAR; any account
   * that names the submitter as the sender of tokens; any account that names the list's token.
   */
  ghost predicate ApprovesWithTotal(list: PaymentList, ctx: Context, call: Call, id: string) {
    match call
    case ApproveList(i) => i == id && ctx.predecessor == list.submitter && ctx.deposit == Total(list.payments)
    case FtOnTransfer(sender, amount, msg) =>
      msg == id && ctx.deposit == 0 && sender == list.submitter && amount == Total(list.payments)
    case MtOnTransfer(tokenIds, amounts, msg) =>
      msg == id && ctx.deposit == 0 && tokenIds == [list.tokenId] && amounts == [Total(list.payments)]
    case _ => false
  }

  ghost predicate RejectsAsSubmitter(list: PaymentList, ctx: Context, call: Call, id: string) {
    call == RejectList(id) && ctx.deposit == 0 && ctx.predecessor == list.submitter
  }

  lemma ApproveDecides(w: World, target: string, received: Funds, id: string)
    requires id in w.lists && target in w.lists && w.lists[id].status == AwaitingApproval
    ensures var o := Approve(w, target, received);
            o.Ok? ==> id in o.world.lists && o.world.lists[id].status != Rejected
                      && (o.world.lists[id].status == Approved <==> target == id)
    ensures target == id ==>
              (Approve(w, target, received).Ok?
               <==> received.amount == Total(w.lists[id].payments) && Total(w.lists[id].payments) < U128)
  {
  }

  lemma CallDecides(w: World, ctx: Context, call: Call, id: string)
    requires id in w.lists && IsListId(id) && w.lists[id].status == AwaitingApproval
    ensures var list, w' := w.lists[id], Exec(w, ctx, call);
            && id in w'.lists
            && (w'.lists[id].status == Approved
                <==> ApprovesWithTotal(list, ctx, call, id) && Total(list.payments) < U128)
            && (w'.lists[id].status == Rejected <==> RejectsAsSubmitter(list, ctx, call, id))
  {
    match call
    case BuyStorage(n, beneficiary) =>
    case SubmitList(i, tokenId, inputs, submitterId) =>
    case ApproveList(i) =>
      if i in w.lists { ApproveDecides(w, i, Funds(Near, ctx.deposit), id); }
    case FtOnTransfer(sender, amount, i) =>
      if i in w.lists { ApproveDecides(w, i, Funds(Token(ctx.predecessor), amount), id); }
    case MtOnTransfer(tokenIds, amounts, i) =>
      if i in w.lists && |tokenIds| == |amounts| == 1 {
        ApproveDecides(w, i, Funds(MultiToken(ctx.predecessor, tokenIds[0]), amounts[0]), id);
      }
    case PayoutBatch(i) =>
    case RejectList(i) =>
  }

  /** Exactly these calls approve a list that awaits approval, and exactly its submitter's `reject_list` rejects it. */
  lemma DecidedIff(calls: seq<(Context, Call)>, ctx: Context, call: Call, id: string)
    requires id in Run(calls).lists && Run(calls).lists[id].status == AwaitingApproval
    ensures var list, w' := Run(calls).lists[id], Exec(Run(calls), ctx, call);
            && id in w'.lists
            && (w'.lists[id].status == Approved
                <==> ApprovesWithTotal(list, ctx, call, id) && Total(list.payments) < U128)
            && (w'.lists[id].status == Rejected <==> RejectsAsSubmitter(list, ctx, call, id))
  {
    RunKeepsInv(calls);
    assert ListInv(Run(calls), id);
    CallDecides(Run(calls), ctx, call, id);
  }

  /** Only an account itself or the contract account can spend its credits, one for each record of a new list. */
  lemma CreditsSpentBy(w: World, ctx: Context, call: Call, account: string)
    requires Count(Exec(w, ctx, call).credits, account) < Count(w.credits, account)
    ensures ctx.predecessor == account || ctx.predecessor == ctx.current
    ensures call.SubmitList? && call.listId !in w.lists
    ensures Count(w.credits, account) == Count(Exec(w, ctx, call).credits, account) + |call.inputs|
  {
    match call
    case SubmitList(id, tokenId, inputs, submitterId) =>
    case BuyStorage(n, beneficiary) =>
    case _ =>
  }
}
