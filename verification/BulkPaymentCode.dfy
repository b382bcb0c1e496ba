/** The contract's methods: each keeps the invariant of all runs and says what its caller finds changed. */
module BulkPaymentCode {
  import opened BulkPayment
  import opened BulkPaymentFunds
  import opened BulkPaymentProgress
  import opened BulkPaymentRuns
  import opened BulkPaymentTransfers
  import opened Wrappers

  datatype Result = Returned(value: nat) | Panicked(error: Error)

  /** A call with outcome `o` answered `r` and took the world from `w` to `w'`. */
  ghost predicate Answers(o: Outcome, r: Result, w: World, w': World) {
    match o
    case Ok(next, value) => r == Returned(value) && w' == next
    case Panic(error) => r == Panicked(error) && w' == w
  }

  lemma {:induction false} TotalOfPrefix(ps: seq<Payment>, i: nat)
    requires i <= |ps|
    ensures Total(ps[..i]) <= Total(ps)
    decreases |ps|
  {
    if i < |ps| {
      TotalOfPrefix(ps[..|ps| - 1], i);
      assert ps[..|ps| - 1][..i] == ps[..i];
    } else {
      assert ps[..i] == ps;
    }
  }

  /** The checked sum of the amounts. */
  method TotalAmount(ps: seq<Payment>) returns (total: Option<nat>)
    ensures total == if Total(ps) < U128 then Some(Total(ps)) else None
  {
    var acc := 0;
    for i := 0 to |ps|
      invariant acc == Total(ps[..i])
    {
      assert ps[..i + 1][..i] == ps[..i];
      TotalOfPrefix(ps, i + 1);
      if acc + ps[i].amount >= U128 {
        return None;
      }
      acc := acc + ps[i].amount;
    }
    assert ps[..|ps|] == ps;
    TotalOfPrefix(ps, |ps|);
    total := if acc < U128 then Some(acc) else None;
  }

  lemma AfterTwice(a: seq<Payment>, s: seq<Transfer>, b: seq<Payment>, t: seq<Transfer>, r: Payout)
    ensures After(a, s, After(b, t, r)) == After(a + b, s + t, r)
  {
    if r.Done? {
      assert a + (b + r.payments) == (a + b) + r.payments;
      assert s + (t + r.transfers) == (s + t) + r.transfers;
    }
  }

  /** The loop over the payments; the call's changes are made only after it. */
  method PayLoop(ps: seq<Payment>, route: Route, ctx: Context) returns (r: Payout)
    ensures r == PayFrom(ps, route, ctx, 0, false)
  {
    var payments: seq<Payment> := ps;
    var transfers: seq<Transfer> := [];
    var checks := 0;
    var firstPendingFound := false;
    for i := 0 to |ps|
      invariant |payments| == |ps| && payments[i..] == ps[i..]
      invariant PayFrom(ps, route, ctx, 0, false)
                == After(payments[..i], transfers, PayFrom(ps[i..], route, ctx, checks, firstPendingFound))
    {
      var p := payments[i];
      ghost var tail := ps[i..];
      assert tail[0] == p && tail[1..] == ps[i + 1..];
      if p.status.Pending? {
        if ctx.gas(checks) < route.gasNeeded {
          if !firstPendingFound {
            return Aborted(InsufficientGas);
          }
          assert payments == payments[..i] + ps[i..];
          return Done(payments, transfers);
        }
        checks := checks + 1;
        firstPendingFound := true;
        if !route.payable(p.recipient) {
          return Aborted(route.failure);
        }
        var paid := p.(status := Paid(ctx.blockHeight));
        AfterTwice(payments[..i], transfers, [paid], [route.transfer(p)],
                   PayFrom(ps[i + 1..], route, ctx, checks, true));
        transfers := transfers + [route.transfer(p)];
        payments := payments[i := paid];
        assert payments[..i + 1] == payments[..i] + [paid];
      } else {
        AfterTwice(payments[..i], transfers, [p], [], PayFrom(ps[i + 1..], route, ctx, checks, firstPendingFound));
        assert payments[..i + 1] == payments[..i] + [p];
        assert transfers + [] == transfers;
      }
    }
    assert payments[..|ps|] == payments;
    r := Done(payments, transfers);
  }

  // ---------------------------------------------------------------------------
  // What callers find changed.
  // ---------------------------------------------------------------------------

  /** One account's credits changed by `change`, everybody else's are as before. */
  ghost predicate Credited(before: map<string, nat>, after: map<string, nat>, account: string, change: int) {
    forall a :: Count(after, a) == Count(before, a) + if a == account then change else 0
  }

  /** One list that awaited approval has a new status and is otherwise as before, like all other lists. */
  ghost predicate Decided(before: map<string, PaymentList>, after: map<string, PaymentList>, id: string,
                          status: ListStatus)
  {
    && id in before && before[id].status == AwaitingApproval
    && after == before[id := before[id].(status := status)]
  }

  /** The list holds the inputs in order, each still to be paid. */
  ghost predicate HoldsInputs(list: PaymentList, inputs: seq<PaymentInput>) {
    && |list.payments| == |inputs|
    && forall i :: 0 <= i < |inputs| ==>
         list.payments[i] == Payment(inputs[i].recipient, inputs[i].amount, Pending)
  }

  /** In one list the payments from `k` to `m` were paid, after all before them, and their transfers sent in order. */
  ghost predicate PaidBetween(before: World, after: World, id: string, k: nat, m: nat, height: nat) {
    && id in before.lists && id in after.lists
    && var list, payments := before.lists[id], after.lists[id].payments;
       && PaidPrefix(list.payments, k) && PaidFurther(list.payments, payments, k, m, height)
       && after.sent == before.sent + Tags(id, TransfersOf(RouteOf(list.tokenId), list.payments[k..m]))
       && after == before.(lists := before.lists[id := list.(payments := payments)], sent := after.sent)
  }

  function AccountOr(account: Option<string>, ctx: Context): string {
    if account.Some? then account.value else ctx.predecessor
  }

  /**
   * A purchase goes through exactly with the exact price of a number of records that can be priced and credited;
   * the beneficiary's credits then grow by that number, and no list and no transfer changes.
   */
  ghost predicate Purchased(w: World, w': World, ctx: Context, n: nat, account: string, r: Result) {
    && (r.Returned? <==>
          0 < n <= 14321648439433437 && ctx.deposit == n * RECORD_PRICE && Count(w.credits, account) + n < U128)
    && (r.Returned? ==>
          && r.value == ctx.deposit && Credited(w.credits, w'.credits, account, n)
          && w' == w.(credits := w'.credits, bought := w'.bought))
    && (r.Panicked? ==> w' == w)
  }

  lemma PurchaseAnswered(w: World, w': World, ctx: Context, n: nat, beneficiary: Option<string>, r: Result)
    requires Inv(w) && Answers(Purchase(w, ctx, n, beneficiary), r, w, w')
    ensures Answers(Apply(w, ctx, BuyStorage(n, beneficiary)), r, w, w')
    ensures Inv(w') && Purchased(w, w', ctx, n, AccountOr(beneficiary, ctx), r)
  {
    ExecKeepsInv(w, ctx, BuyStorage(n, beneficiary));
    StorageCostExactIff(n);
    assert StorageCost(1) == Some(RECORD_PRICE);
  }

  /** The lists after a submission: a new one that holds the inputs and awaits approval, and the old ones. */
  ghost predicate Added(before: map<string, PaymentList>, after: map<string, PaymentList>, id: string,
                        tokenId: string, inputs: seq<PaymentInput>, submitter: string, now: nat)
  {
    && id !in before && id in after && after == before[id := after[id]]
    && HoldsInputs(after[id], inputs) && after[id].status == AwaitingApproval
    && after[id].submitter == submitter && after[id].tokenId == tokenId && after[id].createdAt == now
  }

  /**
   * A submission goes through exactly for a new well-formed id and a list that the submitter's credits cover (on
   * behalf of another only from the contract account); it takes one credit for each payment and adds the list.
   */
  ghost predicate Accepted(w: World, w': World, ctx: Context, id: string, tokenId: string, inputs: seq<PaymentInput>,
                           submitterId: Option<string>, r: Result)
  {
    var submitter := AccountOr(submitterId, ctx);
    && (r.Returned? <==>
          && ctx.deposit == 0 && inputs != [] && IsListId(id) && id !in w.lists
          && (submitterId.Some? ==> ctx.predecessor == ctx.current)
          && |inputs| <= Count(w.credits, submitter))
    && (r.Returned? ==>
          && Credited(w.credits, w'.credits, submitter, -|inputs|)
          && Added(w.lists, w'.lists, id, tokenId, inputs, submitter, ctx.blockTimestamp)
          && w' == w.(ids := w.ids + [id], lists := w'.lists, credits := w'.credits))
    && (r.Panicked? ==> w' == w)
  }

  lemma SubmissionAccepted(w: World, w': World, ctx: Context, id: string, tokenId: string, inputs: seq<PaymentInput>,
                           submitterId: Option<string>, r: Result)
    requires ctx.deposit == 0 && Answers(Submission(w, ctx, id, tokenId, inputs, submitterId), r, w, w')
    ensures Accepted(w, w', ctx, id, tokenId, inputs, submitterId, r)
  {
  }

  lemma SubmissionAnswered(w: World, w': World, ctx: Context, id: string, tokenId: string, inputs: seq<PaymentInput>,
                           submitterId: Option<string>, r: Result)
    requires Inv(w)
    requires if ctx.deposit != 0 then r == Panicked(DepositRefused) && w' == w
             else Answers(Submission(w, ctx, id, tokenId, inputs, submitterId), r, w, w')
    ensures Answers(Apply(w, ctx, SubmitList(id, tokenId, inputs, submitterId)), r, w, w')
    ensures Inv(w') && Accepted(w, w', ctx, id, tokenId, inputs, submitterId, r)
  {
    ExecKeepsInv(w, ctx, SubmitList(id, tokenId, inputs, submitterId));
    if ctx.deposit == 0 {
      SubmissionAccepted(w, w', ctx, id, tokenId, inputs, submitterId, r);
    }
  }

  lemma PayoutPaysBetween(w: World, ctx: Context, id: string)
    requires Inv(w) && BatchPayout(w, ctx, id).Ok?
    ensures exists k: nat, m: nat :: PaidBetween(w, BatchPayout(w, ctx, id).world, id, k, m, ctx.blockHeight)
    ensures PendingCount(w.lists[id].payments) > 0 ==>
              BatchPayout(w, ctx, id).value < PendingCount(w.lists[id].payments)
  {
    var list, w' := w.lists[id], BatchPayout(w, ctx, id).world;
    assert ListInv(w, id);
    var k: nat :| PaidUpTo(list, SentFor(w.sent, id), k);
    var m := PayoutPaysPrefix(list.payments, k, RouteOf(list.tokenId), ctx, 0, false);
    PaidFurtherPrefix(list.payments, w'.lists[id].payments, k, m, ctx.blockHeight);
    PendingCountPrefix(list.payments, k);
    PendingCountPrefix(w'.lists[id].payments, m);
    assert PaidBetween(w, w', id, k, m, ctx.blockHeight);
  }

  lemma PayoutPaysRecipients(w: World, ctx: Context, id: string)
    requires Inv(w)
    ensures var w' := Exec(w, ctx, PayoutBatch(id));
            (id in w.lists <==> id in w'.lists)
            && (id in w'.lists && PlainList(w'.lists[id]) ==> RecipientsPaid(w, id) && RecipientsPaid(w', id))
  {
    var w' := Exec(w, ctx, PayoutBatch(id));
    ExecKeepsInv(w, ctx, PayoutBatch(id));
    if id in w.lists {
      ExecEvolves(w, ctx, PayoutBatch(id), id);
      if PlainList(w'.lists[id]) {
        EvolvedPlain(w.lists[id], w'.lists[id]);
        ListPaysRecipients(w, id);
        ListPaysRecipients(w', id);
      }
    }
  }

  lemma EvolvedPlain(a: PaymentList, b: PaymentList)
    requires Evolves(a, b) && PlainList(b)
    ensures PlainList(a)
  {
    forall i | 0 <= i < |a.payments| ensures PlainNames(a.tokenId, a.payments[i].recipient) {
      assert PaymentEvolves(a.payments[i], b.payments[i]);
      assert PlainNames(b.tokenId, b.payments[i].recipient);
    }
  }

  class BulkPaymentContract {
    var ids: seq<string>
    var paymentLists: map<string, PaymentList>
    var storageCredits: map<string, nat>
    /** The promises detached so far. */
    var sent: seq<Sent>
    ghost var receipts: map<string, Funds>
    ghost var bought: map<string, nat>

    ghost function State(): World
      reads this
    {
      World(ids, paymentLists, storageCredits, sent, receipts, bought)
    }

    /** What every run keeps: credits, lists, receipts and transfers fit together. */
    ghost predicate Valid()
      reads this
    {
      Inv(State())
    }

    constructor ()
      ensures Valid() && State() == START
    {
      ids, paymentLists, storageCredits, sent := [], map[], map[], [];
      receipts, bought := map[], map[];
      new;
      RunKeepsInv([]);
    }

    /** Adds records to an account's credits. */
    method Credit(account: string, numRecords: nat)
      modifies this
      ensures State() == Bought(old(State()), account, numRecords)
    {
      storageCredits := storageCredits[account := Count(storageCredits, account) + numRecords];
      bought := bought[account := Count(bought, account) + numRecords];
    }

    method BuyStorage(ctx: Context, numRecords: nat, beneficiary: Option<string>) returns (r: Result)
      requires Valid()
      modifies this
      ensures Answers(Apply(old(State()), ctx, Call.BuyStorage(numRecords, beneficiary)), r, old(State()), State())
      ensures Valid()
      ensures Purchased(old(State()), State(), ctx, numRecords, AccountOr(beneficiary, ctx), r)
    {
      ghost var w := State();
      ghost var o := Purchase(w, ctx, numRecords, beneficiary);
      var account := AccountOr(beneficiary, ctx);
      var totalCost := StorageCost(numRecords);
      if numRecords == 0 {
        r := Panicked(NoRecords);
      } else if totalCost.None? {
        r := Panicked(Overflow);
      } else if ctx.deposit != totalCost.value {
        r := Panicked(WrongDeposit);
      } else if Count(storageCredits, account) + numRecords >= U128 {
        r := Panicked(Overflow);
      } else {
        Credit(account, numRecords);
        r := Returned(totalCost.value);
      }
      assert Answers(o, r, w, State());
      PurchaseAnswered(w, State(), ctx, numRecords, beneficiary, r);
    }

    method SubmitList(ctx: Context, listId: string, tokenId: string, inputs: seq<PaymentInput>,
                      submitterId: Option<string>)
      returns (r: Result)
      requires Valid()
      modifies this
      ensures Answers(Apply(old(State()), ctx, Call.SubmitList(listId, tokenId, inputs, submitterId)),
                      r, old(State()), State())
      ensures Valid()
      ensures Accepted(old(State()), State(), ctx, listId, tokenId, inputs, submitterId, r)
    {
      ghost var w := State();
      var submitter := AccountOr(submitterId, ctx);
      if ctx.deposit != 0 {
        r := Panicked(DepositRefused);
      } else if inputs == [] {
        r := Panicked(EmptyList);
      } else if !IsListId(listId) {
        r := Panicked(InvalidListId);
      } else if listId in paymentLists {
        r := Panicked(ListExists);
      } else if submitterId.Some? && ctx.predecessor != ctx.current {
        r := Panicked(NotContractAccount);
      } else if Count(storageCredits, submitter) < |inputs| {
        r := Panicked(InsufficientCredits);
      } else {
        storageCredits := storageCredits[submitter := Count(storageCredits, submitter) - |inputs|];
        ids := ids + [listId];
        paymentLists := paymentLists[listId :=
          PaymentList(tokenId, submitter, AwaitingApproval, Records(inputs), ctx.blockTimestamp)];
        r := Returned(0);
      }
      SubmissionAnswered(w, State(), ctx, listId, tokenId, inputs, submitterId, r);
    }

    /** The end that the three approvals share. */
    method Conclude(listId: string, amount: nat, ghost received: Funds) returns (r: Result)
      requires Valid() && listId in paymentLists && received.amount == amount
      modifies this
      ensures Answers(Approve(old(State()), listId, received), r, old(State()), State())
      ensures r.Returned? <==> old(paymentLists)[listId].status == AwaitingApproval
                               && amount == Total(old(paymentLists)[listId].payments) < U128
      ensures r.Returned? ==> Decided(old(paymentLists), paymentLists, listId, Approved)
                              && receipts == old(receipts)[listId := received]
      ensures r.Panicked? ==> State() == old(State())
      ensures ids == old(ids) && storageCredits == old(storageCredits) && sent == old(sent)
    {
      var list := paymentLists[listId];
      if list.status != AwaitingApproval {
        return Panicked(NotPending);
      }
      var total := TotalAmount(list.payments);
      if total.None? {
        return Panicked(Overflow);
      }
      if amount != total.value {
        return Panicked(WrongDeposit);
      }
      paymentLists := paymentLists[listId := list.(status := Approved)];
      receipts := receipts[listId := received];
      r := Returned(0);
    }

    method ApproveList(ctx: Context, listId: string) returns (r: Result)
      requires Valid()
      modifies this
      ensures Answers(Apply(old(State()), ctx, Call.ApproveList(listId)), r, old(State()), State())
      ensures Valid()
      ensures r.Returned? ==> Decided(old(paymentLists), paymentLists, listId, Approved)
                              && paymentLists[listId].submitter == ctx.predecessor
                              && ctx.deposit == Total(paymentLists[listId].payments)
      ensures r.Panicked? ==> State() == old(State())
      ensures ids == old(ids) && storageCredits == old(storageCredits) && sent == old(sent)
    {
      ExecKeepsInv(State(), ctx, Call.ApproveList(listId));
      if listId !in paymentLists {
        return Panicked(ListNotFound);
      }
      if paymentLists[listId].submitter != ctx.predecessor {
        return Panicked(NotSubmitter);
      }
      r := Conclude(listId, ctx.deposit, Funds(Near, ctx.deposit));
    }

    method FtOnTransfer(ctx: Context, senderId: string, amount: nat, msg: string) returns (r: Result)
      requires Valid()
      modifies this
      ensures Answers(Apply(old(State()), ctx, Call.FtOnTransfer(senderId, amount, msg)), r, old(State()), State())
      ensures Valid()
      ensures r.Returned? ==> Decided(old(paymentLists), paymentLists, msg, Approved)
                              && paymentLists[msg].submitter == senderId && amount == Total(paymentLists[msg].payments)
      ensures r.Panicked? ==> State() == old(State())
      ensures ids == old(ids) && storageCredits == old(storageCredits) && sent == old(sent)
    {
      ExecKeepsInv(State(), ctx, Call.FtOnTransfer(senderId, amount, msg));
      if ctx.deposit != 0 {
        return Panicked(DepositRefused);
      }
      if !IsListId(msg) {
        return Panicked(InvalidListId);
      }
      if msg !in paymentLists {
        return Panicked(ListNotFound);
      }
      if paymentLists[msg].submitter != senderId {
        return Panicked(NotSubmitter);
      }
      r := Conclude(msg, amount, Funds(Token(ctx.predecessor), amount));
    }

    method MtOnTransfer(ctx: Context, tokenIds: seq<string>, amounts: seq<nat>, msg: string) returns (r: Result)
      requires Valid()
      modifies this
      ensures Answers(Apply(old(State()), ctx, Call.MtOnTransfer(tokenIds, amounts, msg)), r, old(State()), State())
      ensures Valid()
      ensures r.Returned? ==> Decided(old(paymentLists), paymentLists, msg, Approved)
                              && tokenIds == [paymentLists[msg].tokenId]
                              && amounts == [Total(paymentLists[msg].payments)]
      ensures r.Panicked? ==> State() == old(State())
      ensures ids == old(ids) && storageCredits == old(storageCredits) && sent == old(sent)
    {
      ExecKeepsInv(State(), ctx, Call.MtOnTransfer(tokenIds, amounts, msg));
      if ctx.deposit != 0 {
        return Panicked(DepositRefused);
      }
      if !IsListId(msg) {
        return Panicked(InvalidListId);
      }
      if msg !in paymentLists {
        return Panicked(ListNotFound);
      }
      if paymentLists[msg].status != AwaitingApproval {
        return Panicked(NotPending);
      }
      if |tokenIds| != 1 || |amounts| != 1 {
        return Panicked(NotSingleToken);
      }
      if paymentLists[msg].tokenId != tokenIds[0] {
        return Panicked(TokenMismatch);
      }
      r := Conclude(msg, amounts[0], Funds(MultiToken(ctx.predecessor, tokenIds[0]), amounts[0]));
    }

    method PayoutBatch(ctx: Context, listId: string) returns (r: Result)
      requires Valid()
      modifies this
      ensures Answers(Apply(old(State()), ctx, Call.PayoutBatch(listId)), r, old(State()), State())
      ensures Valid()
      ensures r.Returned? ==>
                && listId in old(paymentLists) && old(paymentLists)[listId].status == Approved
                && (exists k: nat, m: nat :: PaidBetween(old(State()), State(), listId, k, m, ctx.blockHeight))
                && r.value == PendingCount(paymentLists[listId].payments)
                && (PendingCount(old(paymentLists)[listId].payments) > 0 ==>
                      r.value < PendingCount(old(paymentLists)[listId].payments))
      // whoever the list pays has been sent exactly what its paid payments say, before the call and after it
      ensures listId in paymentLists && PlainList(paymentLists[listId]) ==>
                RecipientsPaid(old(State()), listId) && RecipientsPaid(State(), listId)
      ensures r.Panicked? ==> State() == old(State())
    {
      ghost var w := State();
      PayoutPaysRecipients(w, ctx, listId);
      ExecKeepsInv(w, ctx, Call.PayoutBatch(listId));
      if ctx.deposit != 0 {
        return Panicked(DepositRefused);
      }
      if listId !in paymentLists {
        return Panicked(ListNotFound);
      }
      var list := paymentLists[listId];
      if list.status != Approved {
        return Panicked(NotApproved);
      }
      var paid := PayLoop(list.payments, RouteOf(list.tokenId), ctx);
      if paid.Aborted? {
        return Panicked(paid.error);
      }
      PayoutPaysBetween(w, ctx, listId);
      sent := sent + Tags(listId, paid.transfers);
      paymentLists := paymentLists[listId := list.(payments := paid.payments)];
      r := Returned(PendingCount(paid.payments));
    }

    method RejectList(ctx: Context, listId: string) returns (r: Result)
      requires Valid()
      modifies this
      ensures Answers(Apply(old(State()), ctx, Call.RejectList(listId)), r, old(State()), State())
      ensures Valid()
      ensures r.Returned? <==> ctx.deposit == 0 && listId in old(paymentLists)
                               && old(paymentLists)[listId].submitter == ctx.predecessor
                               && old(paymentLists)[listId].status == AwaitingApproval
      ensures r.Returned? ==> Decided(old(paymentLists), paymentLists, listId, Rejected)
      ensures r.Panicked? ==> State() == old(State())
      ensures ids == old(ids) && storageCredits == old(storageCredits) && sent == old(sent) && receipts == old(receipts)
    {
      ExecKeepsInv(State(), ctx, Call.RejectList(listId));
      if ctx.deposit != 0 {
        return Panicked(DepositRefused);
      }
      if listId !in paymentLists {
        return Panicked(ListNotFound);
      }
      var list := paymentLists[listId];
      if list.submitter != ctx.predecessor {
        return Panicked(NotSubmitter);
      }
      if list.status != AwaitingApproval {
        return Panicked(NotPending);
      }
      paymentLists := paymentLists[listId := list.(status := Rejected)];
      r := Returned(0);
    }
  }
}
