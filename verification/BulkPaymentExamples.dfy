/** Concrete runs of the contract in which something expected of it fails. */
module BulkPaymentExamples {
  import opened BulkPayment
  import opened BulkPaymentFunds
  import opened BulkPaymentProgress
  import opened BulkPaymentRuns
  import opened BulkPaymentTransfers
  import opened Sequences
  import opened Wrappers

  function ZeroId(): (id: string)
    ensures IsListId(id)
  {
    seq(64, _ => '0')
  }

  /** A call by an account with a deposit and plenty of gas. */
  function By(account: string, deposit: nat): Context {
    Context(account, "bulk.near", deposit, 1, 1, (n: nat) => 300 * TGAS)
  }

  function OnePayment(tokenId: string, recipient: string): PaymentList {
    PaymentList(tokenId, "dao.near", AwaitingApproval, [Payment(recipient, 5, Pending)], 1)
  }

  /** An account buys one record and submits a list of one payment of 5. */
  function BuyAndSubmit(tokenId: string, recipient: string): seq<(Context, Call)> {
    [(By("dao.near", RECORD_PRICE), BuyStorage(1, None)),
     (By("dao.near", 0), SubmitList(ZeroId(), tokenId, [PaymentInput(recipient, 5)], None))]
  }

  lemma Bought1()
    ensures Run([(By("dao.near", RECORD_PRICE), BuyStorage(1, None))])
            == START.(credits := map["dao.near" := 1], bought := map["dao.near" := 1])
  {
    var buy := (By("dao.near", RECORD_PRICE), BuyStorage(1, None));
    RunOneMore([], buy.0, buy.1);
    assert [] + [buy] == [buy];
  }

  lemma SubmittedRun(tokenId: string, recipient: string)
    ensures Run(BuyAndSubmit(tokenId, recipient))
            == World([ZeroId()], map[ZeroId() := OnePayment(tokenId, recipient)],
                     map["dao.near" := 0], [], map[], map["dao.near" := 1])
  {
    var buy := [(By("dao.near", RECORD_PRICE), BuyStorage(1, None))];
    var inputs := [PaymentInput(recipient, 5)];
    Bought1();
    RunOneMore(buy, By("dao.near", 0), SubmitList(ZeroId(), tokenId, inputs, None));
    assert BuyAndSubmit(tokenId, recipient) == buy + [(By("dao.near", 0), SubmitList(ZeroId(), tokenId, inputs, None))];
    assert Records(inputs) == [Payment(recipient, 5, Pending)];
    assert IsListId(ZeroId());
  }

  lemma ApprovedRun(tokenId: string, recipient: string, ctx: Context, call: Call, received: Funds)
    requires ApprovedId(call) == Some(ZeroId()) && received.amount == 5
    requires var w := Run(BuyAndSubmit(tokenId, recipient));
             ZeroId() in w.lists && Apply(w, ctx, call) == Approve(w, ZeroId(), received)
    ensures Run(BuyAndSubmit(tokenId, recipient) + [(ctx, call)])
            == World([ZeroId()], map[ZeroId() := OnePayment(tokenId, recipient).(status := Approved)],
                     map["dao.near" := 0], [], map[ZeroId() := received], map["dao.near" := 1])
  {
    var ps := OnePayment(tokenId, recipient).payments;
    SubmittedRun(tokenId, recipient);
    RunOneMore(BuyAndSubmit(tokenId, recipient), ctx, call);
    assert ps[..0] == [];
    assert Total(ps) == 5;
  }

  // ---------------------------------------------------------------------------
  // An approval that brings nothing of the list's token.
  // ---------------------------------------------------------------------------

  /** The list pays `token.near`; the callback that approves it comes from another account. */
  function ApprovedByAnother(): seq<(Context, Call)> {
    BuyAndSubmit("token.near", "alice.near") + [(By("other.near", 0), FtOnTransfer("dao.near", 5, ZeroId()))]
  }

  lemma TokenKind()
    ensures KindOf("token.near") == Nep141("token.near") && AssetOf("token.near") == Token("token.near")
    ensures "other.near" != "token.near"
  {
    assert "token.near"[0] == 't' && "nep141:"[0] == 'n' && "other.near"[0] == 'o';
    assert |"token.near"| == 10;
  }

  /** The list is approved and owes 5 of its token, of which nothing came in. */
  lemma UnbackedApproval()
    ensures var w := Run(ApprovedByAnother());
            && ZeroId() in w.lists && w.lists[ZeroId()].status == Approved
            && Sum(w.ids, ReceivedIn(w, Token("token.near"))) == 0
            && Sum(w.ids, OwedIn(w, Token("token.near"))) == 5
    ensures !BackedRun(ApprovedByAnother())
  {
    var w := Run(ApprovedByAnother());
    TokenKind();
    SubmittedRun("token.near", "alice.near");
    ApprovedRun("token.near", "alice.near", By("other.near", 0), FtOnTransfer("dao.near", 5, ZeroId()),
                Funds(Token("other.near"), 5));
    OneId(ZeroId(), ReceivedIn(w, Token("token.near")));
    OneId(ZeroId(), OwedIn(w, Token("token.near")));
    var ps := w.lists[ZeroId()].payments;
    assert ps[..0] == [];
    assert PendingTotal(ps) == 5;
    if BackedRun(ApprovedByAnother()) {
      BackedRunRightAsset(ApprovedByAnother(), ZeroId());
    }
  }

  lemma OneId(id: string, f: string -> int)
    ensures Sum([id], f) == f(id)
  {
    assert [id][..0] == [];
  }

  // ---------------------------------------------------------------------------
  // A list that can never be paid.
  // ---------------------------------------------------------------------------

  /** A list that pays NEAR to `A`, which is no account id, approved with its total. */
  function ApprovedUnpayable(): seq<(Context, Call)> {
    BuyAndSubmit("native", "A") + [(By("dao.near", 5), ApproveList(ZeroId()))]
  }

  lemma NativeKind()
    ensures KindOf("native") == Native
  {
    assert "native"[1] == 'a' && "nep141:"[1] == 'e';
  }

  /** The payment stays pending whatever calls follow, and a payout with enough gas panics. */
  lemma UnpayableList(more: seq<(Context, Call)>, account: string)
    ensures var w := Run(ApprovedUnpayable() + more);
            && ZeroId() in w.lists && w.lists[ZeroId()].status == Approved
            && |w.lists[ZeroId()].payments| == 1 && w.lists[ZeroId()].payments[0].status == Pending
            && BatchPayout(w, By(account, 0), ZeroId()) == Panic(InvalidRecipient)
  {
    var calls, n := ApprovedUnpayable() + more, |ApprovedUnpayable()|;
    SubmittedRun("native", "A");
    ApprovedRun("native", "A", By("dao.near", 5), ApproveList(ZeroId()), Funds(Near, 5));
    assert calls[..n] == ApprovedUnpayable();
    RunEvolves(calls, n, ZeroId());
    NativeKind();
    var list := Run(calls).lists[ZeroId()];
    assert PaymentEvolves(Run(calls[..n]).lists[ZeroId()].payments[0], list.payments[0]);
    assert !IsAccountId("A");
    UnpayableBlocks(calls, ZeroId(), 0);
  }
}
