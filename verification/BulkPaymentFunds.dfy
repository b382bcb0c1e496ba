/** Which funds come in with approvals, which leave with payouts, and when the two agree asset by asset. */
module BulkPaymentFunds {
  import opened BulkPayment
  import opened BulkPaymentRuns
  import opened BulkPaymentTransfers
  import opened Grouping
  import opened Sequences
  import opened Wrappers

  /** The amount of one asset in some funds. */
  function AmountOf(f: Funds, a: Asset): nat {
    if f.asset == a then f.amount else 0
  }

  /** What the contract attaches to a transfer from its own NEAR. */
  function Attached(t: Transfer): nat {
    if t.NearTransfer? then 0 else t.attached
  }

  function CarriedOf(a: Asset): Transfer -> int {
    (t: Transfer) => AmountOf(Carried(t), a)
  }

  function AttachedOf(a: Asset): Transfer -> int {
    (t: Transfer) => if a == Near then Attached(t) else 0
  }

  /** All that leaves of an asset with a transfer. */
  function LeavingOf(a: Asset): Transfer -> int {
    (t: Transfer) => CarriedOf(a)(t) + AttachedOf(a)(t)
  }

  /** The amounts still to be paid. */
  function PendingTotal(ps: seq<Payment>): nat {
    if ps == [] then 0
    else PendingTotal(ps[..|ps| - 1]) + if ps[|ps| - 1].status.Pending? then ps[|ps| - 1].amount else 0
  }

  /** What a list has still to pay of an asset. */
  function PendingIn(list: PaymentList, a: Asset): nat {
    if AssetOf(list.tokenId) == a then PendingTotal(list.payments) else 0
  }

  /** No text of the list needs escaping where it becomes an argument text. */
  ghost predicate PlainList(list: PaymentList) {
    forall i :: 0 <= i < |list.payments| ==> PlainNames(list.tokenId, list.payments[i].recipient)
  }

  // ---------------------------------------------------------------------------
  // One list.
  // ---------------------------------------------------------------------------

  /** Over a paid prefix, transfers worth their payments' amounts (or nothing) sum to what is no longer pending. */
  lemma {:induction false} SplitFunds(ps: seq<Payment>, k: nat, route: Route, worth: Transfer -> int, counts: bool)
    requires PaidPrefix(ps, k)
    requires forall i :: 0 <= i < |ps| ==> worth(route.transfer(ps[i])) == if counts then ps[i].amount else 0
    ensures Sum(TransfersOf(route, ps[..k]), worth) == if counts then Total(ps) - PendingTotal(ps) else 0
    decreases |ps|
  {
    if ps != [] {
      var n := |ps| - 1;
      var j := if k <= n then k else n;
      SplitFunds(ps[..n], j, route, worth, counts);
      assert ps[..n][..j] == ps[..j];
      if k > n {
        assert ps[..k] == ps;
        OneMoreTransfer(route, ps, worth);
      }
    }
  }

  lemma OneMoreTransfer(route: Route, ps: seq<Payment>, worth: Transfer -> int)
    requires ps != []
    ensures var n := |ps| - 1;
            Sum(TransfersOf(route, ps), worth) == Sum(TransfersOf(route, ps[..n]), worth) + worth(route.transfer(ps[n]))
  {
    assert TransfersOf(route, ps)[..|ps| - 1] == TransfersOf(route, ps[..|ps| - 1]);
  }

  lemma ListFunds(list: PaymentList, sent: seq<Transfer>, k: nat, a: Asset)
    requires PaidUpTo(list, sent, k) && PlainList(list)
    ensures Sum(sent, LeavingOf(a)) + PendingIn(list, a)
            == AmountOf(Funds(AssetOf(list.tokenId), Total(list.payments)), a) + Sum(sent, AttachedOf(a))
  {
    var ps, route, counts := list.payments, RouteOf(list.tokenId), AssetOf(list.tokenId) == a;
    forall i | 0 <= i < |ps| ensures CarriedOf(a)(route.transfer(ps[i])) == if counts then ps[i].amount else 0 {
      assert PlainNames(list.tokenId, ps[i].recipient);
      PlainCarries(list.tokenId, ps[i]);
    }
    SplitFunds(ps, k, route, CarriedOf(a), counts);
    SumAdds(sent, CarriedOf(a), AttachedOf(a), LeavingOf(a));
  }

  /**
   * What came in for a list and what the contract added is, in every asset, what left for it and what it still owes.
   */
  ghost predicate Balanced(w: World, id: string)
    requires id in w.lists && id in w.receipts
  {
    forall a ::
      AmountOf(w.receipts[id], a) + Sum(SentFor(w.sent, id), AttachedOf(a))
      == Sum(SentFor(w.sent, id), LeavingOf(a)) + PendingIn(w.lists[id], a)
  }

  /**
   * In every run the call that approved a list brought exactly its total, and no other list was brought or sent
   * anything. When the list's texts are plain, that balances in every asset exactly when it was brought in the asset
   * the list pays, or was nothing.
   */
  lemma FundsConserved(calls: seq<(Context, Call)>, id: string)
    ensures var w := Run(calls);
            if id in w.lists && w.lists[id].status == Approved
            then
              && id in w.receipts && w.receipts[id].amount == Total(w.lists[id].payments)
              && (PlainList(w.lists[id]) ==>
                    (Balanced(w, id)
                     <==> w.receipts[id].asset == AssetOf(w.lists[id].tokenId) || w.receipts[id].amount == 0))
            else id !in w.receipts && SentFor(w.sent, id) == []
  {
    var w := Run(calls);
    RunKeepsInv(calls);
    assert ListInv(w, id);
    if id in w.lists {
      var list := w.lists[id];
      var k: nat :| PaidUpTo(list, SentFor(w.sent, id), k);
      if list.status == Approved && PlainList(list) {
        forall a
          ensures Sum(SentFor(w.sent, id), LeavingOf(a)) + PendingIn(list, a)
                  == AmountOf(Funds(AssetOf(list.tokenId), Total(list.payments)), a)
                     + Sum(SentFor(w.sent, id), AttachedOf(a))
        {
          ListFunds(list, SentFor(w.sent, id), k, a);
        }
        FundsDiffer(w.receipts[id], Funds(AssetOf(list.tokenId), Total(list.payments)));
      }
    }
  }

  /** Equal amounts are the same funds exactly when the assets agree or there is nothing of either. */
  lemma FundsDiffer(f: Funds, g: Funds)
    requires f.amount == g.amount
    ensures (forall a :: AmountOf(f, a) == AmountOf(g, a)) <==> f.asset == g.asset || f.amount == 0
  {
    if f.asset != g.asset && f.amount != 0 {
      assert AmountOf(f, f.asset) != AmountOf(g, f.asset);
    }
  }

  // ---------------------------------------------------------------------------
  // Which approvals bring the list's own asset.
  // ---------------------------------------------------------------------------

  /** The list that an approving call names. */
  function ApprovedId(call: Call): Option<string> {
    match call
    case ApproveList(id) => Some(id)
    case FtOnTransfer(_, _, id) => Some(id)
    case MtOnTransfer(_, _, id) => Some(id)
    case _ => None
  }

  predicate Approves(w: World, ctx: Context, call: Call) {
    ApprovedId(call).Some? && Apply(w, ctx, call).Ok?
  }

  /**
   * The caller and the method fit the list's asset: NEAR for a native list, a callback from the token's own contract
   * otherwise.
   */
  predicate Backed(list: PaymentList, ctx: Context, call: Call) {
    match call
    case ApproveList(_) => KindOf(list.tokenId).Native?
    case FtOnTransfer(_, _, _) => KindOf(list.tokenId) == Nep141(ctx.predecessor)
    case MtOnTransfer(_, _, _) => "nep141:" <= list.tokenId && ctx.predecessor == "intents.near"
    case _ => false
  }

  /**
   * An approval brings the list's total, and brings it in the asset the list pays exactly when caller and method fit
   * that asset.
   */
  lemma ApprovalBackedIff(w: World, ctx: Context, call: Call)
    requires Approves(w, ctx, call)
    ensures var id, w' := ApprovedId(call).value, Exec(w, ctx, call);
            && id in w.lists && id in w'.receipts
            && w'.receipts[id].amount == Total(w.lists[id].payments)
            && (w'.receipts[id].asset == AssetOf(w.lists[id].tokenId) <==> Backed(w.lists[id], ctx, call))
  {
  }

  // ---------------------------------------------------------------------------
  // All lists together.
  // ---------------------------------------------------------------------------

  /** Every approval of the run was made by a caller and a method that fit the list's asset. */
  ghost predicate BackedRun(calls: seq<(Context, Call)>) {
    calls == []
    || (var n := |calls| - 1;
        var w, ctx, call := Run(calls[..n]), calls[n].0, calls[n].1;
        && BackedRun(calls[..n])
        && (Approves(w, ctx, call) ==> Backed(w.lists[ApprovedId(call).value], ctx, call)))
  }

  ghost predicate RightAsset(w: World, id: string) {
    id in w.receipts ==> id in w.lists && w.receipts[id].asset == AssetOf(w.lists[id].tokenId)
  }

  lemma ExecKeepsRightAsset(w: World, ctx: Context, call: Call, id: string)
    requires RightAsset(w, id)
    requires Approves(w, ctx, call) ==> Backed(w.lists[ApprovedId(call).value], ctx, call)
    ensures RightAsset(Exec(w, ctx, call), id)
  {
    if id in w.lists {
      ExecEvolves(w, ctx, call, id);
    }
    if Approves(w, ctx, call) {
      ApprovalBackedIff(w, ctx, call);
    }
  }

  lemma {:induction false} BackedRunRightAsset(calls: seq<(Context, Call)>, id: string)
    requires BackedRun(calls)
    ensures RightAsset(Run(calls), id)
  {
    if calls != [] {
      var n := |calls| - 1;
      BackedRunRightAsset(calls[..n], id);
      ExecKeepsRightAsset(Run(calls[..n]), calls[n].0, calls[n].1, id);
    }
  }

  function ListIdOf(s: Sent): string { s.listId }

  function CarriedIn(a: Asset): Sent -> int {
    (s: Sent) => CarriedOf(a)(s.transfer)
  }

  function LeavingIn(a: Asset): Sent -> int {
    (s: Sent) => LeavingOf(a)(s.transfer)
  }

  function AttachedIn(a: Asset): Sent -> int {
    (s: Sent) => AttachedOf(a)(s.transfer)
  }

  function ReceivedIn(w: World, a: Asset): string -> int {
    id => if id in w.receipts then AmountOf(w.receipts[id], a) else 0
  }

  /** What approved lists have still to pay. */
  function OwedIn(w: World, a: Asset): string -> int {
    id => if id in w.lists && w.lists[id].status == Approved then PendingIn(w.lists[id], a) else 0
  }

  lemma {:induction false} WorthForList(sent: seq<Sent>, id: string, worth: Transfer -> int, worthSent: Sent -> int)
    requires forall s :: worthSent(s) == worth(s.transfer)
    ensures SumOfKey(sent, ListIdOf, worthSent, id) == Sum(SentFor(sent, id), worth)
  {
    if sent != [] {
      var n := |sent| - 1;
      WorthForList(sent[..n], id, worth, worthSent);
      var before := SentFor(sent[..n], id);
      assert (before + [sent[n].transfer])[..|before|] == before;
      assert before + [] == before;
    }
  }

  lemma {:induction false} SentForSome(sent: seq<Sent>, i: nat)
    requires i < |sent|
    ensures SentFor(sent, sent[i].listId) != []
    decreases |sent|
  {
    if i < |sent| - 1 {
      SentForSome(sent[..|sent| - 1], i);
    }
  }

  lemma SentAreListed(w: World)
    requires Inv(w)
    ensures forall i :: 0 <= i < |w.sent| ==> ListIdOf(w.sent[i]) in w.ids
  {
    forall i | 0 <= i < |w.sent| ensures ListIdOf(w.sent[i]) in w.ids {
      SentForSome(w.sent, i);
      assert ListInv(w, w.sent[i].listId);
    }
  }

  /** What lists were brought and what leaves for them, list by list and over all of them. */
  lemma SumOverLists(w: World, worth: Transfer -> int, worthSent: Sent -> int)
    requires Inv(w) && forall s :: worthSent(s) == worth(s.transfer)
    ensures SumOfKeys(w.sent, ListIdOf, worthSent, w.ids) == Sum(w.sent, worthSent)
    ensures forall id :: SumOfKey(w.sent, ListIdOf, worthSent, id) == Sum(SentFor(w.sent, id), worth)
  {
    SentAreListed(w);
    CoveredGroups(w.sent, ListIdOf, worthSent, w.ids);
    forall id ensures SumOfKey(w.sent, ListIdOf, worthSent, id) == Sum(SentFor(w.sent, id), worth) {
      WorthForList(w.sent, id, worth, worthSent);
    }
  }

  /**
   * Conservation: over a run whose approvals fit their lists' assets, and with plain texts in every approved list,
   * what came in of an asset over all lists and what the contract attached of its own is what left in all transfers
   * plus what the approved lists still owe.
   */
  lemma AssetConserved(calls: seq<(Context, Call)>, a: Asset)
    requires BackedRun(calls)
    requires var w := Run(calls);
             forall id :: id in w.lists && w.lists[id].status == Approved ==> PlainList(w.lists[id])
    ensures var w := Run(calls);
            Sum(w.ids, ReceivedIn(w, a)) + Sum(w.sent, AttachedIn(a))
            == Sum(w.sent, LeavingIn(a)) + Sum(w.ids, OwedIn(w, a))
  {
    var w := Run(calls);
    RunKeepsInv(calls);
    SumOverLists(w, CarriedOf(a), CarriedIn(a));
    forall id | id in w.ids
      ensures ReceivedIn(w, a)(id) == SumOfKey(w.sent, ListIdOf, CarriedIn(a), id) + OwedIn(w, a)(id)
    {
      ListConserved(calls, a, id);
    }
    SumOverKeys(w.sent, ListIdOf, CarriedIn(a), w.ids, ReceivedIn(w, a), OwedIn(w, a));
    forall s | s in w.sent ensures CarriedIn(a)(s) + AttachedIn(a)(s) == LeavingIn(a)(s) {
      SentLeaves(a, s.transfer);
    }
    SumAdds(w.sent, CarriedIn(a), AttachedIn(a), LeavingIn(a));
  }

  lemma SentLeaves(a: Asset, t: Transfer)
    ensures CarriedOf(a)(t) + AttachedOf(a)(t) == LeavingOf(a)(t)
  {
  }

  lemma ListConserved(calls: seq<(Context, Call)>, a: Asset, id: string)
    requires BackedRun(calls)
    requires var w := Run(calls); id in w.lists && w.lists[id].status == Approved ==> PlainList(w.lists[id])
    ensures var w := Run(calls);
            ReceivedIn(w, a)(id) == Sum(SentFor(w.sent, id), CarriedOf(a)) + OwedIn(w, a)(id)
  {
    var w := Run(calls);
    FundsConserved(calls, id);
    BackedRunRightAsset(calls, id);
    SumAdds(SentFor(w.sent, id), CarriedOf(a), AttachedOf(a), LeavingOf(a));
  }

  // ---------------------------------------------------------------------------
  // What the contract attaches of its own.
  // ---------------------------------------------------------------------------

  function SubmitterOf(w: World): string -> string {
    id => if id in w.lists then w.lists[id].submitter else ""
  }

  function RecordsIn(w: World): string -> int {
    id => if id in w.lists then |w.lists[id].payments| else 0
  }

  /** The accounts that submitted a list. */
  function Submitters(w: World): seq<string> {
    Keys(w.ids, SubmitterOf(w))
  }

  function BoughtBy(w: World): string -> int {
    account => Count(w.bought, account)
  }

  lemma {:induction false} RecordsByAccount(w: World, ids: seq<string>, account: string)
    requires forall id :: id in ids ==> id in w.lists
    ensures SumOfKey(ids, SubmitterOf(w), RecordsIn(w), account) == RecordsOf(w.lists, ids, account)
  {
    if ids != [] {
      RecordsByAccount(w, ids[..|ids| - 1], account);
      assert ids[|ids| - 1] in ids;
    }
  }

  lemma RouteAttaches(tokenId: string, p: Payment)
    ensures AttachedOf(Near)(RouteOf(tokenId).transfer(p)) <= 1
  {
  }

  lemma ListAttaches(w: World, id: string)
    requires Inv(w)
    ensures Sum(SentFor(w.sent, id), AttachedOf(Near)) <= RecordsIn(w)(id)
  {
    assert ListInv(w, id);
    if id in w.lists {
      var list := w.lists[id];
      var k: nat :| PaidUpTo(list, SentFor(w.sent, id), k);
      var ts := SentFor(w.sent, id);
      forall t | t in ts ensures AttachedOf(Near)(t) <= 1 {
        var i :| 0 <= i < |ts| && ts[i] == t;
        RouteAttaches(list.tokenId, list.payments[..k][i]);
      }
      SumAtMostLength(ts, AttachedOf(Near));
    }
  }

  /**
   * In every run the NEAR that the contract attached of its own to transfers is at most one yoctoNEAR for each record
   * bought for the accounts that submitted lists, and each record was bought for 2376 * 10^18.
   */
  lemma AttachedCovered(calls: seq<(Context, Call)>)
    ensures var w := Run(calls);
            && Sum(w.sent, AttachedIn(Near)) <= Sum(w.ids, RecordsIn(w)) <= Sum(Submitters(w), BoughtBy(w))
  {
    var w := Run(calls);
    RunKeepsInv(calls);
    SumOverLists(w, AttachedOf(Near), AttachedIn(Near));
    forall id | id in w.ids ensures SumOfKey(w.sent, ListIdOf, AttachedIn(Near), id) <= RecordsIn(w)(id) {
      ListAttaches(w, id);
    }
    SumOfKeysAtMost(w.sent, ListIdOf, AttachedIn(Near), w.ids, RecordsIn(w));
    GroupsConserve(w.ids, SubmitterOf(w), RecordsIn(w));
    forall account | account in Submitters(w)
      ensures SumOfKey(w.ids, SubmitterOf(w), RecordsIn(w), account) <= BoughtBy(w)(account)
    {
      RecordsByAccount(w, w.ids, account);
      assert Count(w.credits, account) + RecordsOf(w.lists, w.ids, account) == Count(w.bought, account);
    }
    SumOfKeysAtMost(w.ids, SubmitterOf(w), RecordsIn(w), Submitters(w), BoughtBy(w));
  }

  // ---------------------------------------------------------------------------
  // Who is paid.
  // ---------------------------------------------------------------------------

  /** What a transfer pays an account of an asset. */
  function PaysTo(a: Asset, account: string): Transfer -> int {
    (t: Transfer) => if Receiver(t) == Some(account) then AmountOf(Carried(t), a) else 0
  }

  /** What a paid payment was due to an account. */
  function PaidTo(account: string): Payment -> int {
    (p: Payment) => if p.status.Paid? && p.recipient == account then p.amount else 0
  }

  lemma {:induction false} NothingDue(ps: seq<Payment>, due: Payment -> int)
    requires forall i :: 0 <= i < |ps| ==> due(ps[i]) == 0
    ensures Sum(ps, due) == 0
  {
    if ps != [] {
      NothingDue(ps[..|ps| - 1], due);
    }
  }

  lemma {:induction false} SplitDue(ps: seq<Payment>, route: Route, worth: Transfer -> int, due: Payment -> int)
    requires forall i :: 0 <= i < |ps| ==> worth(route.transfer(ps[i])) == due(ps[i])
    ensures Sum(TransfersOf(route, ps), worth) == Sum(ps, due)
  {
    if ps != [] {
      SplitDue(ps[..|ps| - 1], route, worth, due);
      OneMoreTransfer(route, ps, worth);
    }
  }

  lemma {:induction false} SumSplits(ps: seq<Payment>, k: nat, due: Payment -> int)
    requires k <= |ps|
    ensures Sum(ps, due) == Sum(ps[..k], due) + Sum(ps[k..], due)
    decreases |ps|
  {
    if k == |ps| {
      assert ps[..k] == ps;
    } else {
      var n := |ps| - 1;
      SumSplits(ps[..n], k, due);
      assert ps[..n][..k] == ps[..k] && ps[..n][k..] == ps[k..][..n - k];
    }
  }

  /** Every account was sent for the list, in the list's asset, the sum of the paid payments that name it. */
  ghost predicate RecipientsPaid(w: World, id: string)
    requires id in w.lists
  {
    forall account ::
      Sum(SentFor(w.sent, id), PaysTo(AssetOf(w.lists[id].tokenId), account))
      == Sum(w.lists[id].payments, PaidTo(account))
  }

  lemma PaymentPays(tokenId: string, p: Payment, account: string)
    requires PlainNames(tokenId, p.recipient) && p.status.Paid?
    ensures PaysTo(AssetOf(tokenId), account)(RouteOf(tokenId).transfer(p)) == PaidTo(account)(p)
  {
    PlainCarries(tokenId, p);
    PlainPaysRecipient(tokenId, p);
  }

  lemma ListPaysRecipients(w: World, id: string)
    requires Inv(w) && id in w.lists && PlainList(w.lists[id])
    ensures RecipientsPaid(w, id)
  {
    var list := w.lists[id];
    assert ListInv(w, id);
    var k: nat :| PaidUpTo(list, SentFor(w.sent, id), k);
    forall account
      ensures Sum(SentFor(w.sent, id), PaysTo(AssetOf(list.tokenId), account)) == Sum(list.payments, PaidTo(account))
    {
      var ps, route := list.payments, RouteOf(list.tokenId);
      forall i | 0 <= i < k
        ensures PaysTo(AssetOf(list.tokenId), account)(route.transfer(ps[..k][i])) == PaidTo(account)(ps[..k][i])
      {
        assert PlainNames(list.tokenId, ps[i].recipient);
        PaymentPays(list.tokenId, ps[i], account);
      }
      SplitDue(ps[..k], route, PaysTo(AssetOf(list.tokenId), account), PaidTo(account));
      SumSplits(ps, k, PaidTo(account));
      NothingDue(ps[k..], PaidTo(account));
    }
  }

  /**
   * In every run, for a list with plain texts, the transfers sent for it pay each account exactly the sum of the
   * list's paid payments that name it.
   */
  lemma PaidToRecipients(calls: seq<(Context, Call)>, id: string, account: string)
    requires var w := Run(calls); id in w.lists && PlainList(w.lists[id])
    ensures var w := Run(calls);
            Sum(SentFor(w.sent, id), PaysTo(AssetOf(w.lists[id].tokenId), account))
            == Sum(w.lists[id].payments, PaidTo(account))
  {
    RunKeepsInv(calls);
    ListPaysRecipients(Run(calls), id);
  }

  /** `t` pays a payment: its amount, in the list's asset, to its recipient. */
  ghost predicate PaysExactly(tokenId: string, t: Transfer, p: Payment) {
    Carried(t) == Funds(AssetOf(tokenId), p.amount) && Receiver(t) == Some(p.recipient)
  }

  /**
   * In every run a list's payments are paid front to back, each once and in order, and only payable ones: the first
   * `k` are marked paid, and the transfers sent for the list are theirs, one for each.
   */
  lemma PaidExactlyOnce(calls: seq<(Context, Call)>, id: string)
    requires id in Run(calls).lists
    ensures var list, sent := Run(calls).lists[id], SentFor(Run(calls).sent, id);
            exists k: nat ::
              && PaidPrefix(list.payments, k) && AllPayable(RouteOf(list.tokenId), list.payments[..k])
              && sent == TransfersOf(RouteOf(list.tokenId), list.payments[..k]) && |sent| == k
              && forall i :: 0 <= i < k && PlainNames(list.tokenId, list.payments[i].recipient) ==>
                   PaysExactly(list.tokenId, sent[i], list.payments[i])
  {
    var w := Run(calls);
    RunKeepsInv(calls);
    assert ListInv(w, id);
    var list, sent := w.lists[id], SentFor(w.sent, id);
    var k: nat :| PaidUpTo(list, sent, k);
    forall i | 0 <= i < k && PlainNames(list.tokenId, list.payments[i].recipient)
      ensures PaysExactly(list.tokenId, sent[i], list.payments[i])
    {
      assert list.payments[..k][i] == list.payments[i];
      PlainCarries(list.tokenId, list.payments[i]);
      PlainPaysRecipient(list.tokenId, list.payments[i]);
    }
  }
}
