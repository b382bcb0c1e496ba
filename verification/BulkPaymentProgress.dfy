/** How far payouts get: one call, and any number of calls in a run. */
module BulkPaymentProgress {
  import opened BulkPayment
  import opened BulkPaymentRuns

  // ---------------------------------------------------------------------------
  // Counting what is pending.
  // ---------------------------------------------------------------------------

  lemma {:induction false} PendingCountPrefix(ps: seq<Payment>, k: nat)
    requires PaidPrefix(ps, k)
    ensures PendingCount(ps) == |ps| - k
    decreases |ps|
  {
    if ps != [] {
      var n := |ps| - 1;
      PendingCountPrefix(ps[..n], if k <= n then k else n);
    }
  }

  lemma {:induction false} PendingCountHead(ps: seq<Payment>)
    requires ps != []
    ensures PendingCount(ps) == PendingCount(ps[1..]) + if ps[0].status.Pending? then 1 else 0
  {
    var n := |ps| - 1;
    if n > 0 {
      PendingCountHead(ps[..n]);
      assert ps[..n][1..] == ps[1..][..n - 1];
    }
  }

  lemma {:induction false} PendingCountPositive(ps: seq<Payment>, j: nat)
    requires j < |ps| && ps[j].status.Pending?
    ensures PendingCount(ps) > 0
    decreases |ps|
  {
    if j < |ps| - 1 {
      PendingCountPositive(ps[..|ps| - 1], j);
    }
  }

  /** Payments that only evolve never become pending again. */
  lemma {:induction false} PendingNeverGrows(ps: seq<Payment>, qs: seq<Payment>)
    requires |ps| == |qs| && forall i :: 0 <= i < |ps| ==> PaymentEvolves(ps[i], qs[i])
    ensures PendingCount(qs) <= PendingCount(ps)
  {
    if ps != [] {
      var n := |ps| - 1;
      PendingNeverGrows(ps[..n], qs[..n]);
      assert PaymentEvolves(ps[n], qs[n]);
    }
  }

  /** Every payment left can be paid. */
  ghost predicate RestPayable(route: Route, ps: seq<Payment>) {
    forall i :: 0 <= i < |ps| && ps[i].status.Pending? ==> route.payable(ps[i].recipient)
  }

  ghost predicate ListPayable(list: PaymentList) {
    RestPayable(RouteOf(list.tokenId), list.payments)
  }

  // ---------------------------------------------------------------------------
  // One call.
  // ---------------------------------------------------------------------------

  /** A payout that does not panic returns how many payments remain, and leaves fewer than before if any did. */
  lemma PayoutProgress(calls: seq<(Context, Call)>, ctx: Context, id: string)
    requires BatchPayout(Run(calls), ctx, id).Ok?
    ensures var w, r := Run(calls), BatchPayout(Run(calls), ctx, id);
            && r.value == PendingCount(r.world.lists[id].payments)
            && (PendingCount(w.lists[id].payments) > 0 ==> r.value < PendingCount(w.lists[id].payments))
  {
    var w := Run(calls);
    RunKeepsInv(calls);
    assert ListInv(w, id);
    var ps, route := w.lists[id].payments, RouteOf(w.lists[id].tokenId);
    var k: nat :| PaidUpTo(w.lists[id], SentFor(w.sent, id), k);
    var m := PayoutPaysPrefix(ps, k, route, ctx, 0, false);
    PaidFurtherPrefix(ps, PayFrom(ps, route, ctx, 0, false).payments, k, m, ctx.blockHeight);
    PendingCountPrefix(ps, k);
    PendingCountPrefix(PayFrom(ps, route, ctx, 0, false).payments, m);
  }

  /** Gas for the first payment is enough for a payout not to panic, if everything left is payable. */
  lemma {:induction false} PayoutSucceeds(ps: seq<Payment>, route: Route, ctx: Context, checks: nat, found: bool)
    requires RestPayable(route, ps) && (found || route.gasNeeded <= ctx.gas(checks))
    ensures PayFrom(ps, route, ctx, checks, found).Done?
  {
    if ps != [] {
      assert RestPayable(route, ps[1..]);
      if ps[0].status.Paid? {
        PayoutSucceeds(ps[1..], route, ctx, checks, found);
      } else if route.gasNeeded <= ctx.gas(checks) {
        PayoutSucceeds(ps[1..], route, ctx, checks + 1, true);
      }
    }
  }

  lemma {:induction false} GasLackAfterFirst(ps: seq<Payment>, route: Route, ctx: Context, checks: nat)
    requires route.failure != InsufficientGas
    ensures PayFrom(ps, route, ctx, checks, true) != Aborted(InsufficientGas)
  {
    if ps != [] {
      GasLackAfterFirst(ps[1..], route, ctx, if ps[0].status.Paid? then checks else checks + 1);
    }
  }

  lemma {:induction false} GasLackIff(ps: seq<Payment>, route: Route, ctx: Context)
    requires route.failure != InsufficientGas
    ensures PayFrom(ps, route, ctx, 0, false) == Aborted(InsufficientGas)
            <==> PendingCount(ps) > 0 && ctx.gas(0) < route.gasNeeded
  {
    if ps != [] {
      PendingCountHead(ps);
      if ps[0].status.Paid? {
        GasLackIff(ps[1..], route, ctx);
      } else {
        GasLackAfterFirst(ps[1..], route, ctx, 1);
      }
    }
  }

  /**
   * A payout of an approved list panics for lack of gas exactly when something is pending and the first check finds
   * less than 18 TGas for a list in NEAR or less than 65 TGas for any other.
   */
  lemma LacksGasIff(w: World, ctx: Context, id: string)
    requires id in w.lists && w.lists[id].status == Approved
    ensures var list := w.lists[id];
            BatchPayout(w, ctx, id) == Panic(InsufficientGas)
            <==> PendingCount(list.payments) > 0
                 && ctx.gas(0) < (if list.tokenId in ["native", "near", "NEAR"] then 18 else 65) * 1_000_000_000_000
  {
    var list := w.lists[id];
    GasLackIff(list.payments, RouteOf(list.tokenId), ctx);
    assert "nep141:"[1] == 'e' && "native"[1] == 'a' && |"near"| == 4 && |"NEAR"| == 4 && |"nep141:"| == 7;
  }

  /**
   * A payment can be paid exactly when the list pays a token of the intents contract, or the account that the transfer
   * goes to, the recipient for NEAR and the token's contract otherwise, is named by an account id.
   */
  lemma PayableIff(tokenId: string, recipient: string)
    ensures RouteOf(tokenId).payable(recipient)
            <==> || "nep141:" <= tokenId
                 || AccountId.Accepted(if tokenId in ["native", "near", "NEAR"] then recipient else tokenId)
  {
    AccountId.PatternIffSeparated(recipient);
    AccountId.PatternIffSeparated(tokenId);
    assert "nep141:"[1] == 'e' && "native"[1] == 'a' && |"near"| == 4 && |"NEAR"| == 4 && |"nep141:"| == 7;
  }

  /** There is gas for a payment at `n` checks, from the one numbered `checks` on. */
  ghost predicate AmpleGas(ctx: Context, route: Route, checks: nat, n: nat) {
    forall i: nat :: checks <= i < checks + n ==> route.gasNeeded <= ctx.gas(i)
  }

  lemma {:induction false} AmplePayout(ps: seq<Payment>, route: Route, ctx: Context, checks: nat, found: bool)
    requires AmpleGas(ctx, route, checks, PendingCount(ps))
    ensures PayFrom(ps, route, ctx, checks, found).Done? <==> RestPayable(route, ps)
    ensures var r := PayFrom(ps, route, ctx, checks, found); r.Done? ==> PendingCount(r.payments) == 0
  {
    if ps != [] {
      var c, f := if ps[0].status.Paid? then checks else checks + 1, if ps[0].status.Paid? then found else true;
      PendingCountHead(ps);
      AmplePayout(ps[1..], route, ctx, c, f);
      assert forall i :: 0 <= i < |ps| - 1 ==> ps[1..][i] == ps[i + 1];
      var r := PayFrom(ps, route, ctx, checks, found);
      if r.Done? {
        PendingCountHead(r.payments);
        assert r.payments[1..] == PayFrom(ps[1..], route, ctx, c, f).payments;
      }
    }
  }

  /** A call with gas for every payment left pays all of them exactly when each is payable; otherwise it panics. */
  lemma AmplePayoutCompletesIff(calls: seq<(Context, Call)>, ctx: Context, id: string)
    requires id in Run(calls).lists && Run(calls).lists[id].status == Approved
    requires var list := Run(calls).lists[id];
             AmpleGas(ctx, RouteOf(list.tokenId), 0, PendingCount(list.payments))
    ensures var w := Run(calls);
            var r := BatchPayout(w, ctx, id);
            && (r.Ok? <==> ListPayable(w.lists[id]))
            && (r.Ok? ==> r.value == 0)
  {
    var list := Run(calls).lists[id];
    AmplePayout(list.payments, RouteOf(list.tokenId), ctx, 0, false);
  }

  // ---------------------------------------------------------------------------
  // Whole runs.
  // ---------------------------------------------------------------------------

  lemma PayableWithin(route: Route, ps: seq<Payment>, k: nat, j: nat)
    requires j < k <= |ps| && AllPayable(route, ps[..k])
    ensures route.payable(ps[j].recipient)
  {
    assert ps[..k][j] == ps[j];
  }

  /** A payment that cannot be paid blocks itself and everything behind it in every run. */
  lemma UnpayableBlocks(calls: seq<(Context, Call)>, id: string, j: nat)
    requires id in Run(calls).lists && j < |Run(calls).lists[id].payments|
    requires !RouteOf(Run(calls).lists[id].tokenId).payable(Run(calls).lists[id].payments[j].recipient)
    ensures forall i :: j <= i < |Run(calls).lists[id].payments| ==>
              Run(calls).lists[id].payments[i].status.Pending?
  {
    var w := Run(calls);
    RunKeepsInv(calls);
    assert ListInv(w, id);
    var k: nat :| PaidUpTo(w.lists[id], SentFor(w.sent, id), k);
    if j < k {
      PayableWithin(RouteOf(w.lists[id].tokenId), w.lists[id].payments, k, j);
    }
  }

  /** A payout call with gas for one payment. */
  predicate IsFuelledPayout(ctx: Context, call: Call, id: string, gasNeeded: nat) {
    call == PayoutBatch(id) && ctx.deposit == 0 && gasNeeded <= ctx.gas(0)
  }

  /** How many such calls a continuation holds, among whatever others. */
  function FuelledPayouts(more: seq<(Context, Call)>, id: string, gasNeeded: nat): nat {
    if more == [] then 0
    else
      var last := more[|more| - 1];
      FuelledPayouts(more[..|more| - 1], id, gasNeeded)
      + if IsFuelledPayout(last.0, last.1, id, gasNeeded) then 1 else 0
  }

  /** What a list has left to pay. */
  function Left(w: World, id: string): nat {
    if id in w.lists then PendingCount(w.lists[id].payments) else 0
  }

  lemma EvolvedPayable(a: PaymentList, b: PaymentList)
    requires Evolves(a, b) && ListPayable(a)
    ensures ListPayable(b)
  {
    forall i | 0 <= i < |b.payments| && b.payments[i].status.Pending?
      ensures RouteOf(b.tokenId).payable(b.payments[i].recipient)
    {
      assert PaymentEvolves(a.payments[i], b.payments[i]);
    }
  }

  /** One more call never adds pending payments, and a fuelled payout takes at least one away. */
  lemma OneMoreCallLeaves(calls: seq<(Context, Call)>, ctx: Context, call: Call, id: string)
    requires id in Run(calls).lists && Run(calls).lists[id].status == Approved && ListPayable(Run(calls).lists[id])
    ensures var w, w' := Run(calls), Exec(Run(calls), ctx, call);
            && Left(w', id) <= Left(w, id)
            && (IsFuelledPayout(ctx, call, id, RouteOf(w.lists[id].tokenId).gasNeeded) && Left(w, id) > 0
                ==> Left(w', id) < Left(w, id))
  {
    var w := Run(calls);
    var list := w.lists[id];
    ExecEvolves(w, ctx, call, id);
    PendingNeverGrows(list.payments, Exec(w, ctx, call).lists[id].payments);
    if IsFuelledPayout(ctx, call, id, RouteOf(list.tokenId).gasNeeded) {
      PayoutSucceeds(list.payments, RouteOf(list.tokenId), ctx, 0, false);
      PayoutProgress(calls, ctx, id);
    }
  }

  lemma RunOneMore(calls: seq<(Context, Call)>, ctx: Context, call: Call)
    ensures Run(calls + [(ctx, call)]) == Exec(Run(calls), ctx, call)
  {
    assert (calls + [(ctx, call)])[..|calls|] == calls;
  }

  lemma ContinuedEvolves(calls: seq<(Context, Call)>, more: seq<(Context, Call)>, id: string)
    requires id in Run(calls).lists
    ensures id in Run(calls + more).lists && Evolves(Run(calls).lists[id], Run(calls + more).lists[id])
  {
    assert (calls + more)[..|calls|] == calls;
    RunEvolves(calls + more, |calls|, id);
  }

  /** The list is approved, pays by a route with this need of gas, and everything left of it is payable. */
  ghost predicate Underway(w: World, id: string, gasNeeded: nat) {
    && id in w.lists && w.lists[id].status == Approved && ListPayable(w.lists[id])
    && RouteOf(w.lists[id].tokenId).gasNeeded == gasNeeded
  }

  lemma StaysUnderway(calls: seq<(Context, Call)>, more: seq<(Context, Call)>, id: string, gasNeeded: nat)
    requires Underway(Run(calls), id, gasNeeded)
    ensures Underway(Run(calls + more), id, gasNeeded)
  {
    ContinuedEvolves(calls, more, id);
    EvolvedPayable(Run(calls).lists[id], Run(calls + more).lists[id]);
  }

  lemma OneMoreLeaves(calls: seq<(Context, Call)>, last: (Context, Call), id: string, gasNeeded: nat)
    requires Underway(Run(calls), id, gasNeeded)
    ensures Left(Run(calls + [last]), id) <= Left(Run(calls), id)
    ensures IsFuelledPayout(last.0, last.1, id, gasNeeded) && Left(Run(calls), id) > 0 ==>
              Left(Run(calls + [last]), id) < Left(Run(calls), id)
  {
    RunOneMore(calls, last.0, last.1);
    OneMoreCallLeaves(calls, last.0, last.1, id);
  }

  lemma Extended<T>(s: seq<T>, more: seq<T>, n: nat)
    requires n < |more|
    ensures s + more[..n + 1] == (s + more[..n]) + [more[n]]
  {
  }

  /** `lefts[n]` is left after `n` more calls: it never grows, and drops with each fuelled payout until it is 0. */
  ghost predicate DropsWith(lefts: seq<nat>, more: seq<(Context, Call)>, id: string, gasNeeded: nat) {
    && |lefts| == |more| + 1
    && forall n :: 0 <= n < |more| ==>
         && lefts[n + 1] <= lefts[n]
         && (IsFuelledPayout(more[n].0, more[n].1, id, gasNeeded) && lefts[n] > 0 ==> lefts[n + 1] < lefts[n])
  }

  lemma {:induction false} CountDown(lefts: seq<nat>, more: seq<(Context, Call)>, id: string, gasNeeded: nat)
    requires DropsWith(lefts, more, id, gasNeeded)
    ensures var n := |more|; lefts[n] == 0 || lefts[n] + FuelledPayouts(more, id, gasNeeded) <= lefts[0]
    decreases |more|
  {
    if more != [] {
      CountDown(lefts[..|more|], more[..|more| - 1], id, gasNeeded);
    }
  }

  /**
   * From any moment at which everything left of an approved list is payable: with whatever other calls between them,
   * each payout call with gas for one payment brings the list at least one payment closer to its end.
   */
  lemma PayoutsComplete(calls: seq<(Context, Call)>, more: seq<(Context, Call)>, id: string, gasNeeded: nat)
    requires Underway(Run(calls), id, gasNeeded)
    ensures var left := Left(Run(calls + more), id);
            left == 0 || left + FuelledPayouts(more, id, gasNeeded) <= Left(Run(calls), id)
  {
    var lefts := seq(|more| + 1, n requires 0 <= n <= |more| => Left(Run(calls + more[..n]), id));
    forall n | 0 <= n < |more|
      ensures lefts[n + 1] <= lefts[n]
      ensures IsFuelledPayout(more[n].0, more[n].1, id, gasNeeded) && lefts[n] > 0 ==> lefts[n + 1] < lefts[n]
    {
      Extended(calls, more, n);
      StaysUnderway(calls, more[..n], id, gasNeeded);
      OneMoreLeaves(calls + more[..n], more[n], id, gasNeeded);
    }
    CountDown(lefts, more, id, gasNeeded);
    assert calls + more[..0] == calls && more[..|more|] == more;
  }

  /** Every continuation with as many fuelled payouts as there are payments left pays all of them. */
  ghost predicate PayoutsFinish(calls: seq<(Context, Call)>, id: string, gasNeeded: nat) {
    forall more :: Left(Run(calls), id) <= FuelledPayouts(more, id, gasNeeded) ==> Left(Run(calls + more), id) == 0
  }

  /** Some continuation pays all of them. */
  ghost predicate CanFinish(calls: seq<(Context, Call)>, id: string) {
    exists more :: Left(Run(calls + more), id) == 0
  }

  lemma UnpayableLeft(calls: seq<(Context, Call)>, more: seq<(Context, Call)>, id: string, j: nat)
    requires id in Run(calls).lists && j < |Run(calls).lists[id].payments|
    requires !RouteOf(Run(calls).lists[id].tokenId).payable(Run(calls).lists[id].payments[j].recipient)
    ensures Left(Run(calls + more), id) > 0
  {
    ContinuedEvolves(calls, more, id);
    var a, b := Run(calls).lists[id], Run(calls + more).lists[id];
    assert PaymentEvolves(a.payments[j], b.payments[j]);
    UnpayableBlocks(calls + more, id, j);
    PendingCountPositive(b.payments, j);
  }

  /** A payout call with a given amount of gas at every check. */
  function PayoutCall(id: string, gas: nat): (Context, Call) {
    (Context("", "", 0, 0, 0, (n: nat) => gas), PayoutBatch(id))
  }

  lemma {:induction false} EnoughCalls(id: string, gas: nat, n: nat)
    ensures FuelledPayouts(seq(n, _ => PayoutCall(id, gas)), id, gas) == n
  {
    if n > 0 {
      EnoughCalls(id, gas, n - 1);
      assert seq(n, _ => PayoutCall(id, gas))[..n - 1] == seq(n - 1, _ => PayoutCall(id, gas));
    }
  }

  /**
   * What is left of an approved list can be paid at all exactly when each payment left is payable, and then any
   * sequence of calls with enough payouts pays it, however the gas of each is cut.
   */
  lemma CompletesIff(calls: seq<(Context, Call)>, id: string)
    requires id in Run(calls).lists && Run(calls).lists[id].status == Approved
    ensures var list := Run(calls).lists[id];
            && (CanFinish(calls, id) <==> ListPayable(list))
            && (PayoutsFinish(calls, id, RouteOf(list.tokenId).gasNeeded) <==> ListPayable(list))
  {
    var list := Run(calls).lists[id];
    var gas, n := RouteOf(list.tokenId).gasNeeded, Left(Run(calls), id);
    var enough := seq(n, _ => PayoutCall(id, gas));
    EnoughCalls(id, gas, n);
    if ListPayable(list) {
      forall more | n <= FuelledPayouts(more, id, gas) ensures Left(Run(calls + more), id) == 0 {
        PayoutsComplete(calls, more, id, gas);
      }
      assert Left(Run(calls + enough), id) == 0;
    } else {
      var j: nat :| j < |list.payments| && list.payments[j].status.Pending?
                    && !RouteOf(list.tokenId).payable(list.payments[j].recipient);
      forall more ensures Left(Run(calls + more), id) > 0 {
        UnpayableLeft(calls, more, id, j);
      }
      assert n <= FuelledPayouts(enough, id, gas);
    }
  }
}
