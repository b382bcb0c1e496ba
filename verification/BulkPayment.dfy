/** The bulk payment contract: storage credits, payment lists, approval and batched payout. */
module BulkPayment {
  import opened JsonText
  import opened Wrappers
  import AccountId

  const U64 := 0x1_0000_0000_0000_0000
  const U128 := U64 * U64
  const TGAS := 1_000_000_000_000

  datatype PaymentStatus = Pending | Paid(blockHeight: nat)

  datatype Payment = Payment(recipient: string, amount: nat, status: PaymentStatus)

  datatype ListStatus = AwaitingApproval | Approved | Rejected

  datatype PaymentList = PaymentList(
    tokenId: string, submitter: string, status: ListStatus, payments: seq<Payment>, createdAt: nat)

  /** NEAR itself, a token (NEP-141) by its contract, or one token of a multi-token contract (NEP-245). */
  datatype Asset = Near | Token(contract: string) | MultiToken(contract: string, tokenId: string)

  datatype Funds = Funds(asset: Asset, amount: nat)

  /**
   * What the runtime is told to send; `args` is the text of a call's arguments and `attached` the NEAR sent with it.
   */
  datatype Transfer =
    | NearTransfer(recipient: string, amount: nat)
    | FtTransfer(token: string, args: string, attached: nat)   // `ft_transfer` on the token's contract
    | FtWithdraw(args: string, attached: nat)                  // `ft_withdraw` on intents.near

  datatype Sent = Sent(listId: string, transfer: Transfer)

  /**
   * The contract's two maps (the lists with their insertion order), and what the outside saw: the transfers sent,
   * the funds received with the call that approved each list and the records bought for each account.
   */
  datatype World = World(
    ids: seq<string>, lists: map<string, PaymentList>, credits: map<string, nat>,
    sent: seq<Sent>, receipts: map<string, Funds>, bought: map<string, nat>)

  /** What a call sees of the chain; `gas(k)` is the gas left at the k-th gas check of the call. */
  datatype Context = Context(
    predecessor: string, current: string, deposit: nat, blockHeight: nat, blockTimestamp: nat, gas: nat -> nat)

  datatype PaymentInput = PaymentInput(recipient: string, amount: nat)

  datatype Call =
    | BuyStorage(numRecords: nat, beneficiary: Option<string>)
    | SubmitList(listId: string, tokenId: string, inputs: seq<PaymentInput>, submitterId: Option<string>)
    | ApproveList(listId: string)
    | FtOnTransfer(sender: string, amount: nat, msg: string)
    | MtOnTransfer(tokenIds: seq<string>, amounts: seq<nat>, msg: string)
    | PayoutBatch(listId: string)
    | RejectList(listId: string)

  datatype Error =
    | NoRecords | Overflow | WrongDeposit | EmptyList | InvalidListId | ListExists | NotContractAccount
    | InsufficientCredits | ListNotFound | NotSubmitter | NotPending | NotSingleToken | TokenMismatch
    | NotApproved | InsufficientGas | InvalidRecipient | InvalidToken | DepositRefused

  /** A call that panics leaves no trace: the runtime discards its changes and its transfers. */
  datatype Outcome = Ok(world: World, value: nat) | Panic(error: Error)

  // ---------------------------------------------------------------------------
  // Storage credits.
  // ---------------------------------------------------------------------------

  const YOCTO_PER_BYTE := 10_000_000_000_000_000_000

  /** The price of one record: 216 bytes and ten per cent. */
  const RECORD_PRICE := 2376_000_000_000_000_000_000

  /** The price of storage for some records, or `None` where the checked arithmetic overflows. */
  function StorageCost(numRecords: nat): Option<nat> {
    var storageBytes := 216 * numRecords;
    if storageBytes >= U64 then None
    else
      var yocto := storageBytes * YOCTO_PER_BYTE;
      if yocto >= U128 || yocto * 11 >= U128 then None else Some(yocto * 11 / 10)
  }

  /**
   * The arithmetic overflows exactly beyond 14321648439433437 records; up to there the ten per cent are added
   * exactly, with no rounding, so the price is proportional to the records.
   */
  lemma StorageCostExactIff(numRecords: nat)
    ensures StorageCost(numRecords).Some? <==> numRecords <= 14321648439433437
    ensures StorageCost(numRecords).Some? ==>
              StorageCost(numRecords).value == numRecords * StorageCost(1).value
              && 10 * StorageCost(numRecords).value == 11 * (216 * numRecords * YOCTO_PER_BYTE)
  {
    assert StorageCost(1) == Some(RECORD_PRICE);
  }

  function Count(m: map<string, nat>, k: string): nat {
    if k in m then m[k] else 0
  }

  // ---------------------------------------------------------------------------
  // Payments and payout.
  // ---------------------------------------------------------------------------

  datatype TokenKind = Intents(token: string) | Native | Nep141(token: string)

  function KindOf(tokenId: string): TokenKind {
    if "nep141:" <= tokenId then Intents(tokenId[7..])
    else if tokenId == "native" || tokenId == "near" || tokenId == "NEAR" then Native
    else Nep141(tokenId)
  }

  predicate EndsWith(s: string, suffix: string) {
    |suffix| <= |s| && s[|s| - |suffix|..] == suffix
  }

  /** A NEAR account id, by the rules the runtime parses it with. */
  predicate IsAccountId(s: string) {
    2 <= |s| <= 64 && AccountId.Separated(AccountId.SEPARATORS, s)
  }

  const INTENTS := "intents.near"

  /** What token contracts ask to be attached to a transfer. */
  const ONE_YOCTO := 1

  /** Tokens of the bridge need a memo that names the recipient on the other chain. */
  predicate IsPoaToken(token: string) {
    EndsWith(token, ".omft.near")
  }

  function FtTransferArgs(recipient: string, amount: nat): string {
    "{\"receiver_id\":\"" + recipient + "\",\"amount\":\"" + Decimal(amount) + "\"}"
  }

  function FtWithdrawArgs(token: string, recipient: string, amount: nat): string {
    if IsPoaToken(token)
    then "{\"token\":\"" + token + "\",\"receiver_id\":\"" + token + "\",\"amount\":\"" + Decimal(amount)
         + "\",\"memo\":\"WITHDRAW_TO:" + recipient + "\"}"
    else "{\"token\":\"" + token + "\",\"receiver_id\":\"" + recipient + "\",\"amount\":\"" + Decimal(amount) + "\"}"
  }

  /**
   * How a kind of token is paid out: the gas one payment needs in hand, which recipients can be paid
   * (for others the call panics with `failure`) and the transfer of a payment.
   */
  datatype Route = Route(gasNeeded: nat, payable: string -> bool, failure: Error, transfer: Payment -> Transfer)

  function RouteOf(tokenId: string): Route {
    match KindOf(tokenId)
    case Intents(token) =>
      Route(65 * TGAS, (r: string) => true, InvalidRecipient,
            (p: Payment) => FtWithdraw(FtWithdrawArgs(token, p.recipient, p.amount), ONE_YOCTO))
    case Native =>
      Route(18 * TGAS, (r: string) => IsAccountId(r), InvalidRecipient,
            (p: Payment) => NearTransfer(p.recipient, p.amount))
    case Nep141(token) =>
      Route(65 * TGAS, (r: string) => IsAccountId(token), InvalidToken,
            (p: Payment) => FtTransfer(token, FtTransferArgs(p.recipient, p.amount), ONE_YOCTO))
  }

  function Total(ps: seq<Payment>): nat {
    if ps == [] then 0 else Total(ps[..|ps| - 1]) + ps[|ps| - 1].amount
  }

  function PendingCount(ps: seq<Payment>): (n: nat)
    ensures n <= |ps|
  {
    if ps == [] then 0 else PendingCount(ps[..|ps| - 1]) + if ps[|ps| - 1].status.Pending? then 1 else 0
  }

  datatype Payout = Done(payments: seq<Payment>, transfers: seq<Transfer>) | Aborted(error: Error)

  /**
   * Payout of the payments from here on; `checks` gas checks were made and `found` says whether one was paid already.
   */
  function PayFrom(ps: seq<Payment>, route: Route, ctx: Context, checks: nat, found: bool): Payout {
    if ps == [] then Done([], [])
    else if ps[0].status.Paid? then After([ps[0]], [], PayFrom(ps[1..], route, ctx, checks, found))
    else if ctx.gas(checks) < route.gasNeeded then (if found then Done(ps, []) else Aborted(InsufficientGas))
    else if !route.payable(ps[0].recipient) then Aborted(route.failure)
    else After([ps[0].(status := Paid(ctx.blockHeight))], [route.transfer(ps[0])],
               PayFrom(ps[1..], route, ctx, checks + 1, true))
  }

  function After(payments: seq<Payment>, transfers: seq<Transfer>, rest: Payout): Payout {
    match rest
    case Done(ps, ts) => Done(payments + ps, transfers + ts)
    case Aborted(_) => rest
  }

  // ---------------------------------------------------------------------------
  // The calls.
  // ---------------------------------------------------------------------------

  predicate IsListId(id: string) {
    |id| == 64 && forall i :: 0 <= i < |id| ==> IsHex(id[i])
  }

  /** A list id is 64 hexadecimal digits, in either case. */
  lemma ListIdIff(id: string)
    ensures IsListId(id) <==> |id| == 64 && forall i :: 0 <= i < |id| ==> id[i] in "0123456789abcdefABCDEF"
  {
    forall i | 0 <= i < |id| ensures IsHex(id[i]) <==> id[i] in "0123456789abcdefABCDEF" {
      HexDigitIff(id[i]);
    }
  }

  lemma HexDigitIff(c: char)
    ensures IsHex(c) <==> c in "0123456789abcdefABCDEF"
  {
    var digits := "0123456789abcdefABCDEF";
    if IsHex(c) {
      var v := HexValue(c);
      assert digits[v] == c || digits[v + 6] == c;
    }
  }

  function Records(inputs: seq<PaymentInput>): (ps: seq<Payment>)
    ensures |ps| == |inputs|
    ensures forall i :: 0 <= i < |ps| ==> ps[i] == Payment(inputs[i].recipient, inputs[i].amount, Pending)
  {
    seq(|inputs|, i requires 0 <= i < |inputs| => Payment(inputs[i].recipient, inputs[i].amount, Pending))
  }

  function Tags(listId: string, ts: seq<Transfer>): (s: seq<Sent>)
    ensures |s| == |ts| && forall i :: 0 <= i < |s| ==> s[i] == Sent(listId, ts[i])
  {
    seq(|ts|, i requires 0 <= i < |ts| => Sent(listId, ts[i]))
  }

  function WithStatus(w: World, listId: string, status: ListStatus): World
    requires listId in w.lists
  {
    w.(lists := w.lists[listId := w.lists[listId].(status := status)])
  }

  /**
   * The three approvals end alike: the list must await approval and the amount, whatever its asset, be its exact total.
   */
  function Approve(w: World, listId: string, received: Funds): Outcome
    requires listId in w.lists
  {
    var list := w.lists[listId];
    if list.status != AwaitingApproval then Panic(NotPending)
    else if Total(list.payments) >= U128 then Panic(Overflow)
    else if received.amount != Total(list.payments) then Panic(WrongDeposit)
    else Ok(WithStatus(w, listId, Approved).(receipts := w.receipts[listId := received]), 0)
  }

  function Purchase(w: World, ctx: Context, n: nat, beneficiary: Option<string>): Outcome {
    if n == 0 then Panic(NoRecords)
    else if StorageCost(n).None? then Panic(Overflow)
    else if ctx.deposit != StorageCost(n).value then Panic(WrongDeposit)
    else
      var account := if beneficiary.Some? then beneficiary.value else ctx.predecessor;
      if Count(w.credits, account) + n >= U128 then Panic(Overflow)
      else Ok(Bought(w, account, n), StorageCost(n).value)
  }

  function Bought(w: World, account: string, n: nat): World {
    w.(credits := w.credits[account := Count(w.credits, account) + n],
       bought := w.bought[account := Count(w.bought, account) + n])
  }

  function Submission(w: World, ctx: Context, id: string, tokenId: string, inputs: seq<PaymentInput>,
                      submitterId: Option<string>): Outcome
  {
    if inputs == [] then Panic(EmptyList)
    else if !IsListId(id) then Panic(InvalidListId)
    else if id in w.lists then Panic(ListExists)
    else if submitterId.Some? && ctx.predecessor != ctx.current then Panic(NotContractAccount)
    else
      var submitter := if submitterId.Some? then submitterId.value else ctx.predecessor;
      if Count(w.credits, submitter) < |inputs| then Panic(InsufficientCredits)
      else
        var list := PaymentList(tokenId, submitter, AwaitingApproval, Records(inputs), ctx.blockTimestamp);
        Ok(Submitted(w, id, list), 0)
  }

  function Submitted(w: World, id: string, list: PaymentList): World
    requires |list.payments| <= Count(w.credits, list.submitter)
  {
    w.(ids := w.ids + [id], lists := w.lists[id := list],
       credits := w.credits[list.submitter := Count(w.credits, list.submitter) - |list.payments|])
  }

  function NativeApproval(w: World, ctx: Context, id: string): Outcome {
    if id !in w.lists then Panic(ListNotFound)
    else if w.lists[id].submitter != ctx.predecessor then Panic(NotSubmitter)
    else Approve(w, id, Funds(Near, ctx.deposit))
  }

  /**
   * A callback tells of tokens already moved, and the account that calls it is the contract that moved them: whatever
   * account that is, the funds received are those of its own token.
   */
  function FtApproval(w: World, ctx: Context, sender: string, amount: nat, id: string): Outcome {
    if !IsListId(id) then Panic(InvalidListId)
    else if id !in w.lists then Panic(ListNotFound)
    else if w.lists[id].submitter != sender then Panic(NotSubmitter)
    else Approve(w, id, Funds(Token(ctx.predecessor), amount))
  }

  function MtApproval(w: World, ctx: Context, tokenIds: seq<string>, amounts: seq<nat>, id: string): Outcome {
    if !IsListId(id) then Panic(InvalidListId)
    else if id !in w.lists then Panic(ListNotFound)
    else if w.lists[id].status != AwaitingApproval then Panic(NotPending)
    else if |tokenIds| != 1 || |amounts| != 1 then Panic(NotSingleToken)
    else if w.lists[id].tokenId != tokenIds[0] then Panic(TokenMismatch)
    else Approve(w, id, Funds(MultiToken(ctx.predecessor, tokenIds[0]), amounts[0]))
  }

  function BatchPayout(w: World, ctx: Context, id: string): Outcome {
    if id !in w.lists then Panic(ListNotFound)
    else
      var list := w.lists[id];
      if list.status != Approved then Panic(NotApproved)
      else
        var r := PayFrom(list.payments, RouteOf(list.tokenId), ctx, 0, false);
        if r.Aborted? then Panic(r.error)
        else Ok(PaidOut(w, id, r.payments, r.transfers), PendingCount(r.payments))
  }

  function PaidOut(w: World, id: string, payments: seq<Payment>, transfers: seq<Transfer>): World
    requires id in w.lists
  {
    w.(lists := w.lists[id := w.lists[id].(payments := payments)], sent := w.sent + Tags(id, transfers))
  }

  function Rejection(w: World, ctx: Context, id: string): Outcome {
    if id !in w.lists then Panic(ListNotFound)
    else if w.lists[id].submitter != ctx.predecessor then Panic(NotSubmitter)
    else if w.lists[id].status != AwaitingApproval then Panic(NotPending)
    else Ok(WithStatus(w, id, Rejected), 0)
  }

  /** The methods that accept an attached deposit; the others refuse a call that brings one. */
  predicate TakesDeposit(call: Call) {
    call.BuyStorage? || call.ApproveList?
  }

  function Apply(w: World, ctx: Context, call: Call): Outcome {
    if ctx.deposit != 0 && !TakesDeposit(call) then Panic(DepositRefused) else Perform(w, ctx, call)
  }

  function Perform(w: World, ctx: Context, call: Call): Outcome {
    match call
    case BuyStorage(n, beneficiary) => Purchase(w, ctx, n, beneficiary)
    case SubmitList(id, tokenId, inputs, submitterId) => Submission(w, ctx, id, tokenId, inputs, submitterId)
    case ApproveList(id) => NativeApproval(w, ctx, id)
    case FtOnTransfer(sender, amount, id) => FtApproval(w, ctx, sender, amount, id)
    case MtOnTransfer(tokenIds, amounts, id) => MtApproval(w, ctx, tokenIds, amounts, id)
    case PayoutBatch(id) => BatchPayout(w, ctx, id)
    case RejectList(id) => Rejection(w, ctx, id)
  }

  /** The world after a call, whether or not it panicked. */
  function Exec(w: World, ctx: Context, call: Call): World {
    match Apply(w, ctx, call)
    case Ok(w', _) => w'
    case Panic(_) => w
  }

  const START := World([], map[], map[], [], map[], map[])

  function Run(calls: seq<(Context, Call)>): World {
    if calls == [] then START
    else Exec(Run(calls[..|calls| - 1]), calls[|calls| - 1].0, calls[|calls| - 1].1)
  }
}
