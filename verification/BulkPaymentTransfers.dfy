/** What the called contracts read from the argument texts of a payout, against what the payout means to send. */
module BulkPaymentTransfers {
  import opened BulkPayment
  import opened JsonText
  import opened Wrappers

  /** The asset a list pays in. */
  function AssetOf(tokenId: string): Asset {
    match KindOf(tokenId)
    case Native => Near
    case Nep141(token) => Token(token)
    case Intents(_) => MultiToken(INTENTS, tokenId)
  }

  // ---------------------------------------------------------------------------
  // The texts as fields.
  // ---------------------------------------------------------------------------

  function FtTransferFields(recipient: string, amount: nat): seq<Field> {
    [Field("receiver_id", recipient), Field("amount", Decimal(amount))]
  }

  function FtWithdrawFields(token: string, recipient: string, amount: nat): seq<Field> {
    if IsPoaToken(token)
    then [Field("token", token), Field("receiver_id", token), Field("amount", Decimal(amount)),
          Field("memo", "WITHDRAW_TO:" + recipient)]
    else [Field("token", token), Field("receiver_id", recipient), Field("amount", Decimal(amount))]
  }

  /** The fields that a payment means to send, for kinds of token that are paid by a call. */
  function IntendedFields(tokenId: string, recipient: string, amount: nat): seq<Field>
    requires !KindOf(tokenId).Native?
  {
    match KindOf(tokenId)
    case Intents(token) => FtWithdrawFields(token, recipient, amount)
    case Nep141(_) => FtTransferFields(recipient, amount)
  }

  lemma Nest(a: string, b: string, c: string)
    ensures (a + b) + c == a + (b + c)
  {
  }

  /** A field after some text, with the literal that leads up to its value. */
  lemma FieldSpelled(open: string, lead: string, f: Field, rest: string)
    requires lead == open + (['"'] + f.name + ['"', ':', '"'])
    ensures open + FieldText(Unescaped, f, rest) == lead + (f.value + (['"'] + rest))
  {
  }

  /** The last field after some text, with the brace that closes the object. */
  lemma LastField(text: string, open: string, lead: string, f: Field)
    requires lead == open + (['"'] + f.name + ['"', ':', '"'])
    ensures text + open + FieldsText(FieldWriter(Unescaped), [f]) == text + lead + f.value + ['"', '}']
  {
    FieldSpelled(open, lead, f, ['}']);
    assert ['"'] + ['}'] == ['"', '}'];
    Nest(text, open, FieldText(Unescaped, f, ['}']));
    Nest(text, lead, f.value + ['"', '}']);
    Nest(text + lead, f.value, ['"', '}']);
  }

  /** A field after some text, with the comma that leads to the others. */
  lemma NextField(text: string, open: string, lead: string, f: Field, fs: seq<Field>)
    requires lead == open + (['"'] + f.name + ['"', ':', '"']) && fs != []
    ensures text + open + FieldsText(FieldWriter(Unescaped), [f] + fs)
            == text + lead + f.value + ['"', ','] + FieldsText(FieldWriter(Unescaped), fs)
  {
    var more := FieldsText(FieldWriter(Unescaped), fs);
    assert ([f] + fs)[1..] == fs;
    FieldSpelled(open, lead, f, [','] + more);
    assert ['"'] + ([','] + more) == ['"', ','] + more;
    Nest(text, open, FieldText(Unescaped, f, [','] + more));
    Nest(text, lead, f.value + (['"', ','] + more));
    Nest(text + lead, f.value, ['"', ','] + more);
    Nest(text + lead + f.value, ['"', ','], more);
  }

  lemma TwoFields(a: string, f: Field, b: string, g: Field)
    requires a == ['{'] + (['"'] + f.name + ['"', ':', '"'])
    requires b == ['"', ','] + (['"'] + g.name + ['"', ':', '"'])
    ensures ObjectText(Unescaped, [f, g]) == a + f.value + b + g.value + ['"', '}']
  {
    NextField([], ['{'], a, f, [g]);
    LastField(a + f.value, ['"', ','], b, g);
    assert [] + ['{'] == ['{'] && [] + a == a && [f] + [g] == [f, g];
  }

  lemma ThreeFields(a: string, f: Field, b: string, g: Field, c: string, h: Field)
    requires a == ['{'] + (['"'] + f.name + ['"', ':', '"'])
    requires b == ['"', ','] + (['"'] + g.name + ['"', ':', '"'])
    requires c == ['"', ','] + (['"'] + h.name + ['"', ':', '"'])
    ensures ObjectText(Unescaped, [f, g, h]) == a + f.value + b + g.value + c + h.value + ['"', '}']
  {
    NextField([], ['{'], a, f, [g, h]);
    NextField(a + f.value, ['"', ','], b, g, [h]);
    LastField(a + f.value + b + g.value, ['"', ','], c, h);
    assert [] + ['{'] == ['{'] && [] + a == a && [f] + [g, h] == [f, g, h] && [g] + [h] == [g, h];
  }

  lemma FourFields(a: string, f: Field, b: string, g: Field, c: string, h: Field, d: string, i: Field)
    requires a == ['{'] + (['"'] + f.name + ['"', ':', '"'])
    requires b == ['"', ','] + (['"'] + g.name + ['"', ':', '"'])
    requires c == ['"', ','] + (['"'] + h.name + ['"', ':', '"'])
    requires d == ['"', ','] + (['"'] + i.name + ['"', ':', '"'])
    ensures ObjectText(Unescaped, [f, g, h, i])
            == a + f.value + b + g.value + c + h.value + d + i.value + ['"', '}']
  {
    NextField([], ['{'], a, f, [g, h, i]);
    NextField(a + f.value, ['"', ','], b, g, [h, i]);
    NextField(a + f.value + b + g.value, ['"', ','], c, h, [i]);
    LastField(a + f.value + b + g.value + c + h.value, ['"', ','], d, i);
    assert [] + ['{'] == ['{'] && [] + a == a && [f] + [g, h, i] == [f, g, h, i];
    assert [g] + [h, i] == [g, h, i] && [h] + [i] == [h, i];
  }

  lemma FtTransferText(recipient: string, amount: nat)
    ensures FtTransferArgs(recipient, amount) == ObjectText(Unescaped, FtTransferFields(recipient, amount))
  {
    TwoFields("{\"receiver_id\":\"", Field("receiver_id", recipient),
              "\",\"amount\":\"", Field("amount", Decimal(amount)));
  }

  lemma FtWithdrawText(token: string, recipient: string, amount: nat)
    requires !IsPoaToken(token)
    ensures FtWithdrawArgs(token, recipient, amount)
            == ObjectText(Unescaped, FtWithdrawFields(token, recipient, amount))
  {
    ThreeFields("{\"token\":\"", Field("token", token), "\",\"receiver_id\":\"", Field("receiver_id", recipient),
                "\",\"amount\":\"", Field("amount", Decimal(amount)));
  }

  lemma PoaWithdrawText(token: string, recipient: string, amount: nat)
    requires IsPoaToken(token)
    ensures FtWithdrawArgs(token, recipient, amount)
            == ObjectText(Unescaped, FtWithdrawFields(token, recipient, amount))
  {
    FourFields("{\"token\":\"", Field("token", token), "\",\"receiver_id\":\"", Field("receiver_id", token),
               "\",\"amount\":\"", Field("amount", Decimal(amount)),
               "\",\"memo\":\"", Field("memo", "WITHDRAW_TO:" + recipient));
    MemoText("{\"token\":\"" + token + "\",\"receiver_id\":\"" + token + "\",\"amount\":\"" + Decimal(amount),
             recipient);
  }

  lemma MemoText(text: string, recipient: string)
    ensures text + "\",\"memo\":\"" + ("WITHDRAW_TO:" + recipient) == text + "\",\"memo\":\"WITHDRAW_TO:" + recipient
  {
    assert "\",\"memo\":\"" + "WITHDRAW_TO:" == "\",\"memo\":\"WITHDRAW_TO:";
    Nest(text + "\",\"memo\":\"", "WITHDRAW_TO:", recipient);
    Nest(text, "\",\"memo\":\"", "WITHDRAW_TO:");
  }

  /** The text of a payment is its intended fields, each value put between quotes as it is. */
  lemma ArgsAreFields(tokenId: string, p: Payment)
    requires !KindOf(tokenId).Native?
    ensures RouteOf(tokenId).transfer(p).args == ObjectText(Unescaped, IntendedFields(tokenId, p.recipient, p.amount))
  {
    match KindOf(tokenId)
    case Intents(token) =>
      if IsPoaToken(token) {
        PoaWithdrawText(token, p.recipient, p.amount);
      } else {
        FtWithdrawText(token, p.recipient, p.amount);
      }
    case Nep141(_) => FtTransferText(p.recipient, p.amount);
  }

  // ---------------------------------------------------------------------------
  // When the called contract reads what was meant.
  // ---------------------------------------------------------------------------

  /** No text that goes into the arguments holds a character that JSON strings must escape. */
  predicate PlainNames(tokenId: string, recipient: string) {
    match KindOf(tokenId)
    case Native => true
    case Nep141(_) => Plain(recipient)
    case Intents(token) => Plain(token) && Plain(recipient)
  }

  lemma NumbersPlain(d: string)
    requires IsNumber(d)
    ensures Plain(d)
  {
  }

  lemma NamesPlain()
    ensures Plain("token") && Plain("receiver_id") && Plain("amount") && Plain("memo") && Plain("WITHDRAW_TO:")
  {
  }

  lemma PlainSplit(a: string, b: string)
    ensures Plain(a + b) <==> Plain(a) && Plain(b)
  {
    assert forall i :: 0 <= i < |a| ==> (a + b)[i] == a[i];
    assert forall i :: 0 <= i < |b| ==> (a + b)[|a| + i] == b[i];
  }

  lemma {:induction false} PlainFieldsStep(f: Field, fs: seq<Field>)
    ensures PlainFields([f] + fs) <==> PlainField(f) && PlainFields(fs)
  {
    assert ([f] + fs)[0] == f;
    assert forall i :: 0 <= i < |fs| ==> ([f] + fs)[i + 1] == fs[i];
  }

  lemma PlainFieldsPair(f: Field, g: Field)
    ensures PlainFields([f, g]) <==> PlainField(f) && PlainField(g)
  {
    assert [f, g][0] == f && [f, g][1] == g;
  }

  lemma PlainFieldsTriple(f: Field, g: Field, h: Field)
    ensures PlainFields([f, g, h]) <==> PlainField(f) && PlainField(g) && PlainField(h)
  {
    assert [f] + [g, h] == [f, g, h];
    PlainFieldsStep(f, [g, h]);
    PlainFieldsPair(g, h);
  }

  lemma IntendedPlainIff(tokenId: string, recipient: string, amount: nat)
    requires !KindOf(tokenId).Native?
    ensures PlainFields(IntendedFields(tokenId, recipient, amount)) <==> PlainNames(tokenId, recipient)
  {
    NamesPlain();
    NumbersPlain(Decimal(amount));
    var d := Field("amount", Decimal(amount));
    match KindOf(tokenId)
    case Nep141(_) => PlainFieldsPair(Field("receiver_id", recipient), d);
    case Intents(token) =>
      var t := Field("token", token);
      if IsPoaToken(token) {
        var r, m := Field("receiver_id", token), Field("memo", "WITHDRAW_TO:" + recipient);
        PlainSplit("WITHDRAW_TO:", recipient);
        assert [t] + [r, d, m] == [t, r, d, m];
        PlainFieldsStep(t, [r, d, m]);
        PlainFieldsTriple(r, d, m);
      } else {
        PlainFieldsTriple(t, Field("receiver_id", recipient), d);
      }
  }

  /**
   * The called contract reads the fields that the payment means to send exactly when token and recipient hold no
   * character that JSON strings must escape. Nothing checks a recipient for that unless the list pays NEAR.
   */
  lemma TransferReadsIff(tokenId: string, p: Payment)
    requires !KindOf(tokenId).Native?
    ensures ReadObject(RouteOf(tokenId).transfer(p).args) == IntendedFields(tokenId, p.recipient, p.amount)
            <==> PlainNames(tokenId, p.recipient)
  {
    var fs := IntendedFields(tokenId, p.recipient, p.amount);
    ArgsAreFields(tokenId, p);
    UnescapedReadsIff(fs);
    IntendedPlainIff(tokenId, p.recipient, p.amount);
  }

  lemma SplitValue(a: string, n: string, b: string, rest: string)
    ensures Unescaped(a + (['"', ',', '"'] + (n + (['"', ':', '"'] + b))), rest)
            == Unescaped(a, [','] + Unescaped(n, [':'] + Unescaped(b, rest)))
  {
    var q := ['"'] + rest;
    assert ['"'] + ([','] + (['"'] + (n + (['"'] + ([':'] + (['"'] + (b + q)))))))
        == ['"', ',', '"'] + (n + (['"', ':', '"'] + (b + q)));
    Nest(a, ['"', ',', '"'] + (n + (['"', ':', '"'] + b)), q);
    Nest(['"', ',', '"'], n + (['"', ':', '"'] + b), q);
    Nest(n, ['"', ':', '"'] + b, q);
    Nest(['"', ':', '"'], b, q);
  }

  /** The fields `x` and `y` at the end of an object are written like one whose value spells out both. */
  lemma {:induction false} SplitLastField(fs: seq<Field>, m: Field, x: Field, y: Field)
    requires m.name == x.name
    requires m.value == x.value + (['"', ',', '"'] + (y.name + (['"', ':', '"'] + y.value)))
    ensures FieldsText(FieldWriter(Unescaped), fs + [m]) == FieldsText(FieldWriter(Unescaped), fs + [x, y])
  {
    if fs == [] {
      SplitValue(x.value, y.name, y.value, ['}']);
      assert fs + [m] == [m] && fs + [x, y] == [x, y] && [x, y][1..] == [y];
    } else {
      SplitLastField(fs[1..], m, x, y);
      assert (fs + [m])[1..] == fs[1..] + [m] && (fs + [x, y])[1..] == fs[1..] + [x, y];
    }
  }

  /**
   * An instance: for a bridge token and a recipient that spells the end of one field and another field, the text is
   * read with a shorter memo and one field more.
   */
  lemma RecipientReadAsTwoFields(token: string, amount: nat)
    requires IsPoaToken(token) && Plain(token)
    ensures var recipient := ['x'] + (['"', ',', '"'] + ("msg" + (['"', ':', '"'] + ['y'])));
            ReadObject(FtWithdrawArgs(token, recipient, amount))
            == [Field("token", token), Field("receiver_id", token), Field("amount", Decimal(amount)),
                Field("memo", "WITHDRAW_TO:x"), Field("msg", "y")]
  {
    var more := ['"', ',', '"'] + ("msg" + (['"', ':', '"'] + ['y']));
    var fs := [Field("token", token), Field("receiver_id", token), Field("amount", Decimal(amount))];
    var m, x, y := Field("memo", "WITHDRAW_TO:" + (['x'] + more)), Field("memo", "WITHDRAW_TO:x"), Field("msg", "y");
    Nest("WITHDRAW_TO:", ['x'], more);
    assert "WITHDRAW_TO:" + ['x'] == "WITHDRAW_TO:x";
    PoaWithdrawText(token, ['x'] + more, amount);
    SplitLastField(fs, m, x, y);
    assert fs + [m] == FtWithdrawFields(token, ['x'] + more, amount);
    ReadPlain(token, amount, fs, x, y);
    assert fs + [x, y] == [fs[0], fs[1], fs[2], x, y];
  }

  lemma ReadPlain(token: string, amount: nat, fs: seq<Field>, x: Field, y: Field)
    requires fs == [Field("token", token), Field("receiver_id", token), Field("amount", Decimal(amount))]
    requires Plain(token) && x == Field("memo", "WITHDRAW_TO:x") && y == Field("msg", "y")
    ensures ReadObject(ObjectText(Unescaped, fs + [x, y])) == fs + [x, y]
  {
    NamesPlain();
    NumbersPlain(Decimal(amount));
    PlainFieldsTriple(fs[0], fs[1], fs[2]);
    PlainFieldsPair(x, y);
    assert PlainFields(fs + [x, y]);
    UnescapedReadsIff(fs + [x, y]);
  }

  // ---------------------------------------------------------------------------
  // What a transfer moves.
  // ---------------------------------------------------------------------------

  /** The value of the only field with a name; two fields with one name are an error for the reader. */
  function ValueOf(fs: seq<Field>, name: string): Option<string> {
    if fs == [] then None
    else if fs[0].name != name then ValueOf(fs[1..], name)
    else if HasField(fs[1..], name) then None
    else Some(fs[0].value)
  }

  predicate HasField(fs: seq<Field>, name: string) {
    fs != [] && (fs[0].name == name || HasField(fs[1..], name))
  }

  function AmountIn(fs: seq<Field>): nat {
    var d := ValueOf(fs, "amount");
    if d.Some? && IsNumber(d.value) then Undecimal(d.value) else 0
  }

  /**
   * The funds of the list that leave with a transfer, as the called contract reads its text; none if it reads no such
   * transfer. What the contract attaches of its own is not among them.
   */
  function Carried(t: Transfer): Funds {
    match t
    case NearTransfer(_, amount) => Funds(Near, amount)
    case FtTransfer(token, args, _) => Funds(Token(token), AmountIn(ReadObject(args)))
    case FtWithdraw(args, _) =>
      var fs := ReadObject(args);
      var token := ValueOf(fs, "token");
      if token.Some? then Funds(MultiToken("intents.near", "nep141:" + token.value), AmountIn(fs)) else Funds(Near, 0)
  }

  lemma NamesDiffer()
    ensures "token" != "amount" && "receiver_id" != "amount" && "memo" != "amount" && "receiver_id" != "token"
            && "memo" != "token"
  {
    assert |"token"| == 5 && |"amount"| == 6 && |"memo"| == 4 && |"receiver_id"| == 11;
  }

  lemma FieldStep(f: Field, fs: seq<Field>, name: string)
    ensures HasField([f] + fs, name) <==> f.name == name || HasField(fs, name)
    ensures ValueOf([f] + fs, name)
            == if f.name != name then ValueOf(fs, name) else if HasField(fs, name) then None else Some(f.value)
  {
    assert ([f] + fs)[1..] == fs;
  }

  lemma TwoValues(f: Field, g: Field, name: string)
    requires f.name != name
    ensures !HasField([f], name)
    ensures ValueOf([f, g], name) == if g.name == name then Some(g.value) else None
  {
    FieldStep(f, [], name);
    FieldStep(g, [], name);
    FieldStep(f, [g], name);
    assert [f] + [] == [f] && [g] + [] == [g] && [f] + [g] == [f, g];
  }

  lemma FtTransferValues(recipient: string, amount: nat)
    ensures AmountIn(FtTransferFields(recipient, amount)) == amount
  {
    NamesDiffer();
    TwoValues(Field("receiver_id", recipient), Field("amount", Decimal(amount)), "amount");
    UndecimalDecimal(amount);
  }

  /** A `token` and an `amount` field around one of another name, perhaps with one more at the end. */
  lemma WithdrawValues(t: Field, r: Field, d: Field, ms: seq<Field>, token: string, amount: string)
    requires t.name == token != amount == d.name && r.name != token && r.name != amount
    requires ms == [] || (|ms| == 1 && ms[0].name != token && ms[0].name != amount)
    ensures ValueOf([t] + ([r] + ([d] + ms)), token) == Some(t.value)
    ensures ValueOf([t] + ([r] + ([d] + ms)), amount) == Some(d.value)
  {
    if ms != [] {
      assert ms == [ms[0]] + [];
      FieldStep(ms[0], [], token);
      FieldStep(ms[0], [], amount);
    }
    FieldStep(d, ms, token);
    FieldStep(d, ms, amount);
    FieldStep(r, [d] + ms, token);
    FieldStep(r, [d] + ms, amount);
    FieldStep(t, [r] + ([d] + ms), token);
    FieldStep(t, [r] + ([d] + ms), amount);
  }

  lemma FtWithdrawValues(token: string, recipient: string, amount: nat)
    ensures ValueOf(FtWithdrawFields(token, recipient, amount), "token") == Some(token)
    ensures AmountIn(FtWithdrawFields(token, recipient, amount)) == amount
  {
    NamesDiffer();
    UndecimalDecimal(amount);
    var t, d := Field("token", token), Field("amount", Decimal(amount));
    var r := Field("receiver_id", if IsPoaToken(token) then token else recipient);
    var ms := if IsPoaToken(token) then [Field("memo", "WITHDRAW_TO:" + recipient)] else [];
    WithdrawValues(t, r, d, ms, "token", "amount");
    assert FtWithdrawFields(token, recipient, amount) == [t] + ([r] + ([d] + ms));
  }

  lemma WithdrawCarries(token: string, recipient: string, amount: nat, args: string)
    requires ReadObject(args) == FtWithdrawFields(token, recipient, amount)
    ensures Carried(FtWithdraw(args, ONE_YOCTO)) == Funds(MultiToken(INTENTS, "nep141:" + token), amount)
  {
    FtWithdrawValues(token, recipient, amount);
  }

  lemma TransferCarries(token: string, recipient: string, amount: nat, args: string)
    requires ReadObject(args) == FtTransferFields(recipient, amount)
    ensures Carried(FtTransfer(token, args, ONE_YOCTO)) == Funds(Token(token), amount)
  {
    FtTransferValues(recipient, amount);
  }

  lemma IntentsToken(tokenId: string)
    requires KindOf(tokenId).Intents?
    ensures tokenId == "nep141:" + KindOf(tokenId).token
  {
  }

  /** Where the texts are plain, the transfer of a payment moves its amount of the list's asset. */
  lemma PlainCarries(tokenId: string, p: Payment)
    requires PlainNames(tokenId, p.recipient)
    ensures Carried(RouteOf(tokenId).transfer(p)) == Funds(AssetOf(tokenId), p.amount)
  {
    if !KindOf(tokenId).Native? {
      TransferReadsIff(tokenId, p);
    }
    match KindOf(tokenId)
    case Native =>
    case Nep141(token) => TransferCarries(token, p.recipient, p.amount, FtTransferArgs(p.recipient, p.amount));
    case Intents(token) =>
      IntentsToken(tokenId);
      WithdrawCarries(token, p.recipient, p.amount, FtWithdrawArgs(token, p.recipient, p.amount));
  }

  // ---------------------------------------------------------------------------
  // Whom a transfer pays.
  // ---------------------------------------------------------------------------

  const WITHDRAW_TO := "WITHDRAW_TO:"

  /** Whom fields name: what follows the marker in a withdrawal memo, and otherwise the receiver. */
  function NamedReceiver(fs: seq<Field>): Option<string> {
    var memo := ValueOf(fs, "memo");
    if memo.Some? && WITHDRAW_TO <= memo.value then Some(memo.value[|WITHDRAW_TO|..])
    else ValueOf(fs, "receiver_id")
  }

  /** The account or address in the end paid by a transfer, read off the transfer alone. */
  function Receiver(t: Transfer): Option<string> {
    match t
    case NearTransfer(recipient, _) => Some(recipient)
    case FtTransfer(_, args, _) => ValueOf(ReadObject(args), "receiver_id")
    case FtWithdraw(args, _) => NamedReceiver(ReadObject(args))
  }

  lemma FtTransferReceiver(recipient: string, amount: nat)
    ensures ValueOf(FtTransferFields(recipient, amount), "receiver_id") == Some(recipient)
  {
    NamesDiffer();
    var r, d := Field("receiver_id", recipient), Field("amount", Decimal(amount));
    FieldStep(d, [], "receiver_id");
    FieldStep(r, [d], "receiver_id");
    assert [d] + [] == [d] && [r] + [d] == [r, d];
  }

  /** The field named `name` is the second of these, and a field named `memo` the only one of `ms`, if any. */
  lemma WithdrawNames(t: Field, r: Field, d: Field, ms: seq<Field>, name: string, memo: string)
    requires r.name == name != memo && t.name != name && t.name != memo && d.name != name && d.name != memo
    requires ms == [] || (|ms| == 1 && ms[0].name == memo)
    ensures ValueOf([t] + ([r] + ([d] + ms)), name) == Some(r.value)
    ensures ValueOf([t] + ([r] + ([d] + ms)), memo) == if ms == [] then None else Some(ms[0].value)
  {
    if ms != [] {
      assert ms == [ms[0]] + [];
      FieldStep(ms[0], [], name);
      FieldStep(ms[0], [], memo);
    }
    FieldStep(d, ms, name);
    FieldStep(d, ms, memo);
    FieldStep(r, [d] + ms, name);
    FieldStep(r, [d] + ms, memo);
    FieldStep(t, [r] + ([d] + ms), name);
    FieldStep(t, [r] + ([d] + ms), memo);
  }

  lemma MoreNamesDiffer()
    ensures "token" != "receiver_id" && "token" != "memo" && "amount" != "receiver_id" && "amount" != "memo"
    ensures "receiver_id" != "memo"
  {
    NamesDiffer();
    assert |"memo"| == 4 && |"receiver_id"| == 11;
  }

  lemma FtWithdrawReceiver(token: string, recipient: string, amount: nat)
    ensures NamedReceiver(FtWithdrawFields(token, recipient, amount)) == Some(recipient)
  {
    MoreNamesDiffer();
    var t, d := Field("token", token), Field("amount", Decimal(amount));
    var r := Field("receiver_id", if IsPoaToken(token) then token else recipient);
    var ms := if IsPoaToken(token) then [Field("memo", WITHDRAW_TO + recipient)] else [];
    WithdrawNames(t, r, d, ms, "receiver_id", "memo");
    assert FtWithdrawFields(token, recipient, amount) == [t] + ([r] + ([d] + ms));
    assert (WITHDRAW_TO + recipient)[|WITHDRAW_TO|..] == recipient;
  }

  /**
   * The fields of a withdrawal name the token, and as its receiver the recipient; for a token of the bridge, that is
   * one whose account ends with `.omft.near`, the token itself, and the recipient in the memo.
   */
  lemma WithdrawalFields(token: string, recipient: string, amount: nat)
    ensures var fs := IntendedFields("nep141:" + token, recipient, amount);
            var bridged := exists n: nat :: n <= |token| && token == token[..n] + ".omft.near";
            && |fs| == (if bridged then 4 else 3)
            && fs[0] == Field("token", token)
            && fs[1] == Field("receiver_id", if bridged then token else recipient)
            && fs[2] == Field("amount", Decimal(amount))
            && (bridged ==> fs[3] == Field("memo", "WITHDRAW_TO:" + recipient))
  {
    BridgedIff(token);
    assert ("nep141:" + token)[7..] == token;
  }

  lemma BridgedIff(token: string)
    ensures IsPoaToken(token) <==> exists n: nat :: n <= |token| && token == token[..n] + ".omft.near"
  {
    if IsPoaToken(token) {
      var n := |token| - |".omft.near"|;
      assert token == token[..n] + ".omft.near";
    }
    if n: nat :| n <= |token| && token == token[..n] + ".omft.near" {
      assert |token| == n + |".omft.near"|;
      assert token[n..] == ".omft.near";
    }
  }

  lemma TransferNames(token: string, recipient: string, amount: nat, args: string)
    requires ReadObject(args) == FtTransferFields(recipient, amount)
    ensures Receiver(FtTransfer(token, args, ONE_YOCTO)) == Some(recipient)
  {
    FtTransferReceiver(recipient, amount);
  }

  lemma WithdrawalNames(token: string, recipient: string, amount: nat, args: string)
    requires ReadObject(args) == FtWithdrawFields(token, recipient, amount)
    ensures Receiver(FtWithdraw(args, ONE_YOCTO)) == Some(recipient)
  {
    FtWithdrawReceiver(token, recipient, amount);
  }

  /** Whatever the kind of token: where the texts are plain, the transfer of a payment pays its recipient. */
  lemma PlainPaysRecipient(tokenId: string, p: Payment)
    requires PlainNames(tokenId, p.recipient)
    ensures var t := RouteOf(tokenId).transfer(p);
            Receiver(t) == Some(p.recipient) && (t.NearTransfer? || t.attached == 1)
  {
    if !KindOf(tokenId).Native? {
      TransferReadsIff(tokenId, p);
    }
    match KindOf(tokenId)
    case Native =>
    case Nep141(token) => TransferNames(token, p.recipient, p.amount, FtTransferArgs(p.recipient, p.amount));
    case Intents(token) =>
      WithdrawalNames(token, p.recipient, p.amount, FtWithdrawArgs(token, p.recipient, p.amount));
  }

  /** Which asset a list pays in, by token id: three names for NEAR, a prefix for intents tokens, else a contract. */
  lemma AssetOfNames(name: string)
    ensures AssetOf("native") == Near && AssetOf("near") == Near && AssetOf("NEAR") == Near
    ensures AssetOf("nep141:" + name) == MultiToken("intents.near", "nep141:" + name)
    ensures !("nep141:" <= name) && name != "native" && name != "near" && name != "NEAR" ==>
              AssetOf(name) == Token(name)
  {
    assert "nep141:"[1] == 'e' && "native"[1] == 'a' && |"near"| == 4 && |"NEAR"| == 4 && |"nep141:"| == 7;
  }
}
