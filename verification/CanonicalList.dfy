/** The canonical JSON text behind a payment list id, as the client and the backend write it. */
module CanonicalList {
  import opened JsonPrinter
  import opened JsonReader
  import opened JsonText
  import opened JsonValue
  import opened Sequences
  import opened Sorting
  import opened Wrappers
  import Utf8

  datatype Payment = Payment(amount: string, recipient: string)

  // ---------------------------------------------------------------------------
  // The canonical text.
  // ---------------------------------------------------------------------------

  function PaymentValue(p: Payment): Json {
    Object([Entry("amount", String(p.amount)), Entry("recipient", String(p.recipient))])
  }

  function ListValue(ps: seq<Payment>, submitter: string, timestamp: nat, tokenId: string): Json {
    Object([Entry("payments", Array(seq(|ps|, i requires 0 <= i < |ps| => PaymentValue(ps[i])))),
            Entry("submitter", String(submitter)),
            Entry("timestamp", Number(Decimal(timestamp))),
            Entry("token_id", String(tokenId))])
  }

  function ListText(ps: seq<Payment>, submitter: string, timestamp: nat, tokenId: string): string {
    Print(ListValue(ps, submitter, timestamp, tokenId), [])
  }

  /** A JSON object with exactly two members, the amount and the recipient of a payment as strings. */
  predicate IsPayment(v: Json, p: Payment) {
    && v.Object? && |v.entries| == 2
    && v.entries[0].key == "amount" && v.entries[0].value == String(p.amount)
    && v.entries[1].key == "recipient" && v.entries[1].value == String(p.recipient)
  }

  predicate ArePayments(v: Json, ps: seq<Payment>) {
    v.Array? && |v.items| == |ps| && forall i :: 0 <= i < |ps| ==> IsPayment(v.items[i], ps[i])
  }

  /** A JSON number whose digits have the value `n`. */
  predicate IsCount(v: Json, n: nat) {
    v.Number? && v.literal != [] && IsNumber(v.literal) && Undecimal(v.literal) == n
  }

  /** A JSON object with exactly the four members of a list, in this order. */
  predicate IsList(v: Json, ps: seq<Payment>, submitter: string, timestamp: nat, tokenId: string) {
    && v.Object? && |v.entries| == 4
    && v.entries[0].key == "payments" && ArePayments(v.entries[0].value, ps)
    && v.entries[1].key == "submitter" && v.entries[1].value == String(submitter)
    && v.entries[2].key == "timestamp" && IsCount(v.entries[2].value, timestamp)
    && v.entries[3].key == "token_id" && v.entries[3].value == String(tokenId)
  }

  lemma ListValueIsList(ps: seq<Payment>, s: string, n: nat, t: string)
    ensures IsList(ListValue(ps, s, n, t), ps, s, n, t)
  {
    UndecimalDecimal(n);
  }

  lemma ListNumbers(ps: seq<Payment>, s: string, n: nat, t: string)
    ensures NaturalsOnly(ListValue(ps, s, n, t))
  {
    DecimalIsNatural(n);
    forall i | 0 <= i < |ps| ensures NaturalsOnly(PaymentValue(ps[i])) {
    }
  }

  /** A JSON reader finds the four members in the text, and no text with the same reading is shorter. */
  lemma ListTextReads(ps: seq<Payment>, s: string, n: nat, t: string)
    ensures var v := Parse(ListText(ps, s, n, t));
            && v.Some? && IsList(v.value, ps, s, n, t)
            && forall u :: Parse(u) == v ==> |ListText(ps, s, n, t)| <= |u|
  {
    var v := ListValue(ps, s, n, t);
    ListNumbers(ps, s, n, t);
    ParsePrinted(v);
    ListValueIsList(ps, s, n, t);
    forall u | Parse(u) == Some(v) ensures |Print(v, [])| <= |u| {
      PrintIsShortest(u);
    }
  }

  lemma OneList(v: Json, ps: seq<Payment>, s: string, n: nat, t: string,
                qs: seq<Payment>, s': string, n': nat, t': string)
    requires IsList(v, ps, s, n, t) && IsList(v, qs, s', n', t')
    ensures ps == qs && s == s' && n == n' && t == t'
  {
    var items := v.entries[0].value.items;
    forall i | 0 <= i < |ps| ensures ps[i] == qs[i] {
      assert IsPayment(items[i], ps[i]) && IsPayment(items[i], qs[i]);
    }
  }

  lemma ListTextInjective(ps: seq<Payment>, s: string, n: nat, t: string,
                          qs: seq<Payment>, s': string, n': nat, t': string)
    requires ListText(ps, s, n, t) == ListText(qs, s', n', t')
    ensures ps == qs && s == s' && n == n' && t == t'
  {
    ListTextReads(ps, s, n, t);
    ListTextReads(qs, s', n', t');
    OneList(Parse(ListText(ps, s, n, t)).value, ps, s, n, t, qs, s', n', t');
  }

  // ---------------------------------------------------------------------------
  // Sorting by recipient. `leq` is the comparator: `localeCompare` in the client, byte order in the backend.
  // ---------------------------------------------------------------------------

  function ByRecipient(leq: (string, string) -> bool): (Payment, Payment) -> bool {
    (p: Payment, q: Payment) => leq(p.recipient, q.recipient)
  }

  lemma ByRecipientTotal(leq: (string, string) -> bool)
    requires TotalPreorder(leq)
    ensures TotalPreorder(ByRecipient(leq))
  {
    var cmp := ByRecipient(leq);
    forall p, q ensures cmp(p, q) || cmp(q, p) {
      assert leq(p.recipient, q.recipient) || leq(q.recipient, p.recipient);
    }
    forall p, q, r | cmp(p, q) && cmp(q, r) ensures cmp(p, r) {
      assert leq(p.recipient, q.recipient) && leq(q.recipient, r.recipient);
    }
  }

  /** The text whose SHA-256 digest is the list id. */
  function Canonical(leq: (string, string) -> bool,
                     submitter: string, tokenId: string, payments: seq<Payment>, timestamp: nat): string
  {
    ListText(StableSort(ByRecipient(leq), payments), submitter, timestamp, tokenId)
  }

  /**
   * What a JSON reader makes of the text: the four members, where `payments` holds the payments given, every one as
   * often, by recipient in the order of `leq`, and payments that tie in the order given. No other text that reads so
   * is shorter: there is no white space, and no escape that is not needed.
   */
  lemma CanonicalReads(leq: (string, string) -> bool,
                       s: string, t: string, ps: seq<Payment>, n: nat) returns (sorted: seq<Payment>)
    requires TotalPreorder(leq)
    ensures var v := Parse(Canonical(leq, s, t, ps, n));
            && v.Some? && IsList(v.value, sorted, s, n, t)
            && forall u :: Parse(u) == v ==> |Canonical(leq, s, t, ps, n)| <= |u|
    ensures multiset(sorted) == multiset(ps)
    ensures forall i, j :: 0 <= i < j < |sorted| ==> leq(sorted[i].recipient, sorted[j].recipient)
    ensures SameTied(ByRecipient(leq), sorted, ps)
  {
    var cmp := ByRecipient(leq);
    sorted := StableSort(cmp, ps);
    ByRecipientTotal(leq);
    StableSortSorted(cmp, ps);
    ListTextReads(sorted, s, n, t);
    forall k ensures TiedWith(cmp, k, sorted) == TiedWith(cmp, k, ps) {
      StableSortKeepsTies(cmp, k, ps);
    }
    forall i, j | 0 <= i < j < |sorted| ensures leq(sorted[i].recipient, sorted[j].recipient) {
      assert cmp(sorted[i], sorted[j]);
    }
  }

  /**
   * Two lists have the same text exactly when submitter, token and timestamp agree and the payments whose recipients
   * tie in the comparator come in the same order in both. When only equal payments tie, that is to say that the
   * payments are the same in whatever order.
   */
  lemma CanonicalIdentifies(leq: (string, string) -> bool,
                            s: string, t: string, ps: seq<Payment>, n: nat,
                            s': string, t': string, qs: seq<Payment>, n': nat)
    requires TotalPreorder(leq)
    ensures Canonical(leq, s, t, ps, n) == Canonical(leq, s', t', qs, n')
            <==> s == s' && t == t' && n == n' && SameTied(ByRecipient(leq), ps, qs)
    ensures SeparatesWithin(ByRecipient(leq), ps) ==>
              (Canonical(leq, s, t, ps, n) == Canonical(leq, s', t', qs, n')
               <==> s == s' && t == t' && n == n' && multiset(ps) == multiset(qs))
  {
    var cmp := ByRecipient(leq);
    ByRecipientTotal(leq);
    SortsEqualIff(cmp, ps, qs);
    if Canonical(leq, s, t, ps, n) == Canonical(leq, s', t', qs, n') {
      ListTextInjective(StableSort(cmp, ps), s, n, t, StableSort(cmp, qs), s', n', t');
    }
    if multiset(ps) == multiset(qs) && SeparatesWithin(cmp, ps) {
      SortForgetsOrder(cmp, ps, qs);
    }
  }

  ghost predicate OrderFree(leq: (string, string) -> bool, s: string, t: string, ps: seq<Payment>, n: nat) {
    forall qs :: multiset(qs) == multiset(ps) ==> Canonical(leq, s, t, qs, n) == Canonical(leq, s, t, ps, n)
  }

  /** The text is the same for every order of the payments exactly when no two different payments tie. */
  lemma OrderFreeIff(leq: (string, string) -> bool, s: string, t: string, ps: seq<Payment>, n: nat)
    requires TotalPreorder(leq)
    ensures OrderFree(leq, s, t, ps, n) <==> SeparatesWithin(ByRecipient(leq), ps)
  {
    var cmp := ByRecipient(leq);
    if SeparatesWithin(cmp, ps) {
      forall qs | multiset(qs) == multiset(ps)
        ensures Canonical(leq, s, t, qs, n) == Canonical(leq, s, t, ps, n)
      {
        CanonicalIdentifies(leq, s, t, ps, n, s, t, qs, n);
      }
    }
    if OrderFree(leq, s, t, ps, n) {
      forall i, j | 0 <= i < |ps| && 0 <= j < |ps| && Ties(cmp, ps[i], ps[j])
        ensures ps[i] == ps[j]
      {
        if i < j {
          TiedPairEqual(leq, s, t, ps, n, i, j);
        } else if j < i {
          TiedPairEqual(leq, s, t, ps, n, j, i);
        }
      }
    }
  }

  lemma OrderFreeSorts(leq: (string, string) -> bool, s: string, t: string, ps: seq<Payment>, n: nat,
                       qs: seq<Payment>, rs: seq<Payment>)
    requires OrderFree(leq, s, t, ps, n) && multiset(qs) == multiset(ps) && multiset(rs) == multiset(ps)
    ensures StableSort(ByRecipient(leq), qs) == StableSort(ByRecipient(leq), rs)
  {
    assert Canonical(leq, s, t, qs, n) == Canonical(leq, s, t, rs, n);
    ListTextInjective(StableSort(ByRecipient(leq), qs), s, n, t, StableSort(ByRecipient(leq), rs), s, n, t);
  }

  /**
   * Put two tied payments first, in either order: a stable sort keeps that order, so the texts differ unless they are
   * equal.
   */
  lemma TiedPairEqual(leq: (string, string) -> bool, s: string, t: string, ps: seq<Payment>, n: nat, i: nat, j: nat)
    requires TotalPreorder(leq) && OrderFree(leq, s, t, ps, n)
    requires i < j < |ps| && Ties(ByRecipient(leq), ps[i], ps[j])
    ensures ps[i] == ps[j]
  {
    var others := PairFirst(ps, i, j);
    ByRecipientTotal(leq);
    OrderFreeSorts(leq, s, t, ps, n, [ps[i]] + ([ps[j]] + others), [ps[j]] + ([ps[i]] + others));
    TiedHeadsEqual(ByRecipient(leq), ps[i], ps[j], others);
  }

  lemma TiedHeadsEqual(cmp: (Payment, Payment) -> bool, a: Payment, b: Payment, others: seq<Payment>)
    requires TotalPreorder(cmp) && Ties(cmp, a, b)
    requires StableSort(cmp, [a] + ([b] + others)) == StableSort(cmp, [b] + ([a] + others))
    ensures a == b
  {
    StableSortKeepsTies(cmp, a, [a] + ([b] + others));
    StableSortKeepsTies(cmp, a, [b] + ([a] + others));
    TiedHead(cmp, a, a, [b] + others);
    TiedHead(cmp, a, b, [a] + others);
  }

  lemma TiedHead(cmp: (Payment, Payment) -> bool, k: Payment, x: Payment, xs: seq<Payment>)
    requires Ties(cmp, k, x)
    ensures TiedWith(cmp, k, [x] + xs) != [] && TiedWith(cmp, k, [x] + xs)[0] == x
  {
  }

  /**
   * Client and backend compute the same text for a list exactly when their comparators decide every two of its
   * payments, the earlier one first, in the same way.
   */
  lemma ClientAndBackendAgreeIff(client: (string, string) -> bool, backend: (string, string) -> bool,
                                 s: string, t: string, ps: seq<Payment>, n: nat)
    requires TotalPreorder(client) && TotalPreorder(backend)
    ensures Canonical(client, s, t, ps, n) == Canonical(backend, s, t, ps, n)
            <==> forall i, j :: 0 <= i < j < |ps| ==>
                   (client(ps[i].recipient, ps[j].recipient) <==> backend(ps[i].recipient, ps[j].recipient))
  {
    var c, b := ByRecipient(client), ByRecipient(backend);
    ByRecipientTotal(client);
    ByRecipientTotal(backend);
    SortsAlikeIff(c, b, ps);
    if Canonical(client, s, t, ps, n) == Canonical(backend, s, t, ps, n) {
      ListTextInjective(StableSort(c, ps), s, n, t, StableSort(b, ps), s, n, t);
    }
    assert DecideAlike(c, b, ps) <==> forall i, j :: 0 <= i < j < |ps| ==>
      (client(ps[i].recipient, ps[j].recipient) <==> backend(ps[i].recipient, ps[j].recipient));
  }

  /** The backend's order of strings: by code points, which is the order of their UTF-8 bytes. */
  predicate CodePointLeq(a: string, b: string) {
    a == [] || (b != [] && (a[0] < b[0] || (a[0] == b[0] && CodePointLeq(a[1..], b[1..]))))
  }

  /** The order of code points is the order of UTF-8 bytes. */
  lemma {:induction false} CodePointsAsBytes(a: string, b: string)
    ensures CodePointLeq(a, b) <==> Utf8.BytesLeq(Utf8.Encode(a), Utf8.Encode(b))
  {
    if a != [] && b != [] {
      var x, y := Utf8.Encode(a[1..]), Utf8.Encode(b[1..]);
      if a[0] < b[0] {
        Utf8.CharsOrdered(a[0], b[0], x, y);
      } else if b[0] < a[0] {
        Utf8.CharsOrdered(b[0], a[0], y, x);
      } else {
        Utf8.BytesLeqBehind(Utf8.EncodeChar(a[0]), x, y);
        CodePointsAsBytes(a[1..], b[1..]);
      }
    }
  }

  lemma {:induction false} CodePointTotal(a: string, b: string)
    ensures CodePointLeq(a, b) || CodePointLeq(b, a)
  {
    if a != [] && b != [] {
      CodePointTotal(a[1..], b[1..]);
    }
  }

  lemma {:induction false} CodePointTransitive(a: string, b: string, c: string)
    requires CodePointLeq(a, b) && CodePointLeq(b, c)
    ensures CodePointLeq(a, c)
  {
    if a != [] && a[0] == b[0] == c[0] {
      CodePointTransitive(a[1..], b[1..], c[1..]);
    }
  }

  lemma CodePointsPreorder()
    ensures TotalPreorder(CodePointLeq)
  {
    forall a, b ensures CodePointLeq(a, b) || CodePointLeq(b, a) {
      CodePointTotal(a, b);
    }
    forall a, b, c | CodePointLeq(a, b) && CodePointLeq(b, c) ensures CodePointLeq(a, c) {
      CodePointTransitive(a, b, c);
    }
  }

  /** An instance: a client that puts `a_b` before `a-b`, as collation does, and byte order give different texts. */
  lemma ClientAndBackendDiffer(client: (string, string) -> bool, s: string, t: string, n: nat)
    requires TotalPreorder(client) && !client("a-b", "a_b")
    ensures var ps := [Payment("1", "a-b"), Payment("1", "a_b")];
            Canonical(client, s, t, ps, n) != Canonical(CodePointLeq, s, t, ps, n)
  {
    var ps := [Payment("1", "a-b"), Payment("1", "a_b")];
    CodePointsPreorder();
    ClientAndBackendAgreeIff(client, CodePointLeq, s, t, ps, n);
    HyphenFirst();
    assert !client(ps[0].recipient, ps[1].recipient) && CodePointLeq(ps[0].recipient, ps[1].recipient);
  }

  lemma HyphenFirst()
    ensures CodePointLeq("a-b", "a_b")
  {
    assert "a-b"[1..] == "-b" && "a_b"[1..] == "_b";
    assert CodePointLeq("-b", "_b");
  }
}
