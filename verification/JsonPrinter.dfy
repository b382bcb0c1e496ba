/** JSON values written without white space, and that the reader gets them back. */
module JsonPrinter {
  import opened JsonReader
  import opened JsonText
  import opened JsonValue
  import opened Wrappers

  /** The text of a value and what follows it. */
  function Print(v: Json, rest: string): string {
    match v
    case Null => "null" + rest
    case Bool(b) => (if b then "true" else "false") + rest
    case Number(literal) => literal + rest
    case String(text) => Quoted(text, rest)
    case Array(items) => ['['] + if items == [] then [']'] + rest else PrintItems(items, rest)
    case Object(entries) => ['{'] + if entries == [] then ['}'] + rest else PrintEntries(entries, rest)
  }

  function PrintItems(items: seq<Json>, rest: string): string
    requires items != []
  {
    Print(items[0], if |items| == 1 then [']'] + rest else [','] + PrintItems(items[1..], rest))
  }

  function PrintEntries(entries: seq<Entry>, rest: string): string
    requires entries != []
  {
    PrintEntry(entries[0], if |entries| == 1 then ['}'] + rest else [','] + PrintEntries(entries[1..], rest))
  }

  function PrintEntry(e: Entry, rest: string): string {
    Quoted(e.key, [':'] + Print(e.value, rest))
  }

  /** A natural number without leading zeros. */
  predicate IsNatural(literal: string) {
    literal != [] && IsNumber(literal) && (|literal| == 1 || literal[0] != '0')
  }

  /** Every number in the value is a natural number. */
  predicate NaturalsOnly(v: Json) {
    match v
    case Number(literal) => IsNatural(literal)
    case Array(items) => forall i :: 0 <= i < |items| ==> NaturalsOnly(items[i])
    case Object(entries) => forall i :: 0 <= i < |entries| ==> NaturalsOnly(entries[i].value)
    case _ => true
  }

  lemma {:induction false} DecimalIsNatural(n: nat)
    ensures IsNatural(Decimal(n)) && (n > 0 ==> Decimal(n)[0] != '0')
  {
    if n >= 10 {
      DecimalIsNatural(n / 10);
    }
  }

  // ---------------------------------------------------------------------------
  // Reading numbers back.
  // ---------------------------------------------------------------------------

  /** What can follow a value. */
  predicate Delimited(rest: string) {
    rest == [] || rest[0] == ',' || rest[0] == ']' || rest[0] == '}'
  }

  lemma {:induction false} DigitsBack(d: string, rest: string)
    requires IsNumber(d) && Delimited(rest)
    ensures Digits(d + rest) == |d|
  {
    if d == [] {
      assert d + rest == rest;
    } else {
      DigitsBack(d[1..], rest);
      assert (d + rest)[1..] == d[1..] + rest;
    }
  }

  lemma NumberBack(d: string, rest: string)
    requires IsNatural(d) && Delimited(rest)
    ensures ReadNumber(d + rest) == Got(Number(d), rest)
  {
    var t := d + rest;
    DigitsBack(d, rest);
    assert t[0..] == t && t[0] == d[0];
    assert IntegerLength(t) == |d|;
    assert t[|d|..] == rest && t[..|d|] == d;
  }

  lemma ScalarBack(v: Json, rest: string)
    requires v.Null? || v.Bool? || (v.Number? && IsNatural(v.literal))
    requires Delimited(rest)
    ensures ReadValue(Print(v, rest)) == Got(v, rest)
  {
    var t := Print(v, rest);
    match v {
      case Null => NameBack("null", v, rest);
      case Bool(b) => NameBack(if b then "true" else "false", v, rest);
      case Number(literal) => NumberBack(literal, rest);
    }
    assert t[0] != '"' && t[0] != '[' && t[0] != '{';
  }

  lemma NameBack(name: string, v: Json, rest: string)
    requires name != []
    ensures ReadName(name + rest, name, v) == Got(v, rest)
  {
  }

  // ---------------------------------------------------------------------------
  // Reading values back.
  // ---------------------------------------------------------------------------

  /** No white space, and no closing bracket or brace. */
  predicate Starts(t: string) {
    t != [] && !IsSpace(t[0]) && t[0] != ']' && t[0] != '}'
  }

  lemma PrintStarts(v: Json, rest: string)
    requires NaturalsOnly(v)
    ensures Starts(Print(v, rest))
  {
  }

  lemma ItemsStart(items: seq<Json>, rest: string)
    requires items != [] && NaturalsOnly(items[0])
    ensures Starts(PrintItems(items, rest))
  {
    PrintStarts(items[0], if |items| == 1 then [']'] + rest else [','] + PrintItems(items[1..], rest));
  }

  lemma Expected(c: char, t: string)
    requires !IsSpace(c)
    ensures Expect([c] + t, c) == Got(c, t)
    ensures forall d :: d != c ==> Expect([c] + t, d).Malformed?
  {
    assert ([c] + t)[1..] == t;
  }

  lemma LastItem(t: string, v: Json, rest: string)
    requires ReadValue(t) == Got(v, [']'] + rest)
    ensures ReadItems(t) == Got([v], rest)
  {
    Expected(']', rest);
  }

  lemma FirstItem(t: string, v: Json, u: string, more: seq<Json>, rest: string)
    requires ReadValue(t) == Got(v, [','] + u) && Starts(u) && ReadItems(u) == Got(more, rest)
    ensures ReadItems(t) == Got([v] + more, rest)
  {
    Expected(',', u);
  }

  lemma LastEntry(t: string, e: Entry, rest: string)
    requires ReadEntry(t) == Got(e, ['}'] + rest)
    ensures ReadEntries(t) == Got([e], rest)
  {
    Expected('}', rest);
  }

  lemma FirstEntry(t: string, e: Entry, u: string, more: seq<Entry>, rest: string)
    requires ReadEntry(t) == Got(e, [','] + u) && Starts(u) && ReadEntries(u) == Got(more, rest)
    ensures ReadEntries(t) == Got([e] + more, rest)
  {
    Expected(',', u);
  }

  lemma OneEntry(key: string, v: Json, u: string, rest: string)
    requires Starts(u) && ReadValue(u) == Got(v, rest)
    ensures ReadEntry(Quoted(key, [':'] + u)) == Got(Entry(key, v), rest)
  {
    ReadQuotedBack(key, [':'] + u);
    Expected(':', u);
  }

  lemma WholeArray(u: string, items: seq<Json>, rest: string)
    requires Starts(u) && ReadItems(u) == Got(items, rest)
    ensures ReadValue(['['] + u) == Got(Array(items), rest)
  {
    assert (['['] + u)[1..] == u;
  }

  lemma WholeObject(u: string, entries: seq<Entry>, rest: string)
    requires Starts(u) && ReadEntries(u) == Got(entries, rest)
    ensures ReadValue(['{'] + u) == Got(Object(entries), rest)
  {
    assert (['{'] + u)[1..] == u;
  }

  lemma EmptyBack(rest: string)
    ensures ReadValue(['['] + ([']'] + rest)) == Got(Array([]), rest)
    ensures ReadValue(['{'] + (['}'] + rest)) == Got(Object([]), rest)
  {
    Expected(']', rest);
    Expected('}', rest);
    assert (['['] + ([']'] + rest))[1..] == [']'] + rest;
    assert (['{'] + (['}'] + rest))[1..] == ['}'] + rest;
  }

  /** A value is read back from its text, whatever follows. */
  lemma {:induction false} ReadPrinted(v: Json, rest: string)
    requires NaturalsOnly(v) && Delimited(rest)
    ensures ReadValue(Print(v, rest)) == Got(v, rest)
    decreases v
  {
    match v {
      case String(text) => ReadQuotedBack(text, rest);
      case Array(items) =>
        if items == [] {
          EmptyBack(rest);
        } else {
          ReadItemsPrinted(items, rest);
          ItemsStart(items, rest);
          WholeArray(PrintItems(items, rest), items, rest);
        }
      case Object(entries) =>
        if entries == [] {
          EmptyBack(rest);
        } else {
          ReadEntriesPrinted(entries, rest);
          WholeObject(PrintEntries(entries, rest), entries, rest);
        }
      case _ => ScalarBack(v, rest);
    }
  }

  lemma {:induction false} ReadItemsPrinted(items: seq<Json>, rest: string)
    requires items != [] && forall i :: 0 <= i < |items| ==> NaturalsOnly(items[i])
    ensures ReadItems(PrintItems(items, rest)) == Got(items, rest)
    decreases items
  {
    var t := PrintItems(items, rest);
    if |items| == 1 {
      ReadPrinted(items[0], [']'] + rest);
      LastItem(t, items[0], rest);
      assert items == [items[0]];
    } else {
      var u := PrintItems(items[1..], rest);
      ReadPrinted(items[0], [','] + u);
      ReadItemsPrinted(items[1..], rest);
      ItemsStart(items[1..], rest);
      FirstItem(t, items[0], u, items[1..], rest);
      assert items == [items[0]] + items[1..];
    }
  }

  lemma {:induction false} ReadEntriesPrinted(entries: seq<Entry>, rest: string)
    requires entries != [] && forall i :: 0 <= i < |entries| ==> NaturalsOnly(entries[i].value)
    ensures ReadEntries(PrintEntries(entries, rest)) == Got(entries, rest)
    decreases entries
  {
    var t := PrintEntries(entries, rest);
    if |entries| == 1 {
      ReadEntryPrinted(entries[0], ['}'] + rest);
      LastEntry(t, entries[0], rest);
      assert entries == [entries[0]];
    } else {
      var u := PrintEntries(entries[1..], rest);
      ReadEntryPrinted(entries[0], [','] + u);
      ReadEntriesPrinted(entries[1..], rest);
      FirstEntry(t, entries[0], u, entries[1..], rest);
      assert entries == [entries[0]] + entries[1..];
    }
  }

  lemma {:induction false} ReadEntryPrinted(e: Entry, rest: string)
    requires NaturalsOnly(e.value) && Delimited(rest)
    ensures ReadEntry(PrintEntry(e, rest)) == Got(e, rest)
    decreases e
  {
    ReadPrinted(e.value, rest);
    PrintStarts(e.value, rest);
    OneEntry(e.key, e.value, Print(e.value, rest), rest);
  }

  /** A value whose numbers are natural is what a reader makes of its text. */
  lemma ParsePrinted(v: Json)
    requires NaturalsOnly(v)
    ensures Parse(Print(v, [])) == Some(v)
  {
    PrintStarts(v, []);
    ReadPrinted(v, []);
  }

  // ---------------------------------------------------------------------------
  // No text of a value is shorter.
  // ---------------------------------------------------------------------------

  lemma {:induction false} PrintLength(v: Json, rest: string)
    ensures |Print(v, rest)| == |Print(v, [])| + |rest|
    decreases v
  {
    match v {
      case Array(items) =>
        if items != [] {
          ItemsLength(items, rest);
        }
      case Object(entries) =>
        if entries != [] {
          EntriesLength(entries, rest);
        }
      case _ =>
    }
  }

  lemma {:induction false} ItemsLength(items: seq<Json>, rest: string)
    requires items != []
    ensures |PrintItems(items, rest)| == |PrintItems(items, [])| + |rest|
    decreases items
  {
    if |items| == 1 {
      PrintLength(items[0], [']'] + rest);
      PrintLength(items[0], [']'] + []);
    } else {
      PrintLength(items[0], [','] + PrintItems(items[1..], rest));
      PrintLength(items[0], [','] + PrintItems(items[1..], []));
      ItemsLength(items[1..], rest);
    }
  }

  lemma {:induction false} EntriesLength(entries: seq<Entry>, rest: string)
    requires entries != []
    ensures |PrintEntries(entries, rest)| == |PrintEntries(entries, [])| + |rest|
    decreases entries
  {
    if |entries| == 1 {
      EntryLength(entries[0], ['}'] + rest);
      EntryLength(entries[0], ['}'] + []);
    } else {
      EntryLength(entries[0], [','] + PrintEntries(entries[1..], rest));
      EntryLength(entries[0], [','] + PrintEntries(entries[1..], []));
      EntriesLength(entries[1..], rest);
    }
  }

  lemma {:induction false} EntryLength(e: Entry, rest: string)
    ensures |PrintEntry(e, rest)| == |PrintEntry(e, [])| + |rest|
    decreases e
  {
    PrintLength(e.value, rest);
  }

  lemma ScalarShortest(t: string)
    requires ReadScalar(t).Got?
    ensures var r := ReadScalar(t); |Print(r.value, r.rest)| <= |t|
  {
  }

  /** Whatever a value is read from, white space and all, its own text is no longer. */
  lemma {:induction false} ReadShortest(t: string)
    requires ReadValue(t).Got?
    ensures var r := ReadValue(t); |Print(r.value, r.rest)| <= |t|
    decreases |t|, 0
  {
    var r := ReadValue(t);
    if t[0] == '"' {
      ReadQuotedShortest(t);
    } else if t[0] == '[' {
      if r.value != Array([]) {
        ReadItemsShortest(Skip(t[1..]));
      }
    } else if t[0] == '{' {
      if r.value != Object([]) {
        ReadEntriesShortest(Skip(t[1..]));
      }
    } else {
      ScalarShortest(t);
    }
  }

  lemma {:induction false} ReadItemsShortest(t: string)
    requires ReadItems(t).Got?
    ensures var r := ReadItems(t); r.value != [] && |PrintItems(r.value, r.rest)| <= |t|
    decreases |t|, 1
  {
    var r, v := ReadItems(t), ReadValue(t);
    var end, next := Expect(v.rest, ']'), Expect(v.rest, ',');
    ReadShortest(t);
    PrintLength(v.value, v.rest);
    if end.Got? {
      PrintLength(v.value, [']'] + r.rest);
    } else {
      var u := Skip(next.rest);
      ReadItemsShortest(u);
      assert r.value[1..] == ReadItems(u).value;
      PrintLength(v.value, [','] + PrintItems(r.value[1..], r.rest));
    }
  }

  lemma {:induction false} ReadEntriesShortest(t: string)
    requires ReadEntries(t).Got?
    ensures var r := ReadEntries(t); r.value != [] && |PrintEntries(r.value, r.rest)| <= |t|
    decreases |t|, 1
  {
    var r, e := ReadEntries(t), ReadEntry(t);
    var end, next := Expect(e.rest, '}'), Expect(e.rest, ',');
    ReadEntryShortest(t);
    EntryLength(e.value, e.rest);
    if end.Got? {
      EntryLength(e.value, ['}'] + r.rest);
    } else {
      var u := Skip(next.rest);
      ReadEntriesShortest(u);
      assert r.value[1..] == ReadEntries(u).value;
      EntryLength(e.value, [','] + PrintEntries(r.value[1..], r.rest));
    }
  }

  lemma {:induction false} ReadEntryShortest(t: string)
    requires ReadEntry(t).Got?
    ensures var r := ReadEntry(t); |PrintEntry(r.value, r.rest)| <= |t|
    decreases |t|, 0
  {
    var r, key := ReadEntry(t), ReadString(t);
    var colon := Expect(key.rest, ':');
    ReadQuotedShortest(t);
    ReadShortest(Skip(colon.rest));
    QuotedLength(key.value, key.rest, [':'] + Print(r.value.value, r.rest));
  }

  /** No text that is read as a value is shorter than the one printed. */
  lemma PrintIsShortest(text: string)
    requires Parse(text).Some?
    ensures |Print(Parse(text).value, [])| <= |text|
  {
    ReadShortest(Skip(text));
    var r := ReadValue(Skip(text));
    PrintLength(r.value, r.rest);
  }
}
