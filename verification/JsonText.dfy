/**
 * JSON strings, decimal numbers and flat objects as text (RFC 8259, section 7): how they are written, with or
 * without escapes, and what a reader makes of the text.
 */
module JsonText {

  // ---------------------------------------------------------------------------
  // Writing.
  // ---------------------------------------------------------------------------

  function HexDigit(n: nat): char
    requires n < 16
  {
    if n < 10 then ('0' as int + n) as char else ('a' as int + n - 10) as char
  }

  function EscapeChar(c: char): (e: string)
    ensures e != []
  {
    var v := c as int;
    if c == '"' then ['\\', '"']
    else if c == '\\' then ['\\', '\\']
    else if v == 8 then ['\\', 'b']
    else if v == 9 then ['\\', 't']
    else if v == 10 then ['\\', 'n']
    else if v == 12 then ['\\', 'f']
    else if v == 13 then ['\\', 'r']
    else if v < 0x20 then ['\\', 'u', '0', '0', HexDigit(v / 16), HexDigit(v % 16)]
    else [c]
  }

  function Escaped(s: string): string {
    if s == [] then [] else EscapeChar(s[0]) + Escaped(s[1..])
  }

  /** A quoted string followed by more text. */
  function Quoted(s: string, rest: string): string {
    ['"'] + (Escaped(s) + (['"'] + rest))
  }

  /** The same without escapes, as a format string writes it. */
  function Unescaped(s: string, rest: string): string {
    ['"'] + (s + (['"'] + rest))
  }

  /** A character that JSON strings hold as it is. */
  predicate PlainChar(c: char) {
    c != '"' && c != '\\' && c as int >= 0x20
  }

  predicate Plain(s: string) {
    forall i :: 0 <= i < |s| ==> PlainChar(s[i])
  }

  lemma {:induction false} PlainIsEscaped(s: string)
    requires Plain(s)
    ensures Escaped(s) == s
  {
    if s != [] {
      PlainIsEscaped(s[1..]);
      assert s == [s[0]] + s[1..];
    }
  }

  // ---------------------------------------------------------------------------
  // Reading strings.
  // ---------------------------------------------------------------------------

  datatype Reading<T> = Got(value: T, rest: string) | Malformed

  predicate IsHex(c: char) {
    '0' <= c <= '9' || 'a' <= c <= 'f' || 'A' <= c <= 'F'
  }

  function HexValue(c: char): (v: nat)
    requires IsHex(c)
    ensures v < 16
  {
    if '0' <= c <= '9' then c as int - '0' as int
    else if 'a' <= c <= 'f' then c as int - 'a' as int + 10
    else c as int - 'A' as int + 10
  }

  /** Four hexadecimal digits. */
  function ReadUnit(t: string): (r: Reading<nat>)
    ensures r.Got? ==> r.value < 0x1_0000 && |r.rest| + 4 == |t|
  {
    if |t| >= 4 && IsHex(t[0]) && IsHex(t[1]) && IsHex(t[2]) && IsHex(t[3])
    then Got(0x1000 * HexValue(t[0]) + 0x100 * HexValue(t[1]) + 0x10 * HexValue(t[2]) + HexValue(t[3]), t[4..])
    else Malformed
  }

  /** The character of one code unit, or of a surrogate pair. */
  function ReadUnicode(t: string): (r: Reading<char>)
    ensures r.Got? ==> |r.rest| < |t|
  {
    var first := ReadUnit(t);
    if first.Malformed? then Malformed
    else if first.value < 0xD800 || 0xE000 <= first.value then Got(first.value as char, first.rest)
    else if first.value >= 0xDC00 || !(['\\', 'u'] <= first.rest) then Malformed
    else
      var second := ReadUnit(first.rest[2..]);
      if second.Malformed? || second.value < 0xDC00 || 0xE000 <= second.value then Malformed
      else Got((0x1_0000 + 0x400 * (first.value - 0xD800) + (second.value - 0xDC00)) as char, second.rest)
  }

  /** What follows a backslash. */
  function Unescape(t: string): (r: Reading<char>)
    ensures r.Got? ==> |r.rest| < |t|
  {
    if t == [] then Malformed
    else if t[0] == '"' || t[0] == '\\' || t[0] == '/' then Got(t[0], t[1..])
    else if t[0] == 'b' then Got(8 as char, t[1..])
    else if t[0] == 't' then Got(9 as char, t[1..])
    else if t[0] == 'n' then Got(10 as char, t[1..])
    else if t[0] == 'f' then Got(12 as char, t[1..])
    else if t[0] == 'r' then Got(13 as char, t[1..])
    else if t[0] == 'u' then ReadUnicode(t[1..])
    else Malformed
  }

  function Push(c: char, r: Reading<string>): Reading<string> {
    if r.Got? then Got([c] + r.value, r.rest) else Malformed
  }

  /** The characters up to the closing quote. */
  function ReadBody(t: string): (r: Reading<string>)
    ensures r.Got? ==> |r.rest| < |t|
    decreases |t|
  {
    if t == [] then Malformed
    else if t[0] == '"' then Got([], t[1..])
    else if t[0] == '\\' then
      var e := Unescape(t[1..]);
      if e.Malformed? then Malformed else Push(e.value, ReadBody(e.rest))
    else if !PlainChar(t[0]) then Malformed
    else Push(t[0], ReadBody(t[1..]))
  }

  function ReadQuoted(t: string): (r: Reading<string>)
    ensures r.Got? ==> |r.rest| + 2 <= |t|
  {
    if t != [] && t[0] == '"' then ReadBody(t[1..]) else Malformed
  }

  lemma HexRead(n: nat)
    requires n < 16
    ensures IsHex(HexDigit(n)) && HexValue(HexDigit(n)) == n
  {
  }

  lemma ReadEscapedChar(c: char, y: string)
    ensures var t := EscapeChar(c) + y;
            if t[0] == '\\' then Unescape(t[1..]) == Got(c, y) else PlainChar(t[0]) && t[0] == c && t[1..] == y
  {
    var e := EscapeChar(c);
    var t := e + y;
    var v := c as int;
    assert t[1..] == e[1..] + y;
    if |e| == 6 {
      HexRead(v / 16);
      HexRead(v % 16);
      var u := t[2..];
      assert u[0] == '0' && u[1] == '0' && u[2] == HexDigit(v / 16) && u[3] == HexDigit(v % 16) && u[4..] == y;
      assert ReadUnit(u) == Got(v, y);
      assert t[1..][1..] == u;
    } else if |e| == 2 {
      assert t[1..][1..] == y;
    }
  }

  /** Writing and reading back. */
  lemma {:induction false} ReadEscaped(s: string, rest: string)
    ensures ReadBody(Escaped(s) + (['"'] + rest)) == Got(s, rest)
  {
    var t := Escaped(s) + (['"'] + rest);
    if s == [] {
      assert t == ['"'] + rest;
    } else {
      var y := Escaped(s[1..]) + (['"'] + rest);
      assert t == EscapeChar(s[0]) + y;
      ReadEscapedChar(s[0], y);
      ReadEscaped(s[1..], rest);
      assert s == [s[0]] + s[1..];
    }
  }

  /** A quoted string is read back exactly, whatever follows it. */
  lemma ReadQuotedBack(s: string, rest: string)
    ensures ReadQuoted(Quoted(s, rest)) == Got(s, rest)
  {
    assert Quoted(s, rest)[1..] == Escaped(s) + (['"'] + rest);
    ReadEscaped(s, rest);
  }

  /** No escape of a character is shorter than the one written. */
  lemma EscapeIsShortest(t: string)
    requires Unescape(t).Got?
    ensures var r := Unescape(t); |EscapeChar(r.value)| + |r.rest| <= 1 + |t|
  {
    if t[0] == 'u' {
      UnicodeIsLong(t[1..]);
    }
  }

  /** Escapes are written with lower-case letters and digits only. */
  lemma EscapesInLowerCase(c: char, i: nat)
    requires EscapeChar(c) != [c] && i < |EscapeChar(c)|
    ensures !('A' <= EscapeChar(c)[i] <= 'Z')
  {
  }

  lemma UnicodeIsLong(t: string)
    requires ReadUnicode(t).Got?
    ensures |ReadUnicode(t).rest| + 4 <= |t|
  {
  }

  lemma {:induction false} ReadBodyShortest(t: string)
    requires ReadBody(t).Got?
    ensures var r := ReadBody(t); |Escaped(r.value)| + 1 + |r.rest| <= |t|
    decreases |t|
  {
    var r := ReadBody(t);
    if t[0] == '\\' {
      EscapeIsShortest(t[1..]);
      ReadBodyShortest(Unescape(t[1..]).rest);
      assert r.value[1..] == ReadBody(Unescape(t[1..]).rest).value;
    } else if t[0] != '"' {
      ReadBodyShortest(t[1..]);
      assert r.value[1..] == ReadBody(t[1..]).value;
    }
  }

  /** No text that is read as a string is shorter than the one written. */
  lemma ReadQuotedShortest(t: string)
    requires ReadQuoted(t).Got?
    ensures var r := ReadQuoted(t); |Quoted(r.value, r.rest)| <= |t|
  {
    ReadBodyShortest(t[1..]);
  }

  lemma QuotedLength(s: string, x: string, y: string)
    ensures |Quoted(s, x)| - |x| == |Quoted(s, y)| - |y|
  {
  }

  /** Reading never makes text longer, and keeps its length only where it takes every character as it is. */
  lemma {:induction false} ReadBodySize(t: string)
    requires ReadBody(t).Got?
    ensures var r := ReadBody(t);
            && |r.value| + 1 + |r.rest| <= |t|
            && (|r.value| + 1 + |r.rest| == |t| ==> Plain(r.value) && t == r.value + (['"'] + r.rest))
    decreases |t|
  {
    var r := ReadBody(t);
    if t[0] == '"' {
      assert t == [] + (['"'] + t[1..]);
    } else if t[0] == '\\' {
      ReadBodySize(Unescape(t[1..]).rest);
    } else {
      ReadBodySize(t[1..]);
      assert t == [t[0]] + t[1..];
      assert r.value[1..] == ReadBody(t[1..]).value;
    }
  }

  lemma ReadQuotedSize(t: string)
    requires ReadQuoted(t).Got?
    ensures var r := ReadQuoted(t);
            && |r.value| + 2 + |r.rest| <= |t|
            && (|r.value| + 2 + |r.rest| == |t| ==> Plain(r.value) && t == Unescaped(r.value, r.rest))
  {
    ReadBodySize(t[1..]);
    assert t == ['"'] + t[1..];
  }

  // ---------------------------------------------------------------------------
  // Flat objects of strings.
  // ---------------------------------------------------------------------------

  datatype Field = Field(name: string, value: string)

  /** One field and what follows it. */
  function FieldText(quote: (string, string) -> string, f: Field, rest: string): string {
    quote(f.name, [':'] + quote(f.value, rest))
  }

  function FieldWriter(quote: (string, string) -> string): (Field, string) -> string {
    (f: Field, rest: string) => FieldText(quote, f, rest)
  }

  /** The fields of an object after its opening brace; `write` writes a field. */
  function FieldsText(write: (Field, string) -> string, fs: seq<Field>): string
    requires fs != []
  {
    write(fs[0], if |fs| == 1 then ['}'] else [','] + FieldsText(write, fs[1..]))
  }

  function ObjectText(quote: (string, string) -> string, fs: seq<Field>): string
    requires fs != []
  {
    ['{'] + FieldsText(FieldWriter(quote), fs)
  }

  function ReadField(t: string): (r: Reading<Field>)
    ensures r.Got? ==> |r.rest| < |t|
  {
    var name := ReadQuoted(t);
    if name.Malformed? || name.rest == [] || name.rest[0] != ':' then Malformed
    else
      var value := ReadQuoted(name.rest[1..]);
      if value.Malformed? then Malformed else Got(Field(name.value, value.value), value.rest)
  }

  /** Reading makes the text shorter. */
  ghost predicate Shrinks(read: string -> Reading<Field>) {
    forall t :: read(t).Got? ==> |read(t).rest| < |t|
  }

  /** The fields up to the closing brace; `read` reads a field. */
  function ReadFields(read: string -> Reading<Field>, t: string): Reading<seq<Field>>
    requires Shrinks(read)
    decreases |t|
  {
    var f := read(t);
    if f.Malformed? || f.rest == [] then Malformed
    else if f.rest[0] == '}' then Got([f.value], f.rest[1..])
    else if f.rest[0] == ',' then
      var more := ReadFields(read, f.rest[1..]);
      if more.Malformed? then Malformed else Got([f.value] + more.value, more.rest)
    else Malformed
  }

  /** The fields of an object of strings written without white space, if the whole text is one. */
  function ReadObject(t: string): (fs: seq<Field>) {
    if t == [] || t[0] != '{' then []
    else
      var r := ReadFields(ReadField, t[1..]);
      if r.Got? && r.rest == [] then r.value else []
  }

  predicate PlainField(f: Field) {
    Plain(f.name) && Plain(f.value)
  }

  predicate PlainFields(fs: seq<Field>) {
    forall i :: 0 <= i < |fs| ==> PlainField(fs[i])
  }

  lemma ReadFieldBack(f: Field, rest: string)
    ensures ReadField(FieldText(Quoted, f, rest)) == Got(f, rest)
  {
    var value := Quoted(f.value, rest);
    ReadQuotedBack(f.name, [':'] + value);
    ReadQuotedBack(f.value, rest);
    assert ([':'] + value)[1..] == value;
  }

  ghost predicate ReadsBack(read: string -> Reading<Field>, write: (Field, string) -> string) {
    forall f, rest :: read(write(f, rest)) == Got(f, rest)
  }

  lemma {:induction false} ReadFieldsBack(read: string -> Reading<Field>, write: (Field, string) -> string,
                                          fs: seq<Field>)
    requires fs != [] && Shrinks(read) && ReadsBack(read, write)
    ensures ReadFields(read, FieldsText(write, fs)) == Got(fs, [])
  {
    var rest := if |fs| == 1 then ['}'] else [','] + FieldsText(write, fs[1..]);
    assert read(write(fs[0], rest)) == Got(fs[0], rest);
    assert fs == [fs[0]] + fs[1..];
    if |fs| == 1 {
      assert fs == [fs[0]] && rest[1..] == [];
    } else {
      ReadFieldsBack(read, write, fs[1..]);
      assert rest[1..] == FieldsText(write, fs[1..]);
    }
  }

  /** An object written with escapes is read back field by field. */
  lemma ReadObjectBack(fs: seq<Field>)
    requires fs != []
    ensures ReadObject(ObjectText(Quoted, fs)) == fs
  {
    forall f, rest ensures ReadField(FieldWriter(Quoted)(f, rest)) == Got(f, rest) {
      ReadFieldBack(f, rest);
    }
    ReadFieldsBack(ReadField, FieldWriter(Quoted), fs);
    assert ObjectText(Quoted, fs)[1..] == FieldsText(FieldWriter(Quoted), fs);
  }

  /** The length of the fields without escapes. */
  function FieldsSize(fs: seq<Field>): nat {
    if fs == [] then 0 else |fs[0].name| + |fs[0].value| + 6 + FieldsSize(fs[1..])
  }

  lemma {:induction false} UnescapedSize(fs: seq<Field>)
    requires fs != []
    ensures |FieldsText(FieldWriter(Unescaped), fs)| == FieldsSize(fs)
  {
    if |fs| > 1 {
      UnescapedSize(fs[1..]);
    } else {
      assert FieldsSize(fs[1..]) == 0;
    }
  }

  /**
   * What reading takes for a field is no longer than the field without escapes, and exactly as long only if it is
   * plain.
   */
  ghost predicate Sized(read: string -> Reading<Field>, t: string) {
    var r := read(t);
    r.Got? ==>
      var size := |r.value.name| + |r.value.value| + 5 + |r.rest|;
      size <= |t| && (size == |t| ==> PlainField(r.value))
  }

  lemma FieldSized(t: string)
    ensures Sized(ReadField, t)
  {
    if ReadField(t).Got? {
      var name := ReadQuoted(t);
      ReadQuotedSize(t);
      ReadQuotedSize(name.rest[1..]);
    }
  }

  lemma {:induction false} ReadFieldsSize(read: string -> Reading<Field>, t: string)
    requires Shrinks(read) && (forall u :: Sized(read, u)) && ReadFields(read, t).Got?
    ensures var r := ReadFields(read, t);
            && r.value != []
            && FieldsSize(r.value) + |r.rest| <= |t|
            && (FieldsSize(r.value) + |r.rest| == |t| ==> PlainFields(r.value))
    decreases |t|
  {
    var f, r := read(t), ReadFields(read, t);
    assert Sized(read, t);
    if f.rest[0] == ',' {
      ReadFieldsSize(read, f.rest[1..]);
      assert r.value[1..] == ReadFields(read, f.rest[1..]).value;
    } else {
      assert FieldsSize(r.value[1..]) == 0;
    }
  }

  lemma QuotedIsUnescaped(s: string, rest: string)
    requires Plain(s)
    ensures Quoted(s, rest) == Unescaped(s, rest)
  {
    PlainIsEscaped(s);
  }

  lemma PlainFieldText(f: Field, rest: string)
    requires PlainField(f)
    ensures FieldText(Unescaped, f, rest) == FieldText(Quoted, f, rest)
  {
    QuotedIsUnescaped(f.value, rest);
    QuotedIsUnescaped(f.name, [':'] + Quoted(f.value, rest));
  }

  lemma {:induction false} SameFieldsText(v: (Field, string) -> string, w: (Field, string) -> string, fs: seq<Field>)
    requires fs != [] && forall f, rest :: f in fs ==> v(f, rest) == w(f, rest)
    ensures FieldsText(v, fs) == FieldsText(w, fs)
  {
    if |fs| > 1 {
      SameFieldsText(v, w, fs[1..]);
    }
  }

  lemma PlainObjectText(fs: seq<Field>)
    requires fs != [] && PlainFields(fs)
    ensures ObjectText(Unescaped, fs) == ObjectText(Quoted, fs)
  {
    forall f, rest | f in fs ensures FieldWriter(Unescaped)(f, rest) == FieldWriter(Quoted)(f, rest) {
      PlainFieldText(f, rest);
    }
    SameFieldsText(FieldWriter(Unescaped), FieldWriter(Quoted), fs);
  }

  /**
   * Text written without escapes is read as the fields it was made from exactly when no name and no value holds a
   * character that needs one. Otherwise it is read as something else or not at all.
   */
  lemma UnescapedReadsIff(fs: seq<Field>)
    requires fs != []
    ensures ReadObject(ObjectText(Unescaped, fs)) == fs <==> PlainFields(fs)
  {
    var text := FieldsText(FieldWriter(Unescaped), fs);
    assert ObjectText(Unescaped, fs)[1..] == text;
    if PlainFields(fs) {
      PlainObjectText(fs);
      ReadObjectBack(fs);
    } else if ReadFields(ReadField, text).Got? {
      forall t ensures Sized(ReadField, t) {
        FieldSized(t);
      }
      ReadFieldsSize(ReadField, text);
      UnescapedSize(fs);
    }
  }

  // ---------------------------------------------------------------------------
  // Numbers.
  // ---------------------------------------------------------------------------

  predicate IsNumber(d: string) {
    forall i :: 0 <= i < |d| ==> '0' <= d[i] <= '9'
  }

  function Decimal(n: nat): (d: string)
    ensures d != [] && IsNumber(d)
  {
    if n < 10 then [Digit(n)] else Decimal(n / 10) + [Digit(n % 10)]
  }

  function Digit(n: nat): (c: char)
    requires n < 10
    ensures '0' <= c <= '9'
  {
    ('0' as int + n) as char
  }

  function Undecimal(d: string): (n: int)
    ensures IsNumber(d) ==> n >= 0
  {
    if d == [] then 0 else 10 * Undecimal(d[..|d| - 1]) + (d[|d| - 1] as int - '0' as int)
  }

  lemma {:induction false} UndecimalDecimal(n: nat)
    ensures Undecimal(Decimal(n)) == n
  {
    var d := Decimal(n);
    if n < 10 {
      assert d[..0] == [];
    } else {
      UndecimalDecimal(n / 10);
      assert d[..|d| - 1] == Decimal(n / 10);
    }
  }
}
