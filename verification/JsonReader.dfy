/** A reader of JSON values (RFC 8259). */
module JsonReader {
  import opened JsonText
  import opened JsonValue
  import opened Wrappers

  predicate IsSpace(c: char) {
    c == ' ' || c == '\t' || c == '\n' || c == '\r'
  }

  function Skip(t: string): (r: string)
    ensures |r| <= |t|
  {
    if t != [] && IsSpace(t[0]) then Skip(t[1..]) else t
  }

  // ---------------------------------------------------------------------------
  // Numbers and names.
  // ---------------------------------------------------------------------------

  /** How many digits a text begins with. */
  function Digits(t: string): (n: nat)
    ensures n <= |t|
  {
    if t != [] && '0' <= t[0] <= '9' then 1 + Digits(t[1..]) else 0
  }

  function Sign(t: string, signs: string): (n: nat)
    ensures n <= |t|
  {
    if t != [] && t[0] in signs then 1 else 0
  }

  /** The length of the integer part, which has no leading zero; 0 if there is none. */
  function IntegerLength(t: string): (n: nat)
    ensures n <= |t|
  {
    var s := Sign(t, "-");
    var d := Digits(t[s..]);
    if d == 0 then 0 else if t[s] == '0' then s + 1 else s + d
  }

  function FractionLength(t: string): (n: nat)
    ensures n <= |t|
  {
    if t == [] || t[0] != '.' || Digits(t[1..]) == 0 then 0 else 1 + Digits(t[1..])
  }

  function ExponentLength(t: string): (n: nat)
    ensures n <= |t|
  {
    if t == [] || t[0] !in "eE" then 0
    else
      var s := Sign(t[1..], "+-");
      var d := Digits(t[1 + s..]);
      if d == 0 then 0 else 1 + s + d
  }

  function ReadNumber(t: string): (r: Reading<Json>)
    ensures r.Got? ==> r.value.Number? && |r.rest| < |t|
  {
    var i := IntegerLength(t);
    var f := i + FractionLength(t[i..]);
    var e := f + ExponentLength(t[f..]);
    if i == 0 then Malformed else Got(Number(t[..e]), t[e..])
  }

  function ReadName(t: string, name: string, v: Json): (r: Reading<Json>)
    requires name != []
    ensures r.Got? ==> r.value == v && |r.rest| < |t|
  {
    if name <= t then Got(v, t[|name|..]) else Malformed
  }

  /** A value without parts: a number or one of three names. */
  function ReadScalar(t: string): (r: Reading<Json>)
    ensures r.Got? ==> LongestLeaf(r.value) == 0 && |r.rest| < |t|
  {
    var none, yes, no := ReadName(t, "null", Null), ReadName(t, "true", Bool(true)), ReadName(t, "false", Bool(false));
    if none.Got? then none else if yes.Got? then yes else if no.Got? then no else ReadNumber(t)
  }

  function ReadString(t: string): (r: Reading<string>)
    ensures r.Got? ==> |r.value| + |r.rest| < |t|
  {
    var r := ReadQuoted(t);
    if r.Got? then
      ReadQuotedSize(t);
      r
    else Malformed
  }

  // ---------------------------------------------------------------------------
  // Values.
  // ---------------------------------------------------------------------------

  /** The text behind a character that must come next, after white space. */
  function Expect(t: string, c: char): (r: Reading<char>)
    ensures r.Got? ==> |r.rest| < |t|
  {
    var u := Skip(t);
    if u != [] && u[0] == c then Got(c, u[1..]) else Malformed
  }

  /** A value; what it takes from the text is longer than every string in it. */
  function ReadValue(t: string): (r: Reading<Json>)
    ensures r.Got? ==> LongestLeaf(r.value) + |r.rest| < |t|
    decreases |t|, 0
  {
    if t == [] then Malformed
    else if t[0] == '"' then
      var s := ReadString(t);
      if s.Got? then Got(String(s.value), s.rest) else Malformed
    else if t[0] == '[' then
      var empty := Expect(t[1..], ']');
      if empty.Got? then Got(Array([]), empty.rest)
      else
        var items := ReadItems(Skip(t[1..]));
        if items.Got? then Got(Array(items.value), items.rest) else Malformed
    else if t[0] == '{' then
      var empty := Expect(t[1..], '}');
      if empty.Got? then Got(Object([]), empty.rest)
      else
        var entries := ReadEntries(Skip(t[1..]));
        if entries.Got? then Got(Object(entries.value), entries.rest) else Malformed
    else ReadScalar(t)
  }

  function ReadItems(t: string): (r: Reading<seq<Json>>)
    ensures r.Got? ==> LongestOfItems(r.value) + |r.rest| < |t|
    decreases |t|, 1
  {
    var v := ReadValue(t);
    if v.Malformed? then Malformed
    else
      var end, next := Expect(v.rest, ']'), Expect(v.rest, ',');
      if end.Got? then Got([v.value], end.rest)
      else if next.Malformed? then Malformed
      else
        var more := ReadItems(Skip(next.rest));
        if more.Got? then Got([v.value] + more.value, more.rest) else Malformed
  }

  function ReadEntries(t: string): (r: Reading<seq<Entry>>)
    ensures r.Got? ==> LongestOfEntries(r.value) + |r.rest| < |t|
    decreases |t|, 1
  {
    var e := ReadEntry(t);
    if e.Malformed? then Malformed
    else
      var end, next := Expect(e.rest, '}'), Expect(e.rest, ',');
      if end.Got? then Got([e.value], end.rest)
      else if next.Malformed? then Malformed
      else
        var more := ReadEntries(Skip(next.rest));
        if more.Got? then Got([e.value] + more.value, more.rest) else Malformed
  }

  function ReadEntry(t: string): (r: Reading<Entry>)
    ensures r.Got? ==> LongestLeaf(r.value.value) + |r.rest| < |t|
    decreases |t|, 0
  {
    var key := ReadString(t);
    if key.Malformed? then Malformed
    else
      var colon := Expect(key.rest, ':');
      if colon.Malformed? then Malformed
      else
        var v := ReadValue(Skip(colon.rest));
        if v.Got? then Got(Entry(key.value, v.value), v.rest) else Malformed
  }

  /** A whole text as one value. */
  function Parse(text: string): (v: Option<Json>)
    ensures v.Some? ==> LongestLeaf(v.value) < |text|
  {
    var r := ReadValue(Skip(text));
    if r.Got? && Skip(r.rest) == [] then Some(r.value) else None
  }
}
