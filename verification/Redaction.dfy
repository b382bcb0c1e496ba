/** Redaction of sensitive fields in JSON values and in text that may itself be JSON. */
module Redaction {
  import opened Ascii
  import opened JsonValue
  import opened Wrappers
  import JsonReader
  import Utf8

  const REDACTED := "[REDACTED]"

  /**
   * What redaction is given: the JSON reader and printer and the two replacement patterns,
   * which are library code, and the test for sensitive keys (`SourceCodec` puts in the backend's own).
   */
  datatype Codec = Codec(
    parse: string -> Option<Json>,
    serialize: Json -> string,
    maskPairs: string -> string,
    maskJwts: string -> string,
    sensitive: string -> bool)
  {
    ghost predicate LeavesShorter(text: string) {
      parse(text).Some? ==> LongestLeaf(parse(text).value) < |text|
    }

    /** A JSON text is longer than every string inside it (section 7 of RFC 8259: strings are quoted). */
    ghost predicate Faithful() {
      forall text :: LeavesShorter(text)
    }
  }

  // ---------------------------------------------------------------------------
  // Sensitive keys.
  // ---------------------------------------------------------------------------

  predicate IsSeparator(ch: char) { ch == '_' || ch == '-' || ch == '.' }

  /** `lower` is Unicode lower-casing of one character. */
  function NormalizeKey(lower: char -> string, key: string): string {
    if key == [] then []
    else (if IsSeparator(key[0]) then [] else lower(key[0])) + NormalizeKey(lower, key[1..])
  }

  const SENSITIVE_KEYS: set<string> :=
    {"accesstoken", "refreshtoken", "token", "jwt", "secret", "apikey", "authorization"}

  predicate IsSensitiveKey(lower: char -> string, key: string) {
    NormalizeKey(lower, key) in SENSITIVE_KEYS
  }

  /** Two spellings of one key: separators anywhere, ASCII letters in either case. */
  predicate SameSpelling(a: string, b: string)
    decreases |a| + |b|
  {
    if a != [] && IsSeparator(a[0]) then SameSpelling(a[1..], b)
    else if b != [] && IsSeparator(b[0]) then SameSpelling(a, b[1..])
    else if a == [] || b == [] then a == b
    else AsciiLower(a[0]) == AsciiLower(b[0]) && SameSpelling(a[1..], b[1..])
  }

  lemma {:induction false} SpellingsNormalizeAlike(lower: char -> string, a: string, b: string)
    requires LowersAscii(lower) && IsAscii(a) && IsAscii(b)
    ensures SameSpelling(a, b) <==> NormalizeKey(lower, a) == NormalizeKey(lower, b)
    decreases |a| + |b|
  {
    if a != [] && IsSeparator(a[0]) {
      SpellingsNormalizeAlike(lower, a[1..], b);
    } else if b != [] && IsSeparator(b[0]) {
      SpellingsNormalizeAlike(lower, a, b[1..]);
    } else if a != [] && b != [] {
      SpellingsNormalizeAlike(lower, a[1..], b[1..]);
      var x, y := NormalizeKey(lower, a), NormalizeKey(lower, b);
      assert x[0] == AsciiLower(a[0]) && y[0] == AsciiLower(b[0]);
      assert x[1..] == NormalizeKey(lower, a[1..]) && y[1..] == NormalizeKey(lower, b[1..]);
    }
  }

  lemma {:induction false} LowerCaseIsNormal(lower: char -> string, name: string)
    requires LowersAscii(lower) && forall i :: 0 <= i < |name| ==> 'a' <= name[i] <= 'z'
    ensures NormalizeKey(lower, name) == name && IsAscii(name)
  {
    if name != [] {
      LowerCaseIsNormal(lower, name[1..]);
    }
  }

  ghost predicate SpellsOneOf(key: string, names: set<string>) {
    exists name :: name in names && SameSpelling(key, name)
  }

  /** An ASCII key is sensitive exactly when it is a spelling of one of the seven names. */
  lemma SensitiveIffSpelling(lower: char -> string, key: string)
    requires LowersAscii(lower) && IsAscii(key)
    ensures IsSensitiveKey(lower, key) <==>
            SpellsOneOf(key, {"accesstoken", "refreshtoken", "token", "jwt", "secret", "apikey", "authorization"})
  {
    forall name | name in SENSITIVE_KEYS
      ensures SameSpelling(key, name) <==> NormalizeKey(lower, key) == name
    {
      LowerCaseIsNormal(lower, name);
      SpellingsNormalizeAlike(lower, key, name);
    }
  }

  lemma {:induction false} NormalizeSplit(lower: char -> string, a: string, b: string)
    ensures NormalizeKey(lower, a + b) == NormalizeKey(lower, a) + NormalizeKey(lower, b)
  {
    if a == [] {
      assert a + b == b;
    } else {
      NormalizeSplit(lower, a[1..], b);
      assert (a + b)[0] == a[0] && (a + b)[1..] == a[1..] + b;
    }
  }

  /** A character makes no difference to a key exactly when it is one of the three separators. */
  lemma SeparatorsOnly(lower: char -> string, a: string, ch: char, b: string)
    requires lower(ch) != []
    ensures NormalizeKey(lower, a + ([ch] + b)) == NormalizeKey(lower, a + b) <==> ch == '_' || ch == '-' || ch == '.'
  {
    NormalizeSplit(lower, a, [ch] + b);
    NormalizeSplit(lower, a, b);
    assert ([ch] + b)[1..] == b;
  }

  function SourceCodec(
    parse: string -> Option<Json>, serialize: Json -> string,
    maskPairs: string -> string, maskJwts: string -> string, lower: char -> string): Codec
  {
    Codec(parse, serialize, maskPairs, maskJwts, key => IsSensitiveKey(lower, key))
  }

  /** With this reader a JSON text is longer than every string in it, so redaction terminates on every input. */
  lemma ReaderFaithful(serialize: Json -> string, maskPairs: string -> string, maskJwts: string -> string,
                       lower: char -> string)
    ensures SourceCodec(JsonReader.Parse, serialize, maskPairs, maskJwts, lower).Faithful()
  {
    var c := SourceCodec(JsonReader.Parse, serialize, maskPairs, maskJwts, lower);
    forall text ensures c.LeavesShorter(text) {
      assert c.parse(text) == JsonReader.Parse(text);
    }
  }

  // ---------------------------------------------------------------------------
  // Redaction: a mutual recursion between the tree and the text of its string leaves.
  // ---------------------------------------------------------------------------

  function Redact(c: Codec, v: Json): (w: Json)
    requires c.Faithful()
    decreases LongestLeaf(v), 1, v
  {
    match v
    case Object(entries) => Object(RedactEntries(c, entries))
    case Array(items) => Array(RedactItems(c, items))
    case String(text) => String(Sanitize(c, text))
    case _ => v
  }

  function RedactItems(c: Codec, items: seq<Json>): (r: seq<Json>)
    requires c.Faithful()
    ensures |r| == |items|
    decreases LongestOfItems(items), 1, items
  {
    if items == [] then [] else [Redact(c, items[0])] + RedactItems(c, items[1..])
  }

  function RedactEntries(c: Codec, entries: seq<Entry>): (r: seq<Entry>)
    requires c.Faithful()
    ensures |r| == |entries|
    decreases LongestOfEntries(entries), 1, entries
  {
    if entries == [] then []
    else [RedactEntry(c, entries[0])] + RedactEntries(c, entries[1..])
  }

  function RedactEntry(c: Codec, e: Entry): (r: Entry)
    requires c.Faithful()
    decreases LongestLeaf(e.value), 1, e
  {
    Entry(e.key, if c.sensitive(e.key) then String(REDACTED) else Redact(c, e.value))
  }

  function Sanitize(c: Codec, text: string): (r: string)
    requires c.Faithful()
    decreases |text|, 0
  {
    var parsed := c.parse(text);
    assert c.LeavesShorter(text);
    var body := if parsed.Some? then c.serialize(Redact(c, parsed.value)) else text;
    Utf8.Truncate(c.maskJwts(c.maskPairs(body)))
  }

  lemma {:induction false} ItemAt(c: Codec, items: seq<Json>, i: nat)
    requires c.Faithful() && i < |items|
    ensures RedactItems(c, items)[i] == Redact(c, items[i])
  {
    if i > 0 {
      ItemAt(c, items[1..], i - 1);
    }
  }

  lemma {:induction false} EntryAt(c: Codec, entries: seq<Entry>, i: nat)
    requires c.Faithful() && i < |entries|
    ensures RedactEntries(c, entries)[i] == RedactEntry(c, entries[i])
  {
    if i > 0 {
      EntryAt(c, entries[1..], i - 1);
    }
  }

  lemma {:induction false} ItemLeaf(items: seq<Json>, i: nat)
    requires i < |items|
    ensures LongestLeaf(items[i]) <= LongestOfItems(items)
  {
    if i > 0 {
      ItemLeaf(items[1..], i - 1);
    }
  }

  lemma {:induction false} EntryLeaf(entries: seq<Entry>, i: nat)
    requires i < |entries|
    ensures LongestLeaf(entries[i].value) <= LongestOfEntries(entries)
  {
    if i > 0 {
      EntryLeaf(entries[1..], i - 1);
    }
  }

  // The same recursion, as the loops that rewrite a value in place.

  method RedactJsonValue(c: Codec, value: Json) returns (w: Json)
    requires c.Faithful()
    ensures w == Redact(c, value)
    decreases LongestLeaf(value), 1, value
  {
    w := value;
    match value {
      case Object(children) =>
        var entries := RedactChildren(c, children);
        w := Object(entries);
      case Array(all) =>
        var items := RedactAll(c, all);
        w := Array(items);
      case String(text) =>
        var sanitized := SanitizeSensitiveText(c, text);
        w := String(sanitized);
      case _ =>
    }
  }

  method RedactChildren(c: Codec, children: seq<Entry>) returns (entries: seq<Entry>)
    requires c.Faithful()
    ensures entries == RedactEntries(c, children)
    decreases LongestOfEntries(children), 1, children
  {
    entries := children;
    for i := 0 to |children|
      invariant |entries| == |children|
      invariant forall j :: 0 <= j < i ==> entries[j] == RedactEntries(c, children)[j]
      invariant forall j :: i <= j < |children| ==> entries[j] == children[j]
    {
      EntryAt(c, children, i);
      EntryLeaf(children, i);
      var child := RedactChild(c, children[i]);
      entries := entries[i := child];
    }
  }

  method RedactChild(c: Codec, e: Entry) returns (r: Entry)
    requires c.Faithful()
    ensures r == RedactEntry(c, e)
    decreases LongestLeaf(e.value), 1, e
  {
    if c.sensitive(e.key) {
      r := Entry(e.key, String(REDACTED));
    } else {
      var child := RedactJsonValue(c, e.value);
      r := Entry(e.key, child);
    }
  }

  method RedactAll(c: Codec, all: seq<Json>) returns (items: seq<Json>)
    requires c.Faithful()
    ensures items == RedactItems(c, all)
    decreases LongestOfItems(all), 1, all
  {
    items := all;
    for i := 0 to |all|
      invariant |items| == |all|
      invariant forall j :: 0 <= j < i ==> items[j] == RedactItems(c, all)[j]
      invariant forall j :: i <= j < |all| ==> items[j] == all[j]
    {
      ItemAt(c, all, i);
      ItemLeaf(all, i);
      var item := RedactJsonValue(c, all[i]);
      items := items[i := item];
    }
  }

  method SanitizeSensitiveText(c: Codec, input: string) returns (output: string)
    requires c.Faithful()
    ensures output == Sanitize(c, input)
    ensures forall noPairs, noJwts :: Cleans(c, noPairs, noJwts) ==> noPairs(output) && noJwts(output)
    decreases |input|, 0
  {
    var parsed := c.parse(input);
    assert c.LeavesShorter(input);
    if parsed.Some? {
      var value := RedactJsonValue(c, parsed.value);
      output := c.serialize(value);
    } else {
      output := input;
    }
    output := c.maskPairs(output);
    output := c.maskJwts(output);
    output := Utf8.Truncate(output);
    forall noPairs, noJwts | Cleans(c, noPairs, noJwts) ensures noPairs(output) && noJwts(output) {
      SanitizedIsClean(c, noPairs, noJwts, input);
    }
  }

  // ---------------------------------------------------------------------------
  // What redaction does at every place of the tree.
  // ---------------------------------------------------------------------------

  /** The value at a path of child positions. */
  function At(v: Json, path: seq<nat>): Option<Json>
    decreases path
  {
    if path == [] then Some(v)
    else match v
      case Array(items) => if path[0] < |items| then At(items[path[0]], path[1..]) else None
      case Object(entries) => if path[0] < |entries| then At(entries[path[0]].value, path[1..]) else None
      case _ => None
  }

  /** Length of the path down to its first sensitive entry, or `None` if it meets no sensitive entry. */
  function FirstSensitive(c: Codec, v: Json, path: seq<nat>): (r: Option<nat>)
    ensures r.Some? ==> 1 <= r.value <= |path|
    decreases path
  {
    if path == [] then None
    else match v
      case Array(items) =>
        if path[0] < |items| then Deeper(FirstSensitive(c, items[path[0]], path[1..])) else None
      case Object(entries) =>
        if path[0] >= |entries| then None
        else if c.sensitive(entries[path[0]].key) then Some(1)
        else Deeper(FirstSensitive(c, entries[path[0]].value, path[1..]))
      case _ => None
  }

  function Deeper(r: Option<nat>): Option<nat> {
    if r.Some? then Some(r.value + 1) else None
  }

  function Redacted(c: Codec, v: Option<Json>): Option<Json>
    requires c.Faithful()
  {
    if v.Some? then Some(Redact(c, v.value)) else None
  }

  /** What the result must hold at a path of length `n`. */
  function Expected(c: Codec, first: Option<nat>, n: nat, was: Option<Json>): Option<Json>
    requires c.Faithful()
  {
    if first.None? then Redacted(c, was)
    else if first.value == n then Some(String(REDACTED))
    else None
  }

  /**
   * At a path that meets no sensitive entry the result holds the redaction of what was there, and nothing
   * where nothing was; at a sensitive entry it holds the fixed marker; below one it holds nothing.
   */
  lemma {:induction false} RedactAt(c: Codec, v: Json, path: seq<nat>)
    requires c.Faithful()
    ensures At(Redact(c, v), path) == Expected(c, FirstSensitive(c, v, path), |path|, At(v, path))
    decreases path, 1
  {
    if path != [] {
      match v {
        case Array(items) => RedactAtArray(c, items, path);
        case Object(entries) => RedactAtObject(c, entries, path);
        case _ =>
      }
    }
  }

  lemma {:induction false} RedactAtArray(c: Codec, items: seq<Json>, path: seq<nat>)
    requires c.Faithful() && path != []
    ensures At(Array(RedactItems(c, items)), path)
            == Expected(c, FirstSensitive(c, Array(items), path), |path|, At(Array(items), path))
    decreases path, 0
  {
    if path[0] < |items| {
      ItemAt(c, items, path[0]);
      RedactAt(c, items[path[0]], path[1..]);
    }
  }

  lemma {:induction false} RedactAtObject(c: Codec, entries: seq<Entry>, path: seq<nat>)
    requires c.Faithful() && path != []
    ensures At(Object(RedactEntries(c, entries)), path)
            == Expected(c, FirstSensitive(c, Object(entries), path), |path|, At(Object(entries), path))
    decreases path, 0
  {
    if path[0] < |entries| {
      EntryAt(c, entries, path[0]);
      RedactAt(c, entries[path[0]].value, path[1..]);
    }
  }

  /**
   * With the backend's own keys: an entry is masked exactly when its ASCII key spells a sensitive name; others are
   * redacted.
   */
  lemma SourceKeysMasked(
    parse: string -> Option<Json>, serialize: Json -> string,
    maskPairs: string -> string, maskJwts: string -> string, lower: char -> string,
    entries: seq<Entry>, i: nat)
    requires SourceCodec(parse, serialize, maskPairs, maskJwts, lower).Faithful() && LowersAscii(lower)
    requires i < |entries| && IsAscii(entries[i].key)
    ensures var c := SourceCodec(parse, serialize, maskPairs, maskJwts, lower);
            var w := Redact(c, Object(entries));
            && w.Object? && |w.entries| == |entries|
            && w.entries[i].key == entries[i].key
            && w.entries[i].value ==
               if SpellsOneOf(entries[i].key, SENSITIVE_KEYS)
               then String("[REDACTED]") else Redact(c, entries[i].value)
  {
    var c := SourceCodec(parse, serialize, maskPairs, maskJwts, lower);
    EntryAt(c, entries, i);
    SensitiveIffSpelling(lower, entries[i].key);
  }

  /** Same keys in the same order, same length, same scalar; strings may differ. */
  predicate SameShape(v: Json, w: Json) {
    match v
    case Object(entries) =>
      && w.Object? && |w.entries| == |entries|
      && forall i :: 0 <= i < |entries| ==> w.entries[i].key == entries[i].key
    case Array(items) => w.Array? && |w.items| == |items|
    case String(_) => w.String?
    case _ => w == v
  }

  /**
   * At every depth outside sensitive entries, redaction keeps object keys, array lengths and every scalar but strings.
   */
  lemma ShapeKept(c: Codec, v: Json, path: seq<nat>)
    requires c.Faithful() && FirstSensitive(c, v, path).None? && At(v, path).Some?
    ensures At(Redact(c, v), path).Some?
    ensures SameShape(At(v, path).value, At(Redact(c, v), path).value)
  {
    RedactAt(c, v, path);
    match At(v, path).value {
      case Object(entries) =>
        forall i | 0 <= i < |entries| ensures RedactEntries(c, entries)[i].key == entries[i].key {
          EntryAt(c, entries, i);
        }
      case _ =>
    }
  }

  // ---------------------------------------------------------------------------
  // Nothing under a sensitive key influences the output.
  // ---------------------------------------------------------------------------

  /** Equal up to what lies under sensitive keys, also inside string values that are JSON texts themselves. */
  ghost predicate Alike(c: Codec, v: Json, w: Json)
    requires c.Faithful()
    decreases LongestLeaf(v), 1, v
  {
    match v
    case Object(entries) => w.Object? && AlikeEntries(c, entries, w.entries)
    case Array(items) => w.Array? && AlikeItems(c, items, w.items)
    case String(text) => w.String? && AlikeText(c, text, w.text)
    case _ => v == w
  }

  ghost predicate AlikeItems(c: Codec, v: seq<Json>, w: seq<Json>)
    requires c.Faithful()
    decreases LongestOfItems(v), 1, v
  {
    |v| == |w| && (v == [] || (Alike(c, v[0], w[0]) && AlikeItems(c, v[1..], w[1..])))
  }

  ghost predicate AlikeEntries(c: Codec, v: seq<Entry>, w: seq<Entry>)
    requires c.Faithful()
    decreases LongestOfEntries(v), 1, v
  {
    |v| == |w| && (v == [] || (AlikeEntry(c, v[0], w[0]) && AlikeEntries(c, v[1..], w[1..])))
  }

  ghost predicate AlikeEntry(c: Codec, d: Entry, e: Entry)
    requires c.Faithful()
    decreases LongestLeaf(d.value), 1, d
  {
    d.key == e.key && (c.sensitive(d.key) || Alike(c, d.value, e.value))
  }

  ghost predicate AlikeText(c: Codec, s: string, t: string)
    requires c.Faithful()
    decreases |s|, 0
  {
    assert c.LeavesShorter(s);
    || s == t
    || (c.parse(s).Some? && c.parse(t).Some? && Alike(c, c.parse(s).value, c.parse(t).value))
  }

  lemma {:induction false} RedactHides(c: Codec, v: Json, w: Json)
    requires c.Faithful() && Alike(c, v, w)
    ensures Redact(c, v) == Redact(c, w)
    decreases LongestLeaf(v), 1, v
  {
    match v {
      case Object(entries) => RedactEntriesHides(c, entries, w.entries);
      case Array(items) => RedactItemsHides(c, items, w.items);
      case String(text) => SanitizeHides(c, text, w.text);
      case _ =>
    }
  }

  lemma {:induction false} RedactItemsHides(c: Codec, v: seq<Json>, w: seq<Json>)
    requires c.Faithful() && AlikeItems(c, v, w)
    ensures RedactItems(c, v) == RedactItems(c, w)
    decreases LongestOfItems(v), 1, v
  {
    if v != [] {
      RedactHides(c, v[0], w[0]);
      RedactItemsHides(c, v[1..], w[1..]);
    }
  }

  lemma {:induction false} RedactEntriesHides(c: Codec, v: seq<Entry>, w: seq<Entry>)
    requires c.Faithful() && AlikeEntries(c, v, w)
    ensures RedactEntries(c, v) == RedactEntries(c, w)
    decreases LongestOfEntries(v), 1, v
  {
    if v != [] {
      if !c.sensitive(v[0].key) {
        RedactHides(c, v[0].value, w[0].value);
      }
      RedactEntriesHides(c, v[1..], w[1..]);
    }
  }

  /**
   * Two texts that differ only under sensitive keys, at any depth of nesting of text in text, sanitise to the same
   * text.
   */
  lemma {:induction false} SanitizeHides(c: Codec, s: string, t: string)
    requires c.Faithful() && AlikeText(c, s, t)
    ensures Sanitize(c, s) == Sanitize(c, t)
    decreases |s|, 0
  {
    if s != t {
      assert c.LeavesShorter(s);
      RedactHides(c, c.parse(s).value, c.parse(t).value);
    }
  }

  // ---------------------------------------------------------------------------
  // Both patterns are applied to every text that comes out.
  // ---------------------------------------------------------------------------

  /**
   * What the two patterns achieve: `noPairs` and `noJwts` are any properties that their outputs have, that replacing
   * JWTs keeps, and that truncation keeps.
   */
  ghost predicate Cleans(c: Codec, noPairs: string -> bool, noJwts: string -> bool) {
    && (forall s :: noPairs(c.maskPairs(s)))
    && (forall s :: noJwts(c.maskJwts(s)))
    && (forall s :: noPairs(s) ==> noPairs(c.maskJwts(s)))
    && (forall s :: noPairs(s) ==> noPairs(Utf8.Truncate(s)))
    && (forall s :: noJwts(s) ==> noJwts(Utf8.Truncate(s)))
  }

  ghost predicate Clean(noPairs: string -> bool, noJwts: string -> bool, texts: set<string>) {
    forall t :: t in texts ==> noPairs(t) && noJwts(t)
  }

  /** Every sanitised text is clean of both. */
  lemma SanitizedIsClean(c: Codec, noPairs: string -> bool, noJwts: string -> bool, text: string)
    requires c.Faithful() && Cleans(c, noPairs, noJwts)
    ensures noPairs(Sanitize(c, text)) && noJwts(Sanitize(c, text))
  {
    var parsed := c.parse(text);
    var body := if parsed.Some? then c.serialize(Redact(c, parsed.value)) else text;
    assert noPairs(c.maskPairs(body));
    assert noPairs(c.maskJwts(c.maskPairs(body)));
  }

  /** Every string of a redacted value that is not under a sensitive key is clean of both. */
  lemma {:induction false} RedactedIsClean(c: Codec, noPairs: string -> bool, noJwts: string -> bool, v: Json)
    requires c.Faithful() && Cleans(c, noPairs, noJwts)
    ensures Clean(noPairs, noJwts, ExposedTexts(c, Redact(c, v)))
    decreases v
  {
    match v {
      case Object(entries) => EntriesAreClean(c, noPairs, noJwts, entries);
      case Array(items) => ItemsAreClean(c, noPairs, noJwts, items);
      case String(text) => SanitizedIsClean(c, noPairs, noJwts, text);
      case _ =>
    }
  }

  lemma {:induction false} ItemsAreClean(c: Codec, noPairs: string -> bool, noJwts: string -> bool, items: seq<Json>)
    requires c.Faithful() && Cleans(c, noPairs, noJwts)
    ensures Clean(noPairs, noJwts, ExposedOfItems(c, RedactItems(c, items)))
    decreases items
  {
    if items != [] {
      RedactedIsClean(c, noPairs, noJwts, items[0]);
      ItemsAreClean(c, noPairs, noJwts, items[1..]);
      assert RedactItems(c, items)[1..] == RedactItems(c, items[1..]);
    }
  }

  lemma {:induction false} EntriesAreClean(c: Codec, noPairs: string -> bool, noJwts: string -> bool,
                                           entries: seq<Entry>)
    requires c.Faithful() && Cleans(c, noPairs, noJwts)
    ensures Clean(noPairs, noJwts, ExposedOfEntries(c, RedactEntries(c, entries)))
    decreases entries
  {
    if entries != [] {
      if !c.sensitive(entries[0].key) {
        RedactedIsClean(c, noPairs, noJwts, entries[0].value);
      }
      EntriesAreClean(c, noPairs, noJwts, entries[1..]);
      assert RedactEntries(c, entries)[1..] == RedactEntries(c, entries[1..]);
    }
  }

  /** Text that is not JSON goes through the pairs and then the JWTs, and then stands if it is not too long. */
  lemma PlainTextMasked(c: Codec, text: string, pairs: string, jwts: string)
    requires c.Faithful() && c.parse(text).None? && c.maskPairs(text) == pairs && c.maskJwts(pairs) == jwts
    requires |jwts| <= 256
    ensures Sanitize(c, text) == jwts
  {
    assert Utf8.ByteLen(jwts) <= 4 * |jwts|;
  }

  /** An instance: `token=abc` comes out as `token=[REDACTED]`, without any of the three letters. */
  lemma PairIsMasked(c: Codec, text: string, masked: string)
    requires text == "token=abc" && masked == "token=[REDACTED]"
    requires c.Faithful() && c.parse(text).None? && c.maskPairs(text) == masked && c.maskJwts(masked) == masked
    ensures Sanitize(c, text) == masked
    ensures 'a' !in Sanitize(c, text) && 'b' !in Sanitize(c, text) && 'c' !in Sanitize(c, text)
  {
    PlainTextMasked(c, text, masked, masked);
  }

  // ---------------------------------------------------------------------------
  // When a second pass changes nothing, and how long the output is.
  // ---------------------------------------------------------------------------

  /** The string values that are not under a sensitive key. */
  function ExposedTexts(c: Codec, v: Json): set<string> {
    match v
    case Object(entries) => ExposedOfEntries(c, entries)
    case Array(items) => ExposedOfItems(c, items)
    case String(text) => {text}
    case _ => {}
  }

  function ExposedOfItems(c: Codec, items: seq<Json>): set<string> {
    if items == [] then {} else ExposedTexts(c, items[0]) + ExposedOfItems(c, items[1..])
  }

  function ExposedOfEntries(c: Codec, entries: seq<Entry>): set<string> {
    if entries == [] then {}
    else ExposedOfEntry(c, entries[0]) + ExposedOfEntries(c, entries[1..])
  }

  function ExposedOfEntry(c: Codec, e: Entry): set<string> {
    if c.sensitive(e.key) then {} else ExposedTexts(c, e.value)
  }

  ghost predicate AllSettled(c: Codec, texts: set<string>)
    requires c.Faithful()
  {
    forall t :: t in texts ==> Sanitize(c, Sanitize(c, t)) == Sanitize(c, t)
  }

  /** A second pass changes nothing exactly when sanitising every exposed string again changes nothing. */
  lemma {:induction false} SecondPassIff(c: Codec, v: Json)
    requires c.Faithful()
    ensures Redact(c, Redact(c, v)) == Redact(c, v) <==> AllSettled(c, ExposedTexts(c, v))
    decreases v
  {
    match v {
      case Object(entries) => SecondPassEntriesIff(c, entries);
      case Array(items) => SecondPassItemsIff(c, items);
      case String(text) => SecondPassTextIff(c, text);
      case _ =>
    }
  }

  lemma SecondPassTextIff(c: Codec, text: string)
    requires c.Faithful()
    ensures Redact(c, Redact(c, String(text))) == Redact(c, String(text))
            <==> AllSettled(c, ExposedTexts(c, String(text)))
  {
    assert ExposedTexts(c, String(text)) == {text};
  }

  lemma {:induction false} SecondPassItemsIff(c: Codec, items: seq<Json>)
    requires c.Faithful()
    ensures RedactItems(c, RedactItems(c, items)) == RedactItems(c, items) <==> AllSettled(c, ExposedOfItems(c, items))
    decreases items
  {
    if items != [] {
      SecondPassIff(c, items[0]);
      SecondPassItemsIff(c, items[1..]);
      var r := RedactItems(c, items);
      assert r[1..] == RedactItems(c, items[1..]);
      HeadAndTail(RedactItems(c, r), r);
      assert RedactItems(c, r)[1..] == RedactItems(c, r[1..]);
    }
  }

  lemma {:induction false} SecondPassEntriesIff(c: Codec, entries: seq<Entry>)
    requires c.Faithful()
    ensures RedactEntries(c, RedactEntries(c, entries)) == RedactEntries(c, entries)
            <==> AllSettled(c, ExposedOfEntries(c, entries))
    decreases entries
  {
    if entries != [] {
      SecondPassEntryIff(c, entries[0]);
      SecondPassEntriesIff(c, entries[1..]);
      var r := RedactEntries(c, entries);
      assert r[1..] == RedactEntries(c, entries[1..]);
      HeadAndTail(RedactEntries(c, r), r);
      assert RedactEntries(c, r)[1..] == RedactEntries(c, r[1..]);
    }
  }

  lemma {:induction false} SecondPassEntryIff(c: Codec, e: Entry)
    requires c.Faithful()
    ensures RedactEntry(c, RedactEntry(c, e)) == RedactEntry(c, e) <==> AllSettled(c, ExposedOfEntry(c, e))
    decreases e
  {
    if !c.sensitive(e.key) {
      SecondPassIff(c, e.value);
    }
  }

  /**
   * Text that sanitising takes as it is: not JSON, within the limit, and with nothing for the two patterns to replace.
   */
  predicate Untouched(c: Codec, text: string) {
    && c.parse(text).None?
    && Utf8.ByteLen(text) <= Utf8.MAX_SANITIZED_TEXT_LEN
    && c.maskPairs(text) == text && c.maskJwts(text) == text
  }

  /** Sanitising untouched text changes nothing. */
  lemma UntouchedSettles(c: Codec, text: string)
    requires c.Faithful() && Untouched(c, text)
    ensures Sanitize(c, text) == text
  {
    Utf8.CutBounds(text, Utf8.MAX_SANITIZED_TEXT_LEN, Utf8.SUFFIX);
  }

  /** A second pass changes nothing when every exposed string is untouched, or sanitises to a string that is. */
  lemma SecondPassUnchanged(c: Codec, v: Json)
    requires c.Faithful()
    requires forall t :: t in ExposedTexts(c, v) ==> Untouched(c, t) || Untouched(c, Sanitize(c, t))
    ensures Redact(c, Redact(c, v)) == Redact(c, v)
  {
    forall t | t in ExposedTexts(c, v) ensures Sanitize(c, Sanitize(c, t)) == Sanitize(c, t) {
      if Untouched(c, t) {
        UntouchedSettles(c, t);
      } else {
        UntouchedSettles(c, Sanitize(c, t));
      }
    }
    SecondPassIff(c, v);
  }

  lemma HeadAndTail<T>(s: seq<T>, t: seq<T>)
    requires |s| == |t| && s != []
    ensures s == t <==> s[0] == t[0] && s[1..] == t[1..]
  {
    assert s == [s[0]] + s[1..] && t == [t[0]] + t[1..];
  }

  /** Sanitised text takes at most 1038 bytes, whatever the patterns insert. */
  lemma SanitizedLength(c: Codec, text: string)
    requires c.Faithful()
    ensures Utf8.ByteLen(Sanitize(c, text)) <= 1038
  {
    var parsed := c.parse(text);
    var body := if parsed.Some? then c.serialize(Redact(c, parsed.value)) else text;
    var masked := c.maskJwts(c.maskPairs(body));
    Utf8.CutBounds(masked, Utf8.MAX_SANITIZED_TEXT_LEN, Utf8.SUFFIX);
  }
}
