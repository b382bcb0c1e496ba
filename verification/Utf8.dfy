/** UTF-8 byte layout (section 3 of RFC 3629) and the truncation of sanitised log text. */
module Utf8 {

  type Byte = x: int | 0 <= x < 256

  function Width(c: char): (w: nat)
    ensures 1 <= w <= 4
  {
    var v := c as int;
    if v < 0x80 then 1 else if v < 0x800 then 2 else if v < 0x1_0000 then 3 else 4
  }

  function EncodeChar(c: char): (b: seq<Byte>)
    ensures |b| == Width(c)
    ensures !IsContinuation(b[0])
    ensures forall i :: 1 <= i < |b| ==> IsContinuation(b[i])
  {
    var v := c as int;
    if v < 0x80 then [v]
    else if v < 0x800 then [0xC0 + v / 0x40, 0x80 + v % 0x40]
    else if v < 0x1_0000 then [0xE0 + v / 0x1000, 0x80 + v / 0x40 % 0x40, 0x80 + v % 0x40]
    else [0xF0 + v / 0x4_0000, 0x80 + v / 0x1000 % 0x40, 0x80 + v / 0x40 % 0x40, 0x80 + v % 0x40]
  }

  function Encode(s: string): (b: seq<Byte>)
    ensures |b| == ByteLen(s)
  {
    if s == [] then [] else EncodeChar(s[0]) + Encode(s[1..])
  }

  function ByteLen(s: string): (n: nat)
    ensures |s| <= n <= 4 * |s|
  {
    if s == [] then 0 else Width(s[0]) + ByteLen(s[1..])
  }

  predicate IsContinuation(b: Byte) { 0x80 <= b < 0xC0 }

  function WidthOfFirst(b: Byte): nat {
    if b < 0x80 then 1 else if b < 0xE0 then 2 else if b < 0xF0 then 3 else 4
  }

  function DecodeChar(b: seq<Byte>): int
    requires 1 <= |b| <= 4
  {
    match |b|
    case 1 => b[0] as int
    case 2 => (b[0] as int - 0xC0) * 0x40 + (b[1] as int - 0x80)
    case 3 => (b[0] as int - 0xE0) * 0x1000 + (b[1] as int - 0x80) * 0x40 + (b[2] as int - 0x80)
    case _ =>
      (b[0] as int - 0xF0) * 0x4_0000 + (b[1] as int - 0x80) * 0x1000
      + (b[2] as int - 0x80) * 0x40 + (b[3] as int - 0x80)
  }

  lemma SixBitDigits(v: nat)
    ensures v == v / 0x40 * 0x40 + v % 0x40
    ensures v == v / 0x1000 * 0x1000 + v / 0x40 % 0x40 * 0x40 + v % 0x40
    ensures v == v / 0x4_0000 * 0x4_0000 + v / 0x1000 % 0x40 * 0x1000 + v / 0x40 % 0x40 * 0x40 + v % 0x40
  {
    assert v / 0x1000 == v / 0x40 / 0x40;
    assert v / 0x4_0000 == v / 0x40 / 0x40 / 0x40;
  }

  lemma DecodeEncodeChar(c: char)
    ensures DecodeChar(EncodeChar(c)) == c as int
    ensures WidthOfFirst(EncodeChar(c)[0]) == Width(c)
  {
    var v := c as int;
    SixBitDigits(v);
    var b := EncodeChar(c);
    if v < 0x80 {
      assert b == [v];
    } else if v < 0x800 {
      assert b == [0xC0 + v / 0x40, 0x80 + v % 0x40];
    } else if v < 0x1_0000 {
      assert b == [0xE0 + v / 0x1000, 0x80 + v / 0x40 % 0x40, 0x80 + v % 0x40];
    } else {
      assert b == [0xF0 + v / 0x4_0000, 0x80 + v / 0x1000 % 0x40, 0x80 + v / 0x40 % 0x40, 0x80 + v % 0x40];
    }
  }

  lemma SamePrefix(p: seq<Byte>, q: seq<Byte>, r: seq<Byte>, t: seq<Byte>)
    requires p + r == q + t && |p| == |q|
    ensures p == q && r == t
  {
    assert p == (p + r)[..|p|] && q == (q + t)[..|q|];
    assert r == (p + r)[|p|..] && t == (q + t)[|q|..];
  }

  lemma EncodeCharInjective(c: char, d: char, r: seq<Byte>, t: seq<Byte>)
    requires EncodeChar(c) + r == EncodeChar(d) + t
    ensures c == d && r == t
  {
    DecodeEncodeChar(c);
    DecodeEncodeChar(d);
    assert (EncodeChar(c) + r)[0] == EncodeChar(c)[0] && (EncodeChar(d) + t)[0] == EncodeChar(d)[0];
    SamePrefix(EncodeChar(c), EncodeChar(d), r, t);
    assert c as int == d as int;
  }

  /** Different strings have different bytes. */
  lemma {:induction false} EncodeInjective(s: string, t: string)
    requires Encode(s) == Encode(t)
    ensures s == t
  {
    if s == [] || t == [] {
      assert |s| <= |Encode(s)| && |t| <= |Encode(t)|;
    } else {
      EncodeCharInjective(s[0], t[0], Encode(s[1..]), Encode(t[1..]));
      EncodeInjective(s[1..], t[1..]);
      assert s == [s[0]] + s[1..] && t == [t[0]] + t[1..];
    }
  }

  // ---------------------------------------------------------------------------
  // The order of the bytes.
  // ---------------------------------------------------------------------------

  /** Byte strings in lexicographic order. */
  predicate BytesLeq(a: seq<Byte>, b: seq<Byte>) {
    a == [] || (b != [] && (a[0] < b[0] || (a[0] == b[0] && BytesLeq(a[1..], b[1..]))))
  }

  lemma {:induction false} BytesLeqBehind(p: seq<Byte>, a: seq<Byte>, b: seq<Byte>)
    ensures BytesLeq(p + a, p + b) <==> BytesLeq(a, b)
  {
    if p == [] {
      assert p + a == a && p + b == b;
    } else {
      BytesLeqBehind(p[1..], a, b);
      assert (p + a)[1..] == p[1..] + a && (p + b)[1..] == p[1..] + b;
    }
  }

  /** The first byte in which the two differ is lower in `p`. */
  ghost predicate DiffersAt(p: seq<Byte>, q: seq<Byte>, k: nat) {
    k < |p| && k < |q| && p[k] < q[k] && forall i :: 0 <= i < k ==> p[i] == q[i]
  }

  /** The first byte that differs decides. */
  lemma {:induction false} FirstDifference(p: seq<Byte>, q: seq<Byte>, x: seq<Byte>, y: seq<Byte>, k: nat)
    requires DiffersAt(p, q, k)
    ensures BytesLeq(p + x, q + y) && !BytesLeq(q + y, p + x)
  {
    if k > 0 {
      FirstDifference(p[1..], q[1..], x, y, k - 1);
      assert (p + x)[1..] == p[1..] + x && (q + y)[1..] == q[1..] + y;
    }
  }

  /** Of two numbers the lower one has the lower last digit in base 64, or all other digits make the lower number. */
  lemma LastDigit(v: nat, w: nat)
    requires v < w
    ensures if v / 0x40 == w / 0x40 then v % 0x40 < w % 0x40 else v / 0x40 < w / 0x40
  {
  }

  lemma ThreeBytes(c: char, d: char) returns (k: nat)
    requires c < d && Width(c) == Width(d) == 3
    ensures DiffersAt(EncodeChar(c), EncodeChar(d), k)
  {
    var v, w := c as int, d as int;
    LastDigit(v, w);
    k := 2;
    if v / 0x40 != w / 0x40 {
      LastDigit(v / 0x40, w / 0x40);
      assert v / 0x40 / 0x40 == v / 0x1000 && w / 0x40 / 0x40 == w / 0x1000;
      k := if v / 0x1000 == w / 0x1000 then 1 else 0;
    }
  }

  lemma Quotients(v: nat)
    ensures v / 0x1000 == v / 0x40 / 0x40 && v / 0x4_0000 == v / 0x1000 / 0x40
  {
  }

  /** A number, divided by 64 once, twice and three times: the highest digit that differs decides. */
  lemma HighestDifference(v0: nat, w0: nat, v1: nat, w1: nat, v2: nat, w2: nat, v3: nat, w3: nat)
    requires v0 < w0 && v1 == v0 / 0x40 && w1 == w0 / 0x40
    requires v2 == v1 / 0x40 && w2 == w1 / 0x40 && v3 == v2 / 0x40 && w3 == w2 / 0x40
    ensures || v3 < w3
            || (v3 == w3 && v2 % 0x40 < w2 % 0x40)
            || (v2 == w2 && v1 % 0x40 < w1 % 0x40)
            || (v1 == w1 && v0 % 0x40 < w0 % 0x40)
  {
    LastDigit(v0, w0);
    if v1 != w1 {
      LastDigit(v1, w1);
      if v2 != w2 {
        LastDigit(v2, w2);
      }
    }
  }

  lemma FourBytes(c: char, d: char) returns (k: nat)
    requires c < d && Width(c) == Width(d) == 4
    ensures DiffersAt(EncodeChar(c), EncodeChar(d), k)
  {
    var v, w := c as int, d as int;
    var v1, w1, v2, w2, v3, w3 := v / 0x40, w / 0x40, v / 0x1000, w / 0x1000, v / 0x4_0000, w / 0x4_0000;
    Quotients(v);
    Quotients(w);
    HighestDifference(v, w, v1, w1, v2, w2, v3, w3);
    k := if v3 < w3 then 0 else if v2 != w2 then 1 else if v1 != w1 then 2 else 3;
  }

  /** The bytes of two characters first differ where their digits in base 64 do. */
  lemma CharDifference(c: char, d: char) returns (k: nat)
    requires c < d
    ensures DiffersAt(EncodeChar(c), EncodeChar(d), k)
  {
    if Width(c) < Width(d) || Width(c) == 1 {
      k := 0;
    } else if Width(c) == 2 {
      LastDigit(c as int, d as int);
      k := if c as int / 0x40 == d as int / 0x40 then 1 else 0;
    } else if Width(c) == 3 {
      k := ThreeBytes(c, d);
    } else {
      k := FourBytes(c, d);
    }
  }

  lemma CharsOrdered(c: char, d: char, x: seq<Byte>, y: seq<Byte>)
    requires c < d
    ensures BytesLeq(EncodeChar(c) + x, EncodeChar(d) + y) && !BytesLeq(EncodeChar(d) + y, EncodeChar(c) + x)
  {
    var k := CharDifference(c, d);
    FirstDifference(EncodeChar(c), EncodeChar(d), x, y, k);
  }

  lemma {:induction false} EncodeSplit(s: string, k: nat)
    requires k <= |s|
    ensures Encode(s) == Encode(s[..k]) + Encode(s[k..])
    ensures ByteLen(s) == ByteLen(s[..k]) + ByteLen(s[k..])
  {
    if k == 0 {
      assert s[k..] == s;
    } else {
      EncodeSplit(s[1..], k - 1);
      assert s[..k][1..] == s[1..][..k - 1];
      assert s[k..] == s[1..][k - 1..];
      Associative(EncodeChar(s[0]), Encode(s[1..][..k - 1]), Encode(s[k..]));
    }
  }

  lemma Associative(a: seq<Byte>, b: seq<Byte>, c: seq<Byte>)
    ensures (a + b) + c == a + (b + c)
  {
  }

  // ---------------------------------------------------------------------------
  // Truncation.
  // ---------------------------------------------------------------------------

  const MAX_SANITIZED_TEXT_LEN := 1024
  const SUFFIX := "...[truncated]"

  /** Whether byte `i` is where a code point starts, or the end. */
  predicate IsCharBoundary(b: seq<Byte>, i: nat) {
    i == 0 || i == |b| || (i < |b| && !IsContinuation(b[i]))
  }

  /** How many whole code points of `s` fit in `limit` bytes. */
  function Fitting(s: string, limit: nat): (k: nat)
    ensures k <= |s|
  {
    if s == [] || limit < Width(s[0]) then 0 else 1 + Fitting(s[1..], limit - Width(s[0]))
  }

  function Cut(s: string, limit: nat, suffix: string): (r: string) {
    if ByteLen(s) <= limit then s else s[..Fitting(s, limit)] + suffix
  }

  function Truncate(s: string): (r: string) {
    Cut(s, MAX_SANITIZED_TEXT_LEN, SUFFIX)
  }

  /** `Fitting` is the greatest number of code points within the limit; it leaves at most 3 bytes unused. */
  lemma {:induction false} FittingIsGreatest(s: string, limit: nat)
    ensures var k := Fitting(s, limit);
            && ByteLen(s[..k]) <= limit
            && (forall j :: k < j <= |s| ==> limit < ByteLen(s[..j]))
            && (k < |s| ==> limit <= ByteLen(s[..k]) + 3)
  {
    var k := Fitting(s, limit);
    if s == [] {
    } else if limit < Width(s[0]) {
      forall j | 0 < j <= |s| ensures limit < ByteLen(s[..j]) {
        assert s[..j][0] == s[0];
      }
    } else {
      FittingIsGreatest(s[1..], limit - Width(s[0]));
      forall j | 0 < j <= |s| ensures ByteLen(s[..j]) == Width(s[0]) + ByteLen(s[1..][..j - 1]) {
        assert s[..j][1..] == s[1..][..j - 1];
      }
    }
  }

  lemma FirstCharBytes(s: string, i: nat)
    requires s != [] && i <= ByteLen(s)
    ensures i < Width(s[0]) ==> (IsCharBoundary(Encode(s), i) <==> i == 0)
    ensures Width(s[0]) <= i ==> (IsCharBoundary(Encode(s), i) <==> IsCharBoundary(Encode(s[1..]), i - Width(s[0])))
  {
    var head, tail := EncodeChar(s[0]), Encode(s[1..]);
    if 0 < i < |head| {
      assert (head + tail)[i] == head[i];
    } else if |head| < i < |head| + |tail| {
      assert (head + tail)[i] == tail[i - |head|];
    } else if |head| == i && s[1..] != [] {
      assert (head + tail)[i] == tail[0] == EncodeChar(s[1])[0];
    }
  }

  lemma PrefixLen(s: string, k: nat)
    requires 1 <= k <= |s|
    ensures ByteLen(s[..k]) == Width(s[0]) + ByteLen(s[1..][..k - 1])
  {
    assert s[..k][1..] == s[1..][..k - 1];
  }

  ghost predicate IsPrefixEnd(s: string, i: nat) {
    exists k :: 0 <= k <= |s| && i == ByteLen(s[..k])
  }

  lemma ShiftPrefixEnd(s: string, i: nat)
    requires s != [] && 0 < i
    ensures i < Width(s[0]) ==> !IsPrefixEnd(s, i)
    ensures Width(s[0]) <= i ==> (IsPrefixEnd(s, i) <==> IsPrefixEnd(s[1..], i - Width(s[0])))
  {
    var w := Width(s[0]);
    if IsPrefixEnd(s, i) {
      var k :| 0 <= k <= |s| && i == ByteLen(s[..k]);
      PrefixLen(s, k);
      assert i - w == ByteLen(s[1..][..k - 1]);
    }
    if w <= i && IsPrefixEnd(s[1..], i - w) {
      var k :| 0 <= k <= |s[1..]| && i - w == ByteLen(s[1..][..k]);
      PrefixLen(s, k + 1);
      assert i == ByteLen(s[..k + 1]);
    }
  }

  /** The boundaries of encoded text are exactly the ends of its prefixes of whole code points. */
  lemma {:induction false} BoundaryIsPrefixEnd(s: string, i: nat)
    requires i <= ByteLen(s)
    ensures IsCharBoundary(Encode(s), i) <==> IsPrefixEnd(s, i)
  {
    if i == 0 {
      assert ByteLen(s[..0]) == 0;
    } else {
      FirstCharBytes(s, i);
      ShiftPrefixEnd(s, i);
      if Width(s[0]) <= i {
        BoundaryIsPrefixEnd(s[1..], i - Width(s[0]));
      }
    }
  }

  lemma {:induction false} AsciiByteLen(s: string)
    requires forall i :: 0 <= i < |s| ==> s[i] as int < 0x80
    ensures ByteLen(s) == |s|
  {
    if s != [] {
      AsciiByteLen(s[1..]);
    }
  }

  lemma AppendedBytes(p: string, q: string)
    ensures Encode(p + q) == Encode(p) + Encode(q)
    ensures ByteLen(p + q) == ByteLen(p) + ByteLen(q)
  {
    EncodeSplit(p + q, |p|);
    assert (p + q)[..|p|] == p && (p + q)[|p|..] == q;
  }

  method PushStr(text: seq<Byte>, ghost s: string, suffix: string) returns (r: seq<Byte>)
    requires text == Encode(s)
    ensures r == Encode(s + suffix) && |r| == |text| + ByteLen(suffix)
  {
    AppendedBytes(s, suffix);
    r := text + Encode(suffix);
  }

  /** The byte loop: back up from the limit to a boundary, cut there and append the suffix. */
  method CutBytes(input: seq<Byte>, limit: nat, suffix: string, ghost s: string) returns (text: seq<Byte>)
    requires input == Encode(s)
    ensures text == Encode(Cut(s, limit, suffix))
  {
    text := input;
    if |text| <= limit {
      return;
    }
    var end := LastBoundary(text, limit, s);
    ghost var k := Fitting(s, limit);
    EncodeSplit(s, k);
    text := text[..end];
    text := PushStr(text, s[..k], suffix);
  }

  /** Back up from the limit to a character boundary. */
  method LastBoundary(text: seq<Byte>, limit: nat, ghost s: string) returns (end: nat)
    requires text == Encode(s) && limit < |text|
    ensures end == ByteLen(s[..Fitting(s, limit)]) && end <= limit
  {
    ghost var cut := ByteLen(s[..Fitting(s, limit)]);
    FittingIsGreatest(s, limit);
    assert s[..|s|] == s;
    BoundaryIsPrefixEnd(s, cut);
    end := limit;
    while !IsCharBoundary(text, end)
      invariant cut <= end <= limit <= cut + 3
      decreases end
    {
      end := end - 1;
    }
    BoundaryIsPrefixEnd(s, end);
    PrefixEndWithin(s, limit, end);
  }

  /** The only prefix end between the greatest fitting prefix and the limit is that prefix's own. */
  lemma PrefixEndWithin(s: string, limit: nat, end: nat)
    requires IsPrefixEnd(s, end) && ByteLen(s[..Fitting(s, limit)]) <= end <= limit
    ensures end == ByteLen(s[..Fitting(s, limit)])
  {
    var k := Fitting(s, limit);
    FittingIsGreatest(s, limit);
    var j :| 0 <= j <= |s| && end == ByteLen(s[..j]);
    if j < k {
      assert s[..k][..j] == s[..j];
      EncodeSplit(s[..k], j);
    }
  }

  /** Text within the limit is unchanged; other text is a prefix and the suffix, within the limit plus the suffix. */
  lemma CutBounds(s: string, limit: nat, suffix: string)
    requires forall i :: 0 <= i < |suffix| ==> suffix[i] as int < 0x80
    ensures ByteLen(s) <= limit ==> Cut(s, limit, suffix) == s
    ensures limit < ByteLen(s) ==> Cut(s, limit, suffix) == s[..Fitting(s, limit)] + suffix
    ensures ByteLen(Cut(s, limit, suffix)) <= limit + |suffix|
  {
    if limit < ByteLen(s) {
      var k := Fitting(s, limit);
      FittingIsGreatest(s, limit);
      AsciiByteLen(suffix);
      AppendedBytes(s[..k], suffix);
    }
  }

  /**
   * Text of at most 1024 bytes is left alone. Of longer text the first 1021 to 1024 bytes are kept, as many as end
   * on a character, and the marker follows.
   */
  lemma TruncateKeeps(s: string) returns (k: nat)
    ensures ByteLen(s) <= 1024 ==> Truncate(s) == s
    ensures k <= |s|
    ensures ByteLen(s) > 1024 ==> Truncate(s) == s[..k] + "...[truncated]" && 1021 <= ByteLen(s[..k]) <= 1024
  {
    k := Fitting(s, MAX_SANITIZED_TEXT_LEN);
    FittingIsGreatest(s, MAX_SANITIZED_TEXT_LEN);
    assert s[..|s|] == s;
  }

  method TruncateSanitizedText(input: seq<Byte>, ghost s: string) returns (text: seq<Byte>)
    requires input == Encode(s)
    ensures text == Encode(Truncate(s))
    ensures |text| <= 1038
    ensures |input| <= 1024 ==> text == input
    ensures |input| > 1024 ==> |text| >= 1035 && text[..|text| - 14] == input[..|text| - 14]
  {
    text := CutBytes(input, MAX_SANITIZED_TEXT_LEN, SUFFIX, s);
    CutBounds(s, MAX_SANITIZED_TEXT_LEN, SUFFIX);
    ghost var k := TruncateKeeps(s);
    if |input| > 1024 {
      TruncatedBytes(s, k, SUFFIX);
    }
  }

  lemma TruncatedBytes(s: string, k: nat, suffix: string)
    requires k <= |s| && forall i :: 0 <= i < |suffix| ==> suffix[i] as int < 0x80
    ensures var text, n := Encode(s[..k] + suffix), ByteLen(s[..k]);
            |text| == n + |suffix| && n <= ByteLen(s) && text[..n] == Encode(s)[..n]
  {
    AsciiByteLen(suffix);
    AppendedBytes(s[..k], suffix);
    EncodeSplit(s, k);
  }
}
