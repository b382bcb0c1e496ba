/** The bytes hashed for a NEP-413 signature, and the versioned nonce inside them. */
module Nep413 {
  import opened Wrappers
  import Utf8

  type Byte = Utf8.Byte

  /** The Borsh payload; strings are carried as their UTF-8 bytes. */
  datatype Payload = Payload(message: seq<Byte>, nonce: seq<Byte>, recipient: seq<Byte>,
                             callbackUrl: Option<seq<Byte>>)
  {
    /** What the types of the source guarantee, and the 32-bit length prefix of Borsh. */
    predicate Fits() {
      |nonce| == 32 && FitsU32(|message|) && FitsU32(|recipient|)
      && (callbackUrl.Some? ==> FitsU32(|callbackUrl.value|))
    }
  }

  const TAG := 2147484061    // 2^31 + 413

  predicate FitsU32(n: int) { 0 <= n < 0x1_0000_0000 }

  // ---------------------------------------------------------------------------
  // Little-endian integers of any width.
  // ---------------------------------------------------------------------------

  function Pow256(n: nat): (p: nat)
    ensures 1 <= p
  {
    if n == 0 then 1 else 256 * Pow256(n - 1)
  }

  function LittleEndian(v: nat, width: nat): (b: seq<Byte>)
    ensures |b| == width
  {
    if width == 0 then [] else [v % 256] + LittleEndian(v / 256, width - 1)
  }

  function FromLittleEndian(b: seq<Byte>): nat {
    if b == [] then 0 else b[0] + 256 * FromLittleEndian(b[1..])
  }

  /** Writing `width` bytes keeps the value modulo 256^width. */
  lemma {:induction false} LittleEndianValue(v: nat, width: nat)
    ensures FromLittleEndian(LittleEndian(v, width)) == v % Pow256(width)
  {
    if width > 0 {
      LittleEndianValue(v / 256, width - 1);
      SplitMod(v, Pow256(width - 1));
    }
  }

  lemma FittingValue(v: nat, width: nat)
    requires v < Pow256(width)
    ensures FromLittleEndian(LittleEndian(v, width)) == v
  {
    LittleEndianValue(v, width);
  }

  lemma SplitMod(v: nat, p: nat)
    requires 0 < p
    ensures v % 256 + 256 * (v / 256 % p) == v % (256 * p)
  {
    var q, r := v / 256 / p, v % 256 + 256 * (v / 256 % p);
    assert v == 256 * (v / 256) + v % 256;
    assert v / 256 == p * q + v / 256 % p;
    assert v == 256 * p * q + r;
    assert 0 <= r < 256 * p;
    ModUnique(v, 256 * p, q, r);
  }

  lemma ModUnique(v: int, m: int, q: int, r: int)
    requires 0 < m && v == m * q + r && 0 <= r < m
    ensures v % m == r
  {
    var k := v / m - q;
    assert v == m * (v / m) + v % m;
    assert m * k == r - v % m;
    assert k >= 1 ==> m * k >= m;
    assert k <= -1 ==> m * k <= -m;
  }

  // ---------------------------------------------------------------------------
  // Borsh.
  // ---------------------------------------------------------------------------

  function EncodeBytes(s: seq<Byte>): seq<Byte> {
    LittleEndian(|s|, 4) + s
  }

  function EncodeOption(o: Option<seq<Byte>>): seq<Byte> {
    match o
    case None => [0]
    case Some(s) => [1] + EncodeBytes(s)
  }

  function Serialize(p: Payload): seq<Byte> {
    EncodeBytes(p.message) + p.nonce + EncodeBytes(p.recipient) + EncodeOption(p.callbackUrl)
  }

  /** What is hashed and signed. */
  function PreHash(p: Payload): seq<Byte> {
    LittleEndian(TAG, 4) + Serialize(p)
  }

  /** A reader takes a value off the front of the bytes and says what is left. */
  type Read<+T> = Option<(T, seq<Byte>)>

  function DecodeBytes(b: seq<Byte>): Read<seq<Byte>> {
    if |b| < 4 then None
    else
      var n := FromLittleEndian(b[..4]);
      if |b| - 4 < n then None else Some((b[4..4 + n], b[4 + n..]))
  }

  function DecodeFixed(b: seq<Byte>, n: nat): Read<seq<Byte>> {
    if |b| < n then None else Some((b[..n], b[n..]))
  }

  function DecodeOption(b: seq<Byte>): Read<Option<seq<Byte>>> {
    if b == [] then None
    else if b[0] == 0 then Some((None, b[1..]))
    else if b[0] == 1 then
      match DecodeBytes(b[1..])
      case Some((s, rest)) => Some((Some(s), rest))
      case None => None
    else None
  }

  function Deserialize(b: seq<Byte>): Read<Payload> {
    match DecodeBytes(b)
    case None => None
    case Some((message, b1)) =>
      match DecodeFixed(b1, 32)
      case None => None
      case Some((nonce, b2)) =>
        match DecodeBytes(b2)
        case None => None
        case Some((recipient, b3)) =>
          match DecodeOption(b3)
          case None => None
          case Some((callbackUrl, b4)) => Some((Payload(message, nonce, recipient, callbackUrl), b4))
  }

  function DecodePreHash(b: seq<Byte>): Read<Payload> {
    if |b| < 4 || b[..4] != LittleEndian(TAG, 4) then None else Deserialize(b[4..])
  }

  lemma Cut(p: seq<Byte>, s: seq<Byte>, rest: seq<Byte>)
    ensures var b := p + s + rest;
            b[..|p|] == p && b[|p|..|p| + |s|] == s && b[|p| + |s|..] == rest
  {
  }

  lemma DecodeEncodedBytes(s: seq<Byte>, rest: seq<Byte>)
    requires FitsU32(|s|)
    ensures DecodeBytes(EncodeBytes(s) + rest) == Some((s, rest))
  {
    assert Pow256(4) == 0x1_0000_0000;
    FittingValue(|s|, 4);
    Cut(LittleEndian(|s|, 4), s, rest);
  }

  lemma DecodeEncodedOption(o: Option<seq<Byte>>, rest: seq<Byte>)
    requires o.Some? ==> FitsU32(|o.value|)
    ensures DecodeOption(EncodeOption(o) + rest) == Some((o, rest))
  {
    if o.Some? {
      DecodeEncodedBytes(o.value, rest);
      Tagged(1, EncodeBytes(o.value), rest);
    } else {
      Tagged(0, [], rest);
      assert [] + rest == rest;
    }
  }

  lemma Tagged(tag: Byte, bytes: seq<Byte>, rest: seq<Byte>)
    ensures var b := ([tag] + bytes) + rest; b[0] == tag && b[1..] == bytes + rest
    ensures [tag] + rest == ([tag] + []) + rest
  {
  }

  /** Reading back consumes exactly the bytes written and returns the payload. */
  lemma DeserializeSerialized(p: Payload, rest: seq<Byte>)
    requires p.Fits()
    ensures Deserialize(Serialize(p) + rest) == Some((p, rest))
  {
    var b3 := EncodeOption(p.callbackUrl) + rest;
    var b2 := EncodeBytes(p.recipient) + b3;
    var b1 := p.nonce + b2;
    assert Serialize(p) + rest == EncodeBytes(p.message) + b1;
    DecodeEncodedBytes(p.message, b1);
    assert b1[..32] == p.nonce && b1[32..] == b2;
    DecodeEncodedBytes(p.recipient, b3);
    DecodeEncodedOption(p.callbackUrl, rest);
  }

  lemma DecodePreHashed(p: Payload, rest: seq<Byte>)
    requires p.Fits()
    ensures DecodePreHash(PreHash(p) + rest) == Some((p, rest))
  {
    var b := PreHash(p) + rest;
    assert b[..4] == LittleEndian(TAG, 4) && b[4..] == Serialize(p) + rest;
    DeserializeSerialized(p, rest);
  }

  /** Different payloads are hashed from different bytes; not even one's bytes begin with the other's. */
  lemma PreHashInjective(p: Payload, q: Payload)
    requires p.Fits() && q.Fits() && PreHash(p) <= PreHash(q)
    ensures p == q
  {
    var rest := PreHash(q)[|PreHash(p)|..];
    assert PreHash(q) == PreHash(p) + rest == PreHash(q) + [];
    DecodePreHashed(p, rest);
    DecodePreHashed(q, []);
  }

  lemma {:induction false} LittleEndianOfValue(b: seq<Byte>)
    ensures LittleEndian(FromLittleEndian(b), |b|) == b
    ensures FromLittleEndian(b) < Pow256(|b|)
  {
    if b != [] {
      LittleEndianOfValue(b[1..]);
    }
  }

  lemma EncodeDecodedBytes(b: seq<Byte>)
    requires DecodeBytes(b).Some?
    ensures var (s, rest) := DecodeBytes(b).value; FitsU32(|s|) && b == EncodeBytes(s) + rest
  {
    var n := FromLittleEndian(b[..4]);
    LittleEndianOfValue(b[..4]);
    assert Pow256(4) == 0x1_0000_0000;
    assert b == b[..4] + b[4..4 + n] + b[4 + n..];
  }

  lemma EncodeDecodedOption(b: seq<Byte>)
    requires DecodeOption(b).Some?
    ensures var (o, rest) := DecodeOption(b).value;
            (o.Some? ==> FitsU32(|o.value|)) && b == EncodeOption(o) + rest
  {
    if b[0] == 1 {
      EncodeDecodedBytes(b[1..]);
    }
  }

  /** Whatever the reader accepts is exactly what the writer writes: there is one encoding per payload. */
  lemma SerializeDeserialized(b: seq<Byte>)
    requires Deserialize(b).Some?
    ensures var (p, rest) := Deserialize(b).value; p.Fits() && b == Serialize(p) + rest
  {
    EncodeDecodedBytes(b);
    var (message, b1) := DecodeBytes(b).value;
    var b2 := b1[32..];
    EncodeDecodedBytes(b2);
    var (recipient, b3) := DecodeBytes(b2).value;
    EncodeDecodedOption(b3);
    var (callbackUrl, rest) := DecodeOption(b3).value;
    FourParts(EncodeBytes(message), b1, 32, EncodeBytes(recipient), EncodeOption(callbackUrl), rest);
  }

  lemma FourParts(m: seq<Byte>, b1: seq<Byte>, n: nat, r: seq<Byte>, o: seq<Byte>, rest: seq<Byte>)
    requires n <= |b1| && b1[n..] == r + (o + rest)
    ensures m + b1 == m + b1[..n] + r + o + rest
  {
    assert b1 == b1[..n] + b1[n..];
  }

  // ---------------------------------------------------------------------------
  // The two signers: both hash `PreHash` of the payload without a callback URL.
  // ---------------------------------------------------------------------------

  function Signed(message: string, nonce: seq<Byte>, recipient: string): Payload {
    Payload(Utf8.Encode(message), nonce, Utf8.Encode(recipient), None)
  }

  /** The script's signer writes the tag into a buffer and concatenates. `None` is the library's refusal. */
  method DataToHash(message: string, nonce: seq<Byte>, recipient: string) returns (data: Option<seq<Byte>>)
    ensures data == if Signed(message, nonce, recipient).Fits()
                    then Some(PreHash(Signed(message, nonce, recipient))) else None
  {
    var payload := Signed(message, nonce, recipient);
    if !payload.Fits() {
      return None;
    }
    var tagBuffer := new Byte[4](_ => 0);
    WriteLittleEndian(tagBuffer, 0, TAG, 4);
    assert LittleEndian(TAG, 4) == tagBuffer[..];
    data := Some(tagBuffer[..] + Serialize(payload));
  }

  /** Little-endian bytes of `v` written from position `at`. */
  method WriteLittleEndian(b: array<Byte>, at: nat, v: nat, width: nat)
    requires at + width <= b.Length
    modifies b
    ensures b[..] == old(b[..at]) + LittleEndian(v, width) + old(b[at + width..])
  {
    CopyFromSlice(b, at, LittleEndian(v, width));
  }

  /** `b[at..at + |s|].copy_from_slice(s)`. */
  method CopyFromSlice(b: array<Byte>, at: nat, s: seq<Byte>)
    requires at + |s| <= b.Length
    modifies b
    ensures b[..] == old(b[..at]) + s + old(b[at + |s|..])
  {
    forall i | at <= i < at + |s| {
      b[i] := s[i - at];
    }
  }

  /** The example's signer appends field after field to a byte vector. */
  method BytesToSign(message: string, nonce: seq<Byte>, recipient: string) returns (bytes: Option<seq<Byte>>)
    requires |nonce| == 32
    ensures bytes == if Signed(message, nonce, recipient).Fits()
                     then Some(PreHash(Signed(message, nonce, recipient))) else None
  {
    var payload := Signed(message, nonce, recipient);
    var vec := LittleEndian(TAG, 4);
    if !FitsU32(|payload.message|) {
      return None;
    }
    vec := vec + LittleEndian(|payload.message|, 4);
    vec := vec + payload.message;
    vec := vec + payload.nonce;
    if !FitsU32(|payload.recipient|) {
      return None;
    }
    vec := vec + LittleEndian(|payload.recipient|, 4);
    vec := vec + payload.recipient;
    vec := vec + [0];
    assert vec == PreHash(payload);
    bytes := Some(vec);
  }

  /** Two signed requests hash the same bytes only if message, nonce and recipient are the same. */
  lemma SignedInjective(m: string, n: seq<Byte>, r: string, m': string, n': seq<Byte>, r': string)
    requires Signed(m, n, r).Fits() && Signed(m', n', r').Fits()
    ensures PreHash(Signed(m, n, r)) == PreHash(Signed(m', n', r')) <==> m == m' && n == n' && r == r'
  {
    if PreHash(Signed(m, n, r)) == PreHash(Signed(m', n', r')) {
      PreHashInjective(Signed(m, n, r), Signed(m', n', r'));
      Utf8.EncodeInjective(m, m');
      Utf8.EncodeInjective(r, r');
    }
  }

  /** An instance: the bytes for the message `h` to the recipient `a`, one by one. */
  lemma SmallestBytes(nonce: seq<Byte>)
    ensures PreHash(Signed("h", nonce, "a"))
            == [157, 1, 0, 128] + [1, 0, 0, 0, 104] + nonce + [1, 0, 0, 0, 97] + [0]
  {
    OneByteString("h", 104);
    OneByteString("a", 97);
    TagBytes();
  }

  lemma OneByteString(s: string, b: Byte)
    requires |s| == 1 && s[0] as int == b < 0x80
    ensures EncodeBytes(Utf8.Encode(s)) == [1, 0, 0, 0, b]
  {
    assert s[1..] == [];
    assert Utf8.Encode(s) == [b];
    LittleEndianBytes(1);
  }

  /** Four bytes, the lowest first. */
  lemma LittleEndianBytes(v: nat)
    ensures LittleEndian(v, 4) == [v % 256, v / 256 % 256, v / 256 / 256 % 256, v / 256 / 256 / 256 % 256]
  {
    var w := v / 256 / 256;
    assert LittleEndian(w, 2) == [w % 256] + LittleEndian(w / 256, 1);
    assert LittleEndian(w / 256, 1) == [w / 256 % 256];
  }

  lemma TagBytes()
    ensures LittleEndian(TAG, 4) == [157, 1, 0, 128]
  {
    LittleEndianBytes(TAG);
  }

  // ---------------------------------------------------------------------------
  // The versioned nonce.
  // ---------------------------------------------------------------------------

  const MAGIC: seq<Byte> := [0x56, 0x28, 0xF6, 0xC6]
  const U64 := 0x1_0000_0000_0000_0000

  /** Milliseconds to nanoseconds in 64 unsigned bits, with the casts and the product wrapping around. */
  function Nanoseconds(millis: int): (n: nat) {
    (millis % U64) * 1_000_000 % U64
  }

  /** The fields read back from 32 nonce bytes. */
  datatype Nonce = Nonce(magic: seq<Byte>, version: Byte, salt: seq<Byte>, deadline: nat, issued: nat, tail: seq<Byte>)

  function ReadNonce(b: seq<Byte>): Nonce
    requires |b| == 32
  {
    Nonce(b[0..4], b[4], b[5..9], FromLittleEndian(b[9..17]), FromLittleEndian(b[17..25]), b[25..32])
  }

  function WriteNonce(n: Nonce): seq<Byte> {
    n.magic + [n.version] + n.salt + LittleEndian(n.deadline, 8) + LittleEndian(n.issued, 8) + n.tail
  }

  predicate IsNonce(n: Nonce) {
    |n.magic| == 4 && |n.salt| == 4 && |n.tail| == 7 && n.deadline < U64 && n.issued < U64
  }

  lemma Pow256Eight()
    ensures Pow256(8) == U64
  {
    assert Pow256(4) == 0x1_0000_0000;
    assert Pow256(8) == 256 * (256 * (256 * (256 * Pow256(4))));
  }

  lemma NonceParts(m: seq<Byte>, v: Byte, s: seq<Byte>, d: seq<Byte>, i: seq<Byte>, t: seq<Byte>)
    requires |m| == 4 && |s| == 4 && |d| == 8 && |i| == 8 && |t| == 7
    ensures var w := m + [v] + s + d + i + t;
            |w| == 32 && w[0..4] == m && w[4] == v && w[5..9] == s && w[9..17] == d && w[17..25] == i && w[25..32] == t
  {
  }

  /** The layout covers all 32 bytes without overlap: writing and reading back returns every field. */
  lemma ReadWrittenNonce(n: Nonce)
    requires IsNonce(n)
    ensures |WriteNonce(n)| == 32 && ReadNonce(WriteNonce(n)) == n
  {
    Pow256Eight();
    var d, i := LittleEndian(n.deadline, 8), LittleEndian(n.issued, 8);
    FittingValue(n.deadline, 8);
    FittingValue(n.issued, 8);
    NonceParts(n.magic, n.version, n.salt, d, i, n.tail);
  }

  /** No byte of a nonce lies outside the fields: writing what was read returns every byte. */
  lemma WriteReadNonce(b: seq<Byte>)
    requires |b| == 32
    ensures IsNonce(ReadNonce(b)) && WriteNonce(ReadNonce(b)) == b
  {
    Pow256Eight();
    LittleEndianOfValue(b[9..17]);
    LittleEndianOfValue(b[17..25]);
    assert b == b[0..4] + [b[4]] + b[5..9] + b[9..17] + b[17..25] + b[25..32];
  }

  method BuildNonce(salt: seq<Byte>, deadlineMillis: int, nowMillis: int, randomTail: seq<Byte>)
    returns (nonce: array<Byte>)
    requires |salt| == 4 && |randomTail| == 7
    ensures fresh(nonce) && nonce.Length == 32
    ensures ReadNonce(nonce[..])
            == Nonce([0x56, 0x28, 0xF6, 0xC6], 0, salt, Nanoseconds(deadlineMillis), Nanoseconds(nowMillis), randomTail)
  {
    var deadlineNs := Nanoseconds(deadlineMillis);
    var nowNs := Nanoseconds(nowMillis);
    nonce := new Byte[32](_ => 0);
    CopyFromSlice(nonce, 0, MAGIC);
    nonce[4] := 0;
    CopyFromSlice(nonce, 5, salt);
    CopyFromSlice(nonce, 9, LittleEndian(deadlineNs, 8));
    CopyFromSlice(nonce, 17, LittleEndian(nowNs, 8));
    CopyFromSlice(nonce, 25, randomTail);
    ghost var n := Nonce(MAGIC, 0, salt, deadlineNs, nowNs, randomTail);
    ReadWrittenNonce(n);
    assert nonce[..] == WriteNonce(n);
  }

  /**
   * The exact time is recovered exactly when its nanoseconds fit 64 unsigned bits; otherwise whole multiples of 2^64
   * are lost.
   */
  lemma NanosecondsExactIff(millis: int)
    requires -0x8000_0000_0000_0000 <= millis < 0x8000_0000_0000_0000
    ensures Nanoseconds(millis) == millis * 1_000_000 <==> 0 <= millis * 1_000_000 < U64
    ensures exists k: int :: millis * 1_000_000 == Nanoseconds(millis) + k * U64
  {
    var k := millis / U64 * 1_000_000 + millis % U64 * 1_000_000 / U64;
    assert millis * 1_000_000 == Nanoseconds(millis) + k * U64;
  }
}
