/**
 The byte encodings that the sources hash and store: little-endian 64-bit words, length-prefixed
 text, two's complement times, and lower-case hexadecimal digests. SHA-256 is any function from byte
 strings to 32 bytes.
 */
module Encoding {
  import opened Bits

  type Bytes = seq<byte>

  // ---- Little-endian words ----

  function Little(v: nat, n: nat): (bytes: Bytes)
    ensures |bytes| == n
  {
    if n == 0 then [] else [v % 256] + Little(v / 256, n - 1)
  }

  function Value(bytes: Bytes): nat {
    if bytes == [] then 0 else bytes[0] + 256 * Value(bytes[1..])
  }

  function Power256(n: nat): nat {
    if n == 0 then 1 else 256 * Power256(n - 1)
  }

  lemma {:induction false} LittleValue(v: nat, n: nat)
    requires v < Power256(n)
    ensures Value(Little(v, n)) == v
  {
    if n == 0 {
    } else {
      LittleValue(v / 256, n - 1);
      assert Little(v, n)[1..] == Little(v / 256, n - 1);
    }
  }

  lemma {:induction false} ValueLittle(bytes: Bytes)
    ensures Value(bytes) < Power256(|bytes|)
    ensures Little(Value(bytes), |bytes|) == bytes
  {
    if bytes == [] {
    } else {
      ValueLittle(bytes[1..]);
      var rest := Value(bytes[1..]);
      Split256(bytes[0], rest);
      assert bytes == [bytes[0]] + bytes[1..];
    }
  }

  lemma Split256(low: byte, rest: nat)
    ensures (low + 256 * rest) % 256 == low && (low + 256 * rest) / 256 == rest
  {
  }

  function Word(v: nat): (bytes: Bytes)
    ensures |bytes| == 8
  {
    Little(v, 8)
  }

  /** Eight bytes and a 64-bit value determine each other. */
  lemma WordRoundTrip(v: nat, bytes: Bytes)
    requires v <= U64_MAX && |bytes| == 8
    ensures Value(Word(v)) == v && Word(Value(bytes)) == bytes && Value(bytes) <= U64_MAX
    ensures Value(bytes) == v <==> bytes == Word(v)
  {
    hide Little, Value;
    PowerEight();
    LittleValue(v, 8);
    ValueLittle(bytes);
  }

  lemma PowerEight()
    ensures Power256(8) == U64_MAX + 1
  {
    assert Power256(4) == 256 * 256 * 256 * 256;
    assert Power256(6) == 256 * 256 * Power256(4);
  }

  // ---- Signed times ----

  const TWO_63: int := 0x8000_0000_0000_0000

  type i64 = x: int | -TWO_63 <= x < TWO_63

  function Unsigned(x: i64): u64 {
    if x < 0 then x + 2 * TWO_63 else x
  }

  function Signed(u: u64): i64 {
    if u >= TWO_63 then u - 2 * TWO_63 else u
  }

  lemma SignedRoundTrip(x: i64, u: u64)
    ensures Signed(Unsigned(x)) == x && Unsigned(Signed(u)) == u
  {
  }

  // ---- Digests ----

  type Digest = d: Bytes | |d| == 32 witness seq(32, i => 0)

  function HexDigit(x: nat): byte
    requires x < 16
  {
    if x < 10 then 48 + x else 87 + x
  }

  predicate IsHexDigit(b: byte) {
    48 <= b <= 57 || 97 <= b <= 102 || 65 <= b <= 70
  }

  function HexOf(bytes: Bytes): (hex: Bytes)
    ensures |hex| == 2 * |bytes| && forall i | 0 <= i < |hex| :: IsHexDigit(hex[i])
  {
    if bytes == [] then [] else [HexDigit(bytes[0] / 16), HexDigit(bytes[0] % 16)] + HexOf(bytes[1..])
  }

  lemma HexByte(a: byte, b: byte)
    requires HexDigit(a / 16) == HexDigit(b / 16) && HexDigit(a % 16) == HexDigit(b % 16)
    ensures a == b
  {
  }

  /** Hexadecimal loses nothing. */
  lemma {:induction false} HexInjective(a: Bytes, b: Bytes)
    requires HexOf(a) == HexOf(b)
    ensures a == b
  {
    assert |HexOf(a)| == 2 * |a| && |HexOf(b)| == 2 * |b|;
    if a == [] {
    } else {
      var x, y := HexOf(a), HexOf(b);
      assert x[0] == y[0] && x[1] == y[1];
      HexByte(a[0], b[0]);
      assert x[2..] == HexOf(a[1..]) && y[2..] == HexOf(b[1..]);
      HexInjective(a[1..], b[1..]);
      assert a == [a[0]] + a[1..] && b == [b[0]] + b[1..];
    }
  }

  predicate IsHex(text: Bytes) {
    |text| == 64 && forall i | 0 <= i < 64 :: IsHexDigit(text[i])
  }

  // ---- Length-prefixed text ----

  function Text(text: Bytes): Bytes {
    Word(|text|) + text
  }

  lemma WordPrefix(v: nat, w: nat, x: Bytes, y: Bytes)
    requires v <= U64_MAX && w <= U64_MAX && Word(v) + x == Word(w) + y
    ensures v == w && x == y
  {
    hide Little;
    assert (Word(v) + x)[..8] == Word(v) && (Word(w) + y)[..8] == Word(w);
    assert (Word(v) + x)[8..] == x && (Word(w) + y)[8..] == y;
    WordRoundTrip(v, Word(w));
    WordRoundTrip(w, Word(w));
  }

  /** A length-prefixed text can be split off an encoding in only one way. */
  lemma TextPrefix(s: Bytes, t: Bytes, x: Bytes, y: Bytes)
    requires |s| <= U64_MAX && |t| <= U64_MAX && Text(s) + x == Text(t) + y
    ensures s == t && x == y
  {
    hide Word;
    assert Word(|s|) + (s + x) == Text(s) + x && Word(|t|) + (t + y) == Text(t) + y;
    WordPrefix(|s|, |t|, s + x, t + y);
    assert (s + x)[..|s|] == s && (t + y)[..|s|] == t;
    assert (s + x)[|s|..] == x && (t + y)[|s|..] == y;
  }
}
