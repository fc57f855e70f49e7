/**
 The verified-reopen receipt of src/artifact/reopen.c: a fixed 200-byte record that binds an artifact
 identity to one filesystem snapshot. The decoder accepts exactly the encoder's output.
 */
module Reopen {
  import opened Bits
  import opened Encoding

  datatype Snapshot = Snapshot(device: u64, inode: u64, size: u64, mtimeSeconds: i64, mtimeNanoseconds: i64,
                               ctimeSeconds: i64, ctimeNanoseconds: i64)

  const SCHEMA: nat := 1
  const RECEIPT_BYTES: nat := 200

  function Ascii(s: string): (bytes: Bytes)
    ensures |bytes| == |s|
  {
    seq(|s|, i requires 0 <= i < |s| => s[i] as int % 256)
  }

  function Magic(): (bytes: Bytes)
    ensures |bytes| == 8
  {
    Ascii("YVARL001")
  }

  function Fields(s: Snapshot): (fields: seq<u64>)
    ensures |fields| == 7
  {
    [s.device, s.inode, s.size, Unsigned(s.mtimeSeconds), Unsigned(s.mtimeNanoseconds),
     Unsigned(s.ctimeSeconds), Unsigned(s.ctimeNanoseconds)]
  }

  function FromFields(f: seq<u64>): Snapshot
    requires |f| == 7
  {
    Snapshot(f[0], f[1], f[2], Signed(f[3]), Signed(f[4]), Signed(f[5]), Signed(f[6]))
  }

  lemma FieldsRoundTrip(s: Snapshot, f: seq<u64>)
    requires |f| == 7
    ensures FromFields(Fields(s)) == s && (FromFields(f) == s <==> f == Fields(s))
  {
  }

  function Words(fields: seq<u64>): (bytes: Bytes)
    ensures |bytes| == 8 * |fields|
  {
    if fields == [] then [] else Word(fields[0]) + Words(fields[1..])
  }

  // The words that a byte string holds.
  function WordsIn(bytes: Bytes): (fields: seq<u64>)
    requires |bytes| % 8 == 0
    ensures |fields| == |bytes| / 8
  {
    if bytes == [] then []
    else
      WordRoundTrip(0, bytes[..8]);
      [Value(bytes[..8])] + WordsIn(bytes[8..])
  }

  lemma {:induction false} WordsMatch(bytes: Bytes, fields: seq<u64>)
    requires |bytes| == 8 * |fields|
    ensures WordsIn(bytes) == fields <==> bytes == Words(fields)
  {
    hide Word, Value;
    if fields == [] {
    } else {
      var head, rest := bytes[..8], bytes[8..];
      assert bytes == head + rest;
      WordRoundTrip(fields[0], head);
      WordsMatch(rest, fields[1..]);
      assert fields == [fields[0]] + fields[1..];
      assert Words(fields)[..8] == Word(fields[0]) && Words(fields)[8..] == Words(fields[1..]);
      assert WordsIn(bytes)[0] == Value(head) && WordsIn(bytes)[1..] == WordsIn(rest);
    }
  }

  // ---- Identities ----

  function LeaseIdentity(sha: Bytes -> Digest, identity: Bytes, s: Snapshot): (lease: Bytes)
    ensures IsHex(lease)
  {
    HexOf(sha(LeasePreimage(identity, s)))
  }

  function LeasePreimage(identity: Bytes, s: Snapshot): Bytes {
    Text(Ascii("yvex.artifact.reopen-lease.v1")) + Word(SCHEMA) + Text(identity) + Words(Fields(s))
  }

  // ---- The record ----

  function Encoded(identity: Bytes, lease: Bytes, s: Snapshot): Bytes {
    Magic() + Word(SCHEMA) + identity + lease + Words(Fields(s))
  }

  method PutWord(bytes: array<byte>, offset: nat, value: u64)
    requires offset + 8 <= bytes.Length
    modifies bytes
    ensures bytes[..offset + 8] == old(bytes[..offset]) + Word(value)
    ensures bytes[offset + 8..] == old(bytes[offset + 8..])
  {
    var rest: nat := value;
    for index := 0 to 8
      invariant bytes[..offset] == old(bytes[..offset]) && bytes[offset + 8..] == old(bytes[offset + 8..])
      invariant bytes[offset..offset + index] + Little(rest, 8 - index) == Word(value)
    {
      bytes[offset + index] := rest % 256;
      assert bytes[offset..offset + index + 1] == bytes[offset..offset + index] + [rest % 256];
      rest := rest / 256;
    }
    assert bytes[..offset + 8] == bytes[..offset] + bytes[offset..offset + 8];
  }

  method GetWord(bytes: Bytes, offset: nat) returns (value: u64)
    requires offset + 8 <= |bytes|
    ensures value == Value(bytes[offset..offset + 8])
  {
    hide Value;
    var sum: nat, place: nat := 0, 1;
    ghost var all := bytes[offset..offset + 8];
    assert all[0..] == all;
    for index := 0 to 8
      invariant sum + place * Value(all[index..]) == Value(all)
    {
      ValueStep(all, index);
      Horner(place, bytes[offset + index], Value(all[index + 1..]));
      sum := sum + bytes[offset + index] * place;
      place := place * 256;
    }
    assert all[8..] == [];
    NoValue();
    WordRoundTrip(0, all);
    value := sum;
  }

  lemma NoValue()
    ensures Value([]) == 0
  {
  }

  lemma ValueStep(bytes: Bytes, i: nat)
    requires i < |bytes|
    ensures Value(bytes[i..]) == bytes[i] + 256 * Value(bytes[i + 1..])
  {
    assert bytes[i..][1..] == bytes[i + 1..];
  }

  lemma Horner(place: nat, low: nat, rest: nat)
    ensures place * (low + 256 * rest) == low * place + (place * 256) * rest
  {
    Distribute(place, low, 256 * rest);
    assert place * (256 * rest) == (place * 256) * rest;
  }

  method Encode(identity: Bytes, lease: Bytes, s: Snapshot) returns (bytes: array<byte>)
    requires |identity| == 64 && |lease| == 64
    ensures fresh(bytes) && bytes[..] == Encoded(identity, lease, s)
  {
    hide Word, Magic, Words, Fields;
    bytes := new byte[RECEIPT_BYTES](_ => 0);
    Copy(bytes, 0, Magic());
    PutWord(bytes, 8, SCHEMA);
    Copy(bytes, 16, identity);
    Copy(bytes, 80, lease);
    ghost var header := bytes[..144];
    assert header == Magic() + Word(SCHEMA) + identity + lease;
    var fields := Fields(s);
    NoWords();
    for index := 0 to 7
      invariant bytes[..144 + 8 * index] == header + Words(fields[..index])
    {
      PutWord(bytes, 144 + 8 * index, fields[index]);
      WordsSnoc(fields[..index], fields[index]);
      assert fields[..index + 1] == fields[..index] + [fields[index]];
      assert header + Words(fields[..index]) + Word(fields[index]) == header + Words(fields[..index + 1]);
    }
    assert fields[..7] == fields && bytes[..200] == bytes[..];
  }

  lemma NoWords()
    ensures Words([]) == []
  {
  }

  method Copy(bytes: array<byte>, offset: nat, data: Bytes)
    requires offset + |data| <= bytes.Length
    modifies bytes
    ensures bytes[..offset + |data|] == old(bytes[..offset]) + data
    ensures bytes[offset + |data|..] == old(bytes[offset + |data|..])
  {
    forall i | 0 <= i < |data| {
      bytes[offset + i] := data[i];
    }
  }

  lemma {:induction false} WordsSnoc(fields: seq<u64>, last: u64)
    ensures Words(fields + [last]) == Words(fields) + Word(last)
  {
    hide Word;
    if fields == [] {
      assert Words([last]) == Word(last) + [];
    } else {
      assert (fields + [last])[1..] == fields[1..] + [last];
      WordsSnoc(fields[1..], last);
    }
  }

  // What a reader expects of the receipt for one identity and snapshot.
  datatype Expected = Expected(identity: Bytes, lease: Bytes, snapshot: Snapshot)

  ghost predicate Seeded(sha: Bytes -> Digest, e: Expected) {
    IsHex(e.identity) && e.lease == LeaseIdentity(sha, e.identity, e.snapshot)
  }

  lemma Sections(bytes: Bytes, e: Expected)
    requires |bytes| == RECEIPT_BYTES && |e.identity| == 64 && |e.lease| == 64
    ensures bytes == Encoded(e.identity, e.lease, e.snapshot) <==>
            && bytes[..8] == Magic() && bytes[8..16] == Word(SCHEMA) && bytes[16..80] == e.identity
            && bytes[80..144] == e.lease && bytes[144..] == Words(Fields(e.snapshot))
  {
    hide Word, Magic, Words, Fields;
    assert bytes == bytes[..8] + bytes[8..16] + bytes[16..80] + bytes[80..144] + bytes[144..];
    var all := Encoded(e.identity, e.lease, e.snapshot);
    assert all[..8] == Magic() && all[8..16] == Word(SCHEMA) && all[16..80] == e.identity;
    assert all[80..144] == e.lease && all[144..] == Words(Fields(e.snapshot));
  }

  /** Exactly one byte string is accepted: the one the encoder writes. */
  method Decode(bytes: Bytes, sha: Bytes -> Digest, e: Expected) returns (ok: bool)
    requires Seeded(sha, e)
    ensures ok <==> bytes == Encoded(e.identity, e.lease, e.snapshot)
  {
    hide Word, Magic, Words, Fields, HexOf, IsHexDigit;
    if |bytes| != RECEIPT_BYTES { return false; }
    Sections(bytes, e);
    var schema := GetWord(bytes, 8);
    WordRoundTrip(SCHEMA, bytes[8..16]);
    if bytes[..8] != Magic() || schema != SCHEMA { return false; }
    var identity, lease := bytes[16..80], bytes[80..144];
    var snapshot := GetSnapshot(bytes, 144);
    WordsMatch(bytes[144..], Fields(e.snapshot));
    FieldsRoundTrip(e.snapshot, WordsIn(bytes[144..]));
    ok := IsHex(identity) && IsHex(lease) && identity == e.identity && snapshot == e.snapshot &&
          lease == LeaseIdentity(sha, identity, snapshot) && lease == e.lease;
  }

  // One word taken off the front.
  lemma WordsInStep(bytes: Bytes, at: nat)
    requires at + 8 <= |bytes| && (|bytes| - at) % 8 == 0
    ensures WordsIn(bytes[at..]) == [Value(bytes[at..at + 8])] + WordsIn(bytes[at + 8..])
  {
    hide Value;
    var rest := bytes[at..];
    assert rest[..8] == bytes[at..at + 8] && rest[8..] == bytes[at + 8..];
    WordBound(rest[..8]);
  }

  lemma WordBound(bytes: Bytes)
    requires |bytes| == 8
    ensures Value(bytes) <= U64_MAX
  {
    WordRoundTrip(0, bytes);
  }

  method GetSnapshot(bytes: Bytes, offset: nat) returns (s: Snapshot)
    requires |bytes| == offset + 56
    ensures s == FromFields(WordsIn(bytes[offset..]))
  {
    hide Value, WordsIn, FromFields;
    var fields: seq<u64> := [];
    for index := 0 to 7
      invariant |fields| == index
      invariant fields + WordsIn(bytes[offset + 8 * index..]) == WordsIn(bytes[offset..])
    {
      WordsInStep(bytes, offset + 8 * index);
      var value := GetWord(bytes, offset + 8 * index);
      fields := fields + [value];
    }
    NoWordsIn(bytes[offset + 56..]);
    assert fields + [] == fields;
    s := FromFields(fields);
  }

  lemma NoWordsIn(bytes: Bytes)
    requires bytes == []
    ensures WordsIn(bytes) == []
  {
  }
}
