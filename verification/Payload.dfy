/**
 The payload identity of an artifact: a digest over the ordinal, type, size and content digest of
 every tensor, and the positioned, chunked hashing that both of its computations share.
 */
module Payload {
  import opened Bits
  import opened Encoding
  import Reopen

  // A tensor as the parsed directory, or the writer plan, describes it.
  datatype Row = Row(offset: nat, bytes: u64, qtype: u64)

  const SSIZE_MAX := 0x7FFF_FFFF_FFFF_FFFF

  predicate Readable(file: Bytes, from: nat, count: nat) {
    count == 0 || from + count <= |file|
  }

  function Slice(file: Bytes, from: nat, count: nat): (s: Bytes)
    requires Readable(file, from, count)
    ensures |s| == count
  {
    if count == 0 then [] else file[from..from + count]
  }

  lemma SliceJoin(file: Bytes, from: nat, a: nat, b: nat)
    requires from + a + b <= |file|
    ensures Slice(file, from, a) + Slice(file, from + a, b) == Slice(file, from, a + b)
  {
  }

  ghost predicate InFile(rows: seq<Row>, file: Bytes, n: nat)
    requires n <= |rows|
  {
    forall i | 0 <= i < n :: Readable(file, rows[i].offset, rows[i].bytes)
  }

  function RowText(sha: Bytes -> Digest, file: Bytes, ordinal: nat, row: Row): Bytes
    requires Readable(file, row.offset, row.bytes)
  {
    Word(ordinal) + Word(row.qtype) + Word(row.bytes) + Text(HexOf(sha(Slice(file, row.offset, row.bytes))))
  }

  // What has been fed to the aggregate digest after the first n tensors.
  ghost function Preimage(sha: Bytes -> Digest, file: Bytes, rows: seq<Row>, n: nat): Bytes
    requires n <= |rows| && InFile(rows, file, n)
  {
    if n == 0 then Heading(|rows|)
    else Preimage(sha, file, rows, n - 1) + RowText(sha, file, n - 1, rows[n - 1])
  }

  function Heading(count: nat): Bytes {
    Text(Reopen.Ascii("yvex.quant.payload.bytes.v1")) + Word(count)
  }

  ghost function Identity(sha: Bytes -> Digest, file: Bytes, rows: seq<Row>): Bytes
    requires InFile(rows, file, |rows|)
  {
    HexOf(sha(Preimage(sha, file, rows, |rows|)))
  }

  ghost predicate AllWork(works: nat -> bool) {
    forall k: nat :: works(k)
  }

  // An exact positioned read: refused out of range, and it may also fail.
  method ReadAt(file: Bytes, offset: nat, count: nat, works: bool) returns (ok: bool, data: Bytes)
    ensures ok == (works && offset + count <= |file|)
    ensures ok ==> data == Slice(file, offset, count)
  {
    ok := works && offset + count <= |file|;
    data := if ok then Slice(file, offset, count) else [];
  }

  /** Whatever the buffer size, the digest is fed the range once and in order; works(k) is the k-th read. */
  method HashRange(file: Bytes, start: nat, count: nat, buffer: nat, works: nat -> bool)
    returns (ok: bool, fed: Bytes)
    requires buffer > 0
    ensures ok ==> Readable(file, start, count) && fed == Slice(file, start, count)
    ensures AllWork(works) ==> ok == Readable(file, start, count)
  {
    ok, fed := false, [];
    var delivered, k := 0, 0;
    while delivered < count
      invariant delivered <= count && Readable(file, start, delivered)
      invariant fed == Slice(file, start, delivered)
    {
      var take := if count - delivered > buffer then buffer else count - delivered;
      var got, data := ReadAt(file, start + delivered, take, works(k));
      if !got { return; }
      SliceJoin(file, start, delivered, take);
      fed := fed + data;
      delivered, k := delivered + take, k + 1;
    }
    ok := true;
  }

  // Every tensor can be addressed and holds bytes, all of them inside the file.
  ghost predicate Payloads(rows: seq<Row>, file: Bytes, addressable: nat -> bool) {
    InFile(rows, file, |rows|) && forall i: nat | i < |rows| :: rows[i].bytes > 0 && addressable(i)
  }

  // yvex_artifact_payload_identity_compute over the parsed directory.
  method Compute(file: Bytes, rows: seq<Row>, addressable: nat -> bool, layout: bool, stable: bool, buffer: nat,
                 sha: Bytes -> Digest, works: nat -> nat -> bool)
    returns (ok: bool, identity: Bytes)
    ensures ok ==> InFile(rows, file, |rows|) && identity == Identity(sha, file, rows)
    ensures (forall k: nat :: AllWork(works(k))) ==>
              ok == (rows != [] && 0 < buffer <= SSIZE_MAX && layout && stable && Payloads(rows, file, addressable))
  {
    hide Word, HexOf, Heading, RowText;
    ok, identity := false, [];
    if buffer == 0 || buffer > SSIZE_MAX || rows == [] || !layout || !stable { return; }
    var aggregate := Heading(|rows|);
    for ordinal := 0 to |rows|
      invariant forall i: nat | i < ordinal :: rows[i].bytes > 0 && addressable(i)
      invariant InFile(rows, file, ordinal) && aggregate == Preimage(sha, file, rows, ordinal)
    {
      var row := rows[ordinal];
      if !addressable(ordinal) || row.bytes == 0 { return; }
      var hashed, fed := HashRange(file, row.offset, row.bytes, buffer, works(ordinal));
      if !hashed { return; }
      var hex := HexOf(sha(fed));
      aggregate := aggregate + (Word(ordinal) + Word(row.qtype) + Word(row.bytes) + Text(hex));
      RowTextIs(sha, file, ordinal, row);
    }
    identity := HexOf(sha(aggregate));
    ok := true;
  }

  lemma RowTextIs(sha: Bytes -> Digest, file: Bytes, ordinal: nat, row: Row)
    requires Readable(file, row.offset, row.bytes)
    ensures RowText(sha, file, ordinal, row) ==
            Word(ordinal) + Word(row.qtype) + Word(row.bytes) + Text(HexOf(sha(Slice(file, row.offset, row.bytes))))
  {
  }
}
