/**
 The identity of an acquisition: a digest over the repository, the revision and every file row, in an
 encoding from which all of them can be read back. Texts are their UTF-8 bytes.
 */
module IntakeIdentity {
  import opened Bits
  import opened Encoding
  import Reopen

  type Str = s: Bytes | |s| <= U64_MAX

  datatype FileRow = FileRow(path: Str, size: u64, expectedSha: Str, actualSha: Str, gitOid: Str, lfsOid: Str,
                             xetHash: Str, classification: Str, component: Str)

  datatype Acquisition = Acquisition(repo: Str, revision: Str, subdir: Str, files: seq<FileRow>)

  // ---- The encoding, as a function ----

  // The fields of a row after its size, and what follows the row.
  function TailThen(row: FileRow, rest: Bytes): Bytes {
    Text(row.gitOid) + (Text(row.lfsOid) + (Text(row.xetHash) + (Text(row.classification) + (Text(row.component) + rest))))
  }

  function RowThen(row: FileRow, rest: Bytes): Bytes {
    Text(row.path) + (Word(row.size) + (Text(row.expectedSha) + (Text(row.actualSha) + TailThen(row, rest))))
  }

  function RowsText(rows: seq<FileRow>): Bytes {
    if rows == [] then [] else RowThen(rows[0], RowsText(rows[1..]))
  }

  function Schema(): Bytes {
    Reopen.Ascii("yvex.source-acquisition.v1")
  }

  function HeadThen(a: Acquisition, rest: Bytes): Bytes {
    Text(Schema()) + (Text(a.repo) + (Text(a.revision) + (Text(a.subdir) + (Word(|a.files|) + rest))))
  }

  function Preimage(a: Acquisition): Bytes {
    HeadThen(a, RowsText(a.files))
  }

  // ---- It can be read back ----

  lemma TailInjective(r: FileRow, s: FileRow, x: Bytes, y: Bytes)
    requires TailThen(r, x) == TailThen(s, y)
    ensures r.gitOid == s.gitOid && r.lfsOid == s.lfsOid && r.xetHash == s.xetHash
    ensures r.classification == s.classification && r.component == s.component && x == y
  {
    hide Text;
    var r4, s4 := Text(r.component) + x, Text(s.component) + y;
    var r3, s3 := Text(r.classification) + r4, Text(s.classification) + s4;
    var r2, s2 := Text(r.xetHash) + r3, Text(s.xetHash) + s3;
    TextPrefix(r.gitOid, s.gitOid, Text(r.lfsOid) + r2, Text(s.lfsOid) + s2);
    TextPrefix(r.lfsOid, s.lfsOid, r2, s2);
    TextPrefix(r.xetHash, s.xetHash, r3, s3);
    TextPrefix(r.classification, s.classification, r4, s4);
    TextPrefix(r.component, s.component, x, y);
  }

  lemma RowInjective(r: FileRow, s: FileRow, x: Bytes, y: Bytes)
    requires RowThen(r, x) == RowThen(s, y)
    ensures r == s && x == y
  {
    hide Text, Word, TailThen;
    var r3, s3 := Text(r.actualSha) + TailThen(r, x), Text(s.actualSha) + TailThen(s, y);
    var r2, s2 := Text(r.expectedSha) + r3, Text(s.expectedSha) + s3;
    TextPrefix(r.path, s.path, Word(r.size) + r2, Word(s.size) + s2);
    WordPrefix(r.size, s.size, r2, s2);
    TextPrefix(r.expectedSha, s.expectedSha, r3, s3);
    TextPrefix(r.actualSha, s.actualSha, TailThen(r, x), TailThen(s, y));
    TailInjective(r, s, x, y);
  }

  lemma {:induction false} RowsInjective(r: seq<FileRow>, s: seq<FileRow>)
    requires |r| == |s| && RowsText(r) == RowsText(s)
    ensures r == s
  {
    hide RowThen;
    if r == [] {
    } else {
      RowInjective(r[0], s[0], RowsText(r[1..]), RowsText(s[1..]));
      RowsInjective(r[1..], s[1..]);
      assert r == [r[0]] + r[1..] && s == [s[0]] + s[1..];
    }
  }

  /** Two acquisitions are encoded alike only when they are the same acquisition. */
  lemma PreimageInjective(a: Acquisition, b: Acquisition)
    requires |a.files| <= U64_MAX && |b.files| <= U64_MAX
    requires Preimage(a) == Preimage(b)
    ensures a == b
  {
    hide Text, Word, Schema, RowsText;
    SchemaFits();
    var a3, b3 := Word(|a.files|) + RowsText(a.files), Word(|b.files|) + RowsText(b.files);
    var a2, b2 := Text(a.subdir) + a3, Text(b.subdir) + b3;
    TextPrefix(Schema(), Schema(), Text(a.repo) + (Text(a.revision) + a2), Text(b.repo) + (Text(b.revision) + b2));
    TextPrefix(a.repo, b.repo, Text(a.revision) + a2, Text(b.revision) + b2);
    TextPrefix(a.revision, b.revision, a2, b2);
    TextPrefix(a.subdir, b.subdir, a3, b3);
    WordPrefix(|a.files|, |b.files|, RowsText(a.files), RowsText(b.files));
    RowsInjective(a.files, b.files);
  }

  lemma SchemaFits()
    ensures |Schema()| <= U64_MAX
  {
  }

  /** Equal identities mean equal acquisitions, or a collision of the digest itself. */
  lemma IdentityDetermines(a: Acquisition, b: Acquisition, sha: Bytes -> Digest)
    requires |a.files| <= U64_MAX && |b.files| <= U64_MAX
    requires HexOf(sha(Preimage(a))) == HexOf(sha(Preimage(b)))
    ensures a == b || (Preimage(a) != Preimage(b) && sha(Preimage(a)) == sha(Preimage(b)))
  {
    hide HexOf, Preimage;
    HexInjective(sha(Preimage(a)), sha(Preimage(b)));
    if Preimage(a) == Preimage(b) {
      PreimageInjective(a, b);
    }
  }

  // ---- The encoding, as a sequence of digest updates ----

  lemma Shift(fed: Bytes, part: Bytes, rest: Bytes)
    ensures (fed + part) + rest == fed + (part + rest)
  {
  }

  method PutText(fed: Bytes, value: Bytes) returns (out: Bytes)
    ensures out == fed + Text(value)
  {
    hide Word;
    out := fed + Word(|value|);
    out := out + value;
  }

  method PutRow(fed: Bytes, row: FileRow, ghost rest: Bytes) returns (out: Bytes)
    ensures out + rest == fed + RowThen(row, rest)
  {
    hide Text, Word;
    ghost var tail := TailThen(row, rest);
    out := PutText(fed, row.path);
    Shift(fed, Text(row.path), Word(row.size) + (Text(row.expectedSha) + (Text(row.actualSha) + tail)));
    Shift(out, Word(row.size), Text(row.expectedSha) + (Text(row.actualSha) + tail));
    out := out + Word(row.size);
    Shift(out, Text(row.expectedSha), Text(row.actualSha) + tail);
    out := PutText(out, row.expectedSha);
    Shift(out, Text(row.actualSha), tail);
    out := PutText(out, row.actualSha);
    out := PutTail(out, row, rest);
  }

  method PutTail(fed: Bytes, row: FileRow, ghost rest: Bytes) returns (out: Bytes)
    ensures out + rest == fed + TailThen(row, rest)
  {
    hide Text;
    ghost var r4 := Text(row.component) + rest;
    ghost var r3 := Text(row.classification) + r4;
    ghost var r2 := Text(row.xetHash) + r3;
    Shift(fed, Text(row.gitOid), Text(row.lfsOid) + r2);
    out := PutText(fed, row.gitOid);
    Shift(out, Text(row.lfsOid), r2);
    out := PutText(out, row.lfsOid);
    Shift(out, Text(row.xetHash), r3);
    out := PutText(out, row.xetHash);
    Shift(out, Text(row.classification), r4);
    out := PutText(out, row.classification);
    Shift(out, Text(row.component), rest);
    out := PutText(out, row.component);
  }

  method PutHead(a: Acquisition, ghost rest: Bytes) returns (out: Bytes)
    ensures out + rest == HeadThen(a, rest)
  {
    hide Text, Word, Schema;
    ghost var r3 := Word(|a.files|) + rest;
    ghost var r2 := Text(a.subdir) + r3;
    out := PutText([], Schema());
    assert out == Text(Schema());
    Shift(out, Text(a.repo), Text(a.revision) + r2);
    out := PutText(out, a.repo);
    Shift(out, Text(a.revision), r2);
    out := PutText(out, a.revision);
    Shift(out, Text(a.subdir), r3);
    out := PutText(out, a.subdir);
    Shift(out, Word(|a.files|), rest);
    out := out + Word(|a.files|);
  }

  /** The updates, in the order the tool makes them, feed the digest the encoding. */
  method AcquisitionIdentity(a: Acquisition, sha: Bytes -> Digest) returns (identity: Bytes)
    ensures identity == HexOf(sha(Preimage(a)))
  {
    hide RowThen, HeadThen, HexOf;
    var fed := PutHead(a, RowsText(a.files));
    assert a.files[0..] == a.files;
    for i := 0 to |a.files|
      invariant fed + RowsText(a.files[i..]) == Preimage(a)
    {
      assert a.files[i..][1..] == a.files[i + 1..];
      fed := PutRow(fed, a.files[i], RowsText(a.files[i + 1..]));
    }
    assert fed + [] == fed;
    identity := HexOf(sha(fed));
  }
}
