/**
 Roundtrip validation of an emitted artifact against the plan it was written from: the file is read
 once, front to back, in chunks, and every byte is compared with the plan's prefix, digested as part
 of a tensor, or required to be zero.
 */
module Roundtrip {
  import opened Bits
  import opened Common
  import opened Encoding
  import opened Payload

  datatype Tensor = Tensor(row: Row, padded: u64, name: Bytes, dims: seq<u64>)

  // A row of the parsed directory.
  datatype Entry = Entry(row: Row, name: Bytes, dims: seq<u64>)

  // What the quantiser recorded for one tensor.
  datatype Terminal = Terminal(delivered: u64, hex: Bytes)

  // A writer plan, the digests of the run that filled it, and the file under validation.
  datatype Job = Job(file: Bytes, prefix: Bytes, tensors: seq<Tensor>, fileBytes: u64,
                     sink: nat -> Option<Terminal>, sha: Bytes -> Digest)

  function Rows(tensors: seq<Tensor>): seq<Row> {
    seq(|tensors|, i requires 0 <= i < |tensors| => tensors[i].row)
  }

  // The directory that the plan describes.
  function Directory(tensors: seq<Tensor>): seq<Entry> {
    seq(|tensors|, i requires 0 <= i < |tensors| => Entry(tensors[i].row, tensors[i].name, tensors[i].dims))
  }

  function EntryRows(entries: seq<Entry>): seq<Row> {
    seq(|entries|, i requires 0 <= i < |entries| => entries[i].row)
  }

  lemma DirectoryRows(tensors: seq<Tensor>)
    ensures EntryRows(Directory(tensors)) == Rows(tensors)
  {
  }

  // ---- What a valid file is ----

  function Zeros(n: nat): Bytes {
    seq(n, i => 0)
  }

  function Padding(tensor: Tensor): nat {
    if tensor.padded < tensor.row.bytes then 0 else tensor.padded - tensor.row.bytes
  }

  // The file a plan describes, given the payload of each tensor.
  ghost function Assembled(job: Job, payloads: seq<Bytes>, n: nat): Bytes
    requires n <= |job.tensors| == |payloads|
  {
    if n == 0 then job.prefix
    else Assembled(job, payloads, n - 1) + (payloads[n - 1] + Zeros(Padding(job.tensors[n - 1])))
  }

  // Where tensor n starts.
  function Position(job: Job, n: nat): nat
    requires n <= |job.tensors|
  {
    if n == 0 then |job.prefix| else Position(job, n - 1) + job.tensors[n - 1].padded
  }

  // The payload of tensor i is the one the quantiser delivered.
  ghost predicate Fits(job: Job, payloads: seq<Bytes>, i: nat)
    requires i < |job.tensors| == |payloads|
  {
    var tensor := job.tensors[i];
    && |payloads[i]| == tensor.row.bytes <= tensor.padded
    && tensor.row.offset == Position(job, i)
    && Recorded(job, i, payloads[i])
  }

  predicate Recorded(job: Job, i: nat, payload: Bytes)
    requires i < |job.tensors|
  {
    job.sink(i) == Some(Terminal(job.tensors[i].row.bytes, HexOf(job.sha(payload))))
  }

  ghost predicate Made(job: Job, payloads: seq<Bytes>) {
    && |payloads| == |job.tensors|
    && |job.file| == job.fileBytes
    && (forall i | 0 <= i < |payloads| :: Fits(job, payloads, i))
    && job.file == Assembled(job, payloads, |payloads|)
  }

  // ---- The same, read off the file tensor by tensor ----

  ghost predicate AllZero(bytes: Bytes) {
    forall i | 0 <= i < |bytes| :: bytes[i] == 0
  }

  ghost predicate Sits(job: Job, i: nat)
    requires i < |job.tensors|
  {
    var tensor := job.tensors[i];
    && tensor.row.bytes <= tensor.padded
    && tensor.row.offset == Position(job, i)
    && tensor.row.offset + tensor.padded <= |job.file|
    && Recorded(job, i, Slice(job.file, tensor.row.offset, tensor.row.bytes))
    && AllZero(Slice(job.file, tensor.row.offset + tensor.row.bytes, Padding(tensor)))
  }

  ghost predicate Checked(job: Job, n: nat)
    requires n <= |job.tensors|
  {
    && |job.prefix| <= |job.file| && Slice(job.file, 0, |job.prefix|) == job.prefix
    && forall i | 0 <= i < n :: Sits(job, i)
  }

  ghost function Cut(job: Job): (payloads: seq<Bytes>)
    requires Checked(job, |job.tensors|)
  {
    seq(|job.tensors|, i requires 0 <= i < |job.tensors| =>
      assert Sits(job, i);
      Slice(job.file, job.tensors[i].row.offset, job.tensors[i].row.bytes))
  }

  lemma CutFits(job: Job, i: nat)
    requires Checked(job, |job.tensors|) && i < |job.tensors|
    ensures Fits(job, Cut(job), i)
  {
    hide HexOf, AllZero;
    assert Sits(job, i);
  }

  lemma NextSlice(job: Job, i: nat)
    requires i < |job.tensors| && Sits(job, i)
    ensures var row := job.tensors[i].row;
            Slice(job.file, 0, Position(job, i + 1))
            == Slice(job.file, 0, Position(job, i))
               + (Slice(job.file, row.offset, row.bytes) + Zeros(Padding(job.tensors[i])))
  {
    hide HexOf, Recorded;
    var tensor, at := job.tensors[i], Position(job, i);
    SliceJoin(job.file, at, tensor.row.bytes, Padding(tensor));
    SliceJoin(job.file, 0, at, tensor.padded);
    assert Slice(job.file, at + tensor.row.bytes, Padding(tensor)) == Zeros(Padding(tensor));
  }

  lemma {:induction false} CutAssembles(job: Job, n: nat)
    requires Checked(job, |job.tensors|) && n <= |job.tensors|
    ensures Position(job, n) <= |job.file|
    ensures Assembled(job, Cut(job), n) == Slice(job.file, 0, Position(job, n))
  {
    hide HexOf, AllZero, Recorded, Slice, Zeros, Padding;
    if n == 0 {
    } else {
      CutAssembles(job, n - 1);
      assert Sits(job, n - 1);
      NextSlice(job, n - 1);
    }
  }

  lemma {:induction false} Prefixes(job: Job, payloads: seq<Bytes>, n: nat, m: nat)
    requires Made(job, payloads) && n <= m <= |payloads|
    ensures |Assembled(job, payloads, n)| == Position(job, n)
    ensures Assembled(job, payloads, n) <= Assembled(job, payloads, m)
    decreases m
  {
    hide Recorded;
    if 0 < n == m {
      assert Fits(job, payloads, n - 1);
      Prefixes(job, payloads, n - 1, n - 1);
    } else if n < m {
      Prefixes(job, payloads, n, m - 1);
    }
  }

  lemma PiecesOf(job: Job, at: nat, payload: Bytes, tensor: Tensor, before: Bytes)
    requires |before| == at && |payload| == tensor.row.bytes <= tensor.padded
    requires before + (payload + Zeros(Padding(tensor))) <= job.file
    ensures at + tensor.padded <= |job.file|
    ensures Slice(job.file, at, tensor.row.bytes) == payload
    ensures AllZero(Slice(job.file, at + tensor.row.bytes, Padding(tensor)))
  {
  }

  lemma MadeSits(job: Job, payloads: seq<Bytes>, i: nat)
    requires Made(job, payloads) && i < |payloads|
    ensures Sits(job, i)
  {
    hide Recorded, Zeros, AllZero, Slice;
    assert Fits(job, payloads, i);
    Prefixes(job, payloads, i, |payloads|);
    Prefixes(job, payloads, i + 1, |payloads|);
    PiecesOf(job, Position(job, i), payloads[i], job.tensors[i], Assembled(job, payloads, i));
  }

  // The file is the plan's prefix, each recorded payload, and zeros between them.
  ghost predicate Faithful(job: Job) {
    exists payloads :: Made(job, payloads)
  }

  /** Checking the file piece by piece recognises exactly the files assembled from recorded payloads. */
  lemma CheckedIffMade(job: Job)
    ensures |job.file| == job.fileBytes == Position(job, |job.tensors|) && Checked(job, |job.tensors|)
       <==> Faithful(job)
  {
    hide Recorded, Zeros, AllZero, Sits, Fits, Assembled;
    var n := |job.tensors|;
    if |job.file| == job.fileBytes == Position(job, n) && Checked(job, n) {
      CutAssembles(job, n);
      forall i | 0 <= i < n ensures Fits(job, Cut(job), i) { CutFits(job, i); }
      assert Made(job, Cut(job));
    }
    if payloads :| Made(job, payloads) {
      Prefixes(job, payloads, 0, n);
      Prefixes(job, payloads, n, n);
      PrefixIs(job, payloads);
      forall i | 0 <= i < n ensures Sits(job, i) { MadeSits(job, payloads, i); }
    }
  }

  lemma PrefixIs(job: Job, payloads: seq<Bytes>)
    requires |payloads| == |job.tensors| && Assembled(job, payloads, 0) <= job.file
    ensures |job.prefix| <= |job.file| && Slice(job.file, 0, |job.prefix|) == job.prefix
  {
  }

  // ---- The streaming validator ----

  function Difference(a: u64, b: u64): u64 {
    if a < b then a + (U64_MAX + 1) - b else a - b
  }

  // The index of the first byte that is not zero, or the length.
  method FirstNonzero(bytes: Bytes) returns (i: nat)
    ensures i <= |bytes| && AllZero(bytes[..i]) && (i < |bytes| ==> bytes[i] != 0)
  {
    i := 0;
    while i < |bytes| && bytes[i] == 0
      invariant i <= |bytes| && AllZero(bytes[..i])
    {
      i := i + 1;
    }
  }

  class Validation {
    const job: Job
    const chunk: nat
    const works: nat -> bool
    var cursor: nat
    var whole: Bytes
    var aggregate: Bytes
    var hashed: nat
    var prefixVerified: nat
    var payloadVerified: nat
    var paddingVerified: nat
    var readCalls: nat
    var terminals: nat

    constructor (job: Job, chunk: nat, works: nat -> bool)
      ensures this.job == job && this.chunk == chunk && this.works == works
      ensures Along() && cursor == terminals == 0
    {
      this.job, this.chunk, this.works := job, chunk, works;
      cursor, whole, aggregate, hashed, prefixVerified := 0, [], [], 0, 0;
      payloadVerified, paddingVerified, readCalls, terminals := 0, 0, 0, 0;
    }

    /** Everything before the cursor has been hashed once, in order, and accounted for. */
    ghost predicate Along()
      reads this
    {
      && cursor <= |job.file|
      && whole == Slice(job.file, 0, cursor)
      && hashed == cursor == prefixVerified + payloadVerified + paddingVerified
    }

    // One chunk of HashRange.
    method HashChunk(at: nat, request: nat, zero: bool) returns (ok: bool, data: Bytes, dirty: Option<nat>)
      modifies `whole, `hashed, `readCalls
      ensures ok ==> at + request <= |job.file| && data == Slice(job.file, at, request)
      ensures ok ==> whole == old(whole) + data && hashed == old(hashed) + request && (zero ==> AllZero(data))
      ensures ok == (works(old(readCalls)) && at + request <= |job.file| && dirty.None?)
      ensures dirty.Some? ==> zero && FirstAt(job.file, at, request, dirty.value)
    {
      ok, data := ReadAt(job.file, at, request, works(readCalls));
      dirty := None;
      if !ok { return; }
      whole := whole + data;
      if zero {
        var index := FirstNonzero(data);
        if index < |data| {
          ok, dirty := false, Some(at + index);
          assert data[..index] == Slice(job.file, at, index);
          return;
        }
        assert data[..index] == data;
      }
      hashed, readCalls := hashed + request, readCalls + 1;
    }

    // Hash a range into the whole-file digest, and hand it to the caller's own digest.
    method HashRange(offset: nat, count: nat, zero: bool) returns (ok: bool, fed: Bytes, dirty: Option<nat>)
      requires chunk > 0
      modifies `whole, `hashed, `readCalls
      ensures ok ==> Readable(job.file, offset, count) && fed == Slice(job.file, offset, count)
      ensures ok ==> whole == old(whole) + fed && hashed == old(hashed) + count && (zero ==> AllZero(fed))
      ensures AllWork(works) && Readable(job.file, offset, count) ==> ok || dirty.Some?
      ensures dirty.Some? ==> !ok && zero && FirstAt(job.file, offset, count, dirty.value)
    {
      hide AllZero, Slice, FirstAt;
      ok, fed, dirty := false, [], None;
      var delivered := 0;
      AllZeroEmpty();
      SliceEmpty(job.file, offset);
      while delivered < count
        invariant delivered <= count && Readable(job.file, offset, delivered)
        invariant fed == Slice(job.file, offset, delivered)
        invariant whole == old(whole) + fed && hashed == old(hashed) + delivered
        invariant zero ==> AllZero(fed)
      {
        var remaining := count - delivered;
        var request := if remaining < chunk then remaining else chunk;
        var got, data, found := HashChunk(offset + delivered, request, zero);
        if found.Some? {
          FirstAtLater(job.file, offset, delivered, request, count, found.value);
        }
        if !got {
          dirty := found;
          return;
        }
        SliceJoin(job.file, offset, delivered, request);
        AllZeroJoin(fed, data);
        fed := fed + data;
        delivered := delivered + request;
      }
      ok := true;
    }

    // One chunk of VerifyPrefix.
    method PrefixChunk(request: nat) returns (ok: bool)
      requires Along() && cursor + request <= |job.prefix| && Slice(job.file, 0, cursor) == job.prefix[..cursor]
      modifies `cursor, `whole, `hashed, `prefixVerified, `readCalls
      ensures ok ==> Along() && cursor == old(cursor) + request && Slice(job.file, 0, cursor) == job.prefix[..cursor]
      ensures works(old(readCalls)) && |job.prefix| <= |job.file| && Slice(job.file, 0, |job.prefix|) == job.prefix ==> ok
    {
      hide Slice;
      var got, data := ReadAt(job.file, cursor, request, works(readCalls));
      ok := got && data == job.prefix[cursor..cursor + request];
      if |job.prefix| <= |job.file| { SlicePart(job.file, job.prefix, cursor, request); }
      if !ok { return; }
      SliceJoin(job.file, 0, cursor, request);
      TakeMore(job.prefix, cursor, request);
      whole := whole + data;
      cursor, hashed, prefixVerified := cursor + request, hashed + request, prefixVerified + request;
      readCalls := readCalls + 1;
    }

    // Compare the file's beginning with the plan's prefix.
    method VerifyPrefix() returns (ok: bool)
      requires chunk > 0 && Along() && cursor == prefixVerified == 0
      modifies this
      ensures ok ==> Along() && cursor == |job.prefix| && Slice(job.file, 0, cursor) == job.prefix
      ensures ok ==> aggregate == Heading(|job.tensors|) && terminals == old(terminals)
      ensures AllWork(works) && |job.prefix| <= |job.file| && Slice(job.file, 0, |job.prefix|) == job.prefix ==> ok
    {
      hide Heading, Slice;
      ok := false;
      SliceEmpty(job.file, 0);
      aggregate := Heading(|job.tensors|);
      while cursor < |job.prefix|
        invariant Along() && cursor <= |job.prefix|
        invariant Slice(job.file, 0, cursor) == job.prefix[..cursor]
        invariant aggregate == Heading(|job.tensors|) && terminals == old(terminals)
      {
        var remaining := |job.prefix| - cursor;
        ok := PrefixChunk(if remaining < chunk then remaining else chunk);
        if !ok { return; }
      }
      ok := true;
    }

    ghost predicate Encoded(n: nat)
      requires n <= |job.tensors|
      reads this
    {
      InFile(Rows(job.tensors), job.file, n) && aggregate == Preimage(job.sha, job.file, Rows(job.tensors), n)
    }

    // Digest the payload of tensor i and compare it with the recorded one.
    method VerifyPayload(i: nat) returns (ok: bool)
      requires chunk > 0 && Along() && i < |job.tensors| && cursor == job.tensors[i].row.offset && Encoded(i)
      modifies `whole, `hashed, `readCalls, `aggregate, `cursor, `payloadVerified
      ensures ok ==> Along() && cursor == old(cursor) + job.tensors[i].row.bytes && Encoded(i + 1)
      ensures ok ==> Recorded(job, i, Slice(job.file, old(cursor), job.tensors[i].row.bytes))
      ensures (&& AllWork(works) && Readable(job.file, old(cursor), job.tensors[i].row.bytes)
               && Recorded(job, i, Slice(job.file, old(cursor), job.tensors[i].row.bytes))) ==> ok
    {
      hide HexOf, Word, Slice, InFile, Preimage;
      ok := false;
      var row, expected := job.tensors[i].row, job.sink(i);
      if expected.None? { return; }
      var hashedAll, fed, _ := HashRange(cursor, row.bytes, false);
      if !hashedAll { return; }
      var hex := HexOf(job.sha(fed));
      if expected.value.delivered != row.bytes || expected.value.hex != hex { return; }
      PreimageStep(job, i);
      RowTextIs(job.sha, job.file, i, row);
      aggregate := aggregate + (Word(i) + Word(row.qtype) + Word(row.bytes) + Text(hex));
      SliceJoin(job.file, 0, cursor, row.bytes);
      cursor, payloadVerified := cursor + row.bytes, payloadVerified + row.bytes;
      ok := true;
    }

    // Require the padding to be zero; a refusal says where the first other byte is.
    method VerifyPadding(padding: nat) returns (ok: bool, dirty: Option<nat>)
      requires chunk > 0 && Along()
      modifies `whole, `hashed, `readCalls, `cursor, `paddingVerified
      ensures ok ==> Along() && cursor == old(cursor) + padding
      ensures ok ==> AllZero(Slice(job.file, old(cursor), padding))
      ensures dirty.Some? ==> !ok && FirstAt(job.file, old(cursor), padding, dirty.value)
      ensures (&& AllWork(works) && Readable(job.file, old(cursor), padding)
               && AllZero(Slice(job.file, old(cursor), padding))) ==> ok
    {
      hide AllZero, Slice, FirstAt;
      ok, dirty := true, None;
      SliceEmpty(job.file, cursor);
      AllZeroEmpty();
      if padding == 0 { return; }
      var fed;
      ok, fed, dirty := HashRange(cursor, padding, true);
      if dirty.Some? && Readable(job.file, cursor, padding) {
        FirstAtDirty(job.file, cursor, padding, dirty.value);
      }
      if !ok { return; }
      SliceJoin(job.file, 0, cursor, padding);
      cursor, paddingVerified := cursor + padding, paddingVerified + padding;
    }

    // Verify one tensor: its place, its payload and its padding.
    method VerifyTerminal(i: nat) returns (ok: bool)
      requires chunk > 0 && Along() && |job.file| <= U64_MAX
      requires i < |job.tensors| && cursor == Position(job, i) && Encoded(i)
      modifies this
      ensures ok ==> Along() && Sits(job, i) && cursor == Position(job, i + 1) && Encoded(i + 1)
      ensures ok ==> terminals == old(terminals) + 1
      ensures AllWork(works) && Sits(job, i) ==> ok
    {
      hide Recorded, AllZero, Slice, InFile, Preimage, FirstAt;
      ok := false;
      var tensor := job.tensors[i];
      if cursor != tensor.row.offset { return; }
      ok := VerifyPayload(i);
      if !ok { return; }
      var padding := Difference(tensor.padded, tensor.row.bytes);
      var clean, _ := VerifyPadding(padding);
      ok := clean;
      if !ok { return; }
      terminals := terminals + 1;
    }
  }

  lemma PreimageStep(job: Job, i: nat)
    requires i < |job.tensors| && InFile(Rows(job.tensors), job.file, i)
    requires Readable(job.file, job.tensors[i].row.offset, job.tensors[i].row.bytes)
    ensures InFile(Rows(job.tensors), job.file, i + 1)
    ensures Preimage(job.sha, job.file, Rows(job.tensors), i + 1)
         == Preimage(job.sha, job.file, Rows(job.tensors), i) + RowText(job.sha, job.file, i, job.tensors[i].row)
  {
    hide Word, HexOf;
  }

  lemma TakeMore(bytes: Bytes, at: nat, count: nat)
    requires at + count <= |bytes|
    ensures bytes[..at] + bytes[at..at + count] == bytes[..at + count]
  {
  }

  lemma SlicePart(file: Bytes, prefix: Bytes, at: nat, count: nat)
    requires at + count <= |prefix| <= |file|
    ensures Slice(file, 0, |prefix|) == prefix ==> Slice(file, at, count) == prefix[at..at + count]
  {
    var start, part := Slice(file, 0, |prefix|), Slice(file, at, count);
    forall i | 0 <= i < count ensures part[i] == start[at..at + count][i] { assert part[i] == file[at + i]; }
    assert part == start[at..at + count];
  }

  // The lowest position of a range that holds a byte other than zero.
  ghost predicate FirstAt(file: Bytes, offset: nat, count: nat, at: nat) {
    offset <= at < offset + count && at < |file| && file[at] != 0 && AllZero(Slice(file, offset, at - offset))
  }

  lemma FirstAtLater(file: Bytes, offset: nat, delivered: nat, request: nat, count: nat, at: nat)
    requires delivered + request <= count && Readable(file, offset, delivered)
    requires FirstAt(file, offset + delivered, request, at)
    requires AllZero(Slice(file, offset, delivered))
    ensures FirstAt(file, offset, count, at)
  {
    SliceJoin(file, offset, delivered, at - offset - delivered);
  }

  lemma FirstAtDirty(file: Bytes, offset: nat, count: nat, at: nat)
    requires FirstAt(file, offset, count, at) && Readable(file, offset, count)
    ensures !AllZero(Slice(file, offset, count))
  {
    assert Slice(file, offset, count)[at - offset] == file[at];
  }

  lemma SliceEmpty(file: Bytes, at: nat)
    ensures Slice(file, at, 0) == []
  {
  }

  lemma AllZeroEmpty()
    ensures AllZero([])
  {
  }

  lemma AllZeroJoin(a: Bytes, b: Bytes)
    ensures AllZero(a + b) <==> AllZero(a) && AllZero(b)
  {
    var c := a + b;
    forall i | 0 <= i < |a| ensures a[i] == c[i] {}
    forall i | 0 <= i < |b| ensures b[i] == c[|a| + i] {}
  }

  // ---- The whole validation ----

  datatype Summary = Summary(artifactIdentity: Bytes, payloadIdentity: Bytes, hashed: nat, prefixBytes: nat,
                             payloadBytes: nat, paddingBytes: nat, terminals: nat)

  method SameDims(a: seq<u64>, b: seq<u64>) returns (same: bool)
    ensures same <==> a == b
  {
    if |a| != |b| {
      return false;
    }
    for i := 0 to |a|
      invariant a[..i] == b[..i]
    {
      if a[i] != b[i] {
        return false;
      }
    }
    same := true;
    assert a == a[..|a|] && b == b[..|a|];
  }

  // The parsed directory is the plan's: names, dimensions, types, places and sizes.
  method ValidateDirectory(tensors: seq<Tensor>, actual: seq<Entry>) returns (ok: bool)
    ensures ok <==> actual == Directory(tensors)
  {
    ok := false;
    if |actual| != |tensors| { return; }
    for i := 0 to |tensors|
      invariant forall k | 0 <= k < i :: actual[k] == Directory(tensors)[k]
    {
      var dims := SameDims(actual[i].dims, tensors[i].dims);
      if actual[i].name != tensors[i].name || actual[i].row != tensors[i].row || !dims {
        assert actual[i] != Directory(tensors)[i];
        return;
      }
    }
    ok := true;
  }

  ghost predicate Admissible(job: Job, chunk: nat, container: bool, actual: seq<Entry>, stable: bool) {
    0 < chunk <= SSIZE_MAX && container && stable && actual == Directory(job.tensors)
  }

  /**
   A file that passes is faithful to its plan, its summary accounts for every byte, and its artifact
   identity is the digest of the whole file. When reads work, every faithful file passes.
   */
  method Validate(job: Job, chunk: nat, works: nat -> bool, container: bool, actual: seq<Entry>, stable: bool)
    returns (r: Option<Summary>)
    requires |job.file| <= U64_MAX
    ensures r.Some? ==> Admissible(job, chunk, container, actual, stable) && Faithful(job)
    ensures AllWork(works) && Admissible(job, chunk, container, actual, stable) && Faithful(job) ==> r.Some?
    ensures r.Some? ==> Accounts(job, r.value)
  {
    hide Faithful, Checked, HexOf, Slice, Heading;
    CheckedIffMade(job);
    r := None;
    if chunk == 0 || chunk > SSIZE_MAX || |job.file| != job.fileBytes || !container { return; }
    var matches := ValidateDirectory(job.tensors, actual);
    if !matches { return; }
    var run, ok := Stream(job, chunk, works);
    if !ok { return; }
    if run.cursor != job.fileBytes || run.hashed != job.fileBytes || |run.whole| != job.fileBytes { return; }
    if !stable { return; }
    SliceAll(job.file);
    r := Some(Summary(HexOf(job.sha(run.whole)), HexOf(job.sha(run.aggregate)), run.hashed, run.prefixVerified,
                      run.payloadVerified, run.paddingVerified, run.terminals));
  }

  lemma SliceAll(file: Bytes)
    ensures Slice(file, 0, |file|) == file
  {
  }

  // What a summary says about the file it was made from.
  ghost predicate Accounts(job: Job, s: Summary) {
    && s.artifactIdentity == HexOf(job.sha(job.file))
    && InFile(Rows(job.tensors), job.file, |job.tensors|)
    && s.payloadIdentity == Identity(job.sha, job.file, Rows(job.tensors))
    && s.hashed == s.prefixBytes + s.payloadBytes + s.paddingBytes == |job.file|
    && s.terminals == |job.tensors|
  }

  // Prefix, then every tensor.
  method Stream(job: Job, chunk: nat, works: nat -> bool) returns (run: Validation, ok: bool)
    requires chunk > 0 && |job.file| <= U64_MAX
    ensures fresh(run) && run.job == job
    ensures ok ==> run.Along() && run.cursor == Position(job, |job.tensors|) && run.Encoded(|job.tensors|)
    ensures ok ==> Checked(job, |job.tensors|) && run.terminals == |job.tensors|
    ensures AllWork(works) && Checked(job, |job.tensors|) ==> ok
  {
    hide Slice, Sits, InFile, Preimage, Heading, AllWork;
    run := new Validation(job, chunk, works);
    ok := run.VerifyPrefix();
    if !ok { return; }
    PreimageStarts(job);
    for i := 0 to |job.tensors|
      invariant run.Along() && run.cursor == Position(job, i) && run.Encoded(i)
      invariant Checked(job, i) && run.terminals == i
    {
      ok := run.VerifyTerminal(i);
      if !ok { return; }
    }
  }

  lemma PreimageStarts(job: Job)
    ensures InFile(Rows(job.tensors), job.file, 0)
    ensures Preimage(job.sha, job.file, Rows(job.tensors), 0) == Heading(|job.tensors|)
  {
    hide Heading;
  }

  // Every tensor of the plan can be addressed and holds bytes.
  ghost predicate NoneEmpty(tensors: seq<Tensor>, addressable: nat -> bool) {
    tensors != [] && forall i: nat | i < |tensors| :: tensors[i].row.bytes > 0 && addressable(i)
  }

  /**
   Validation and the stand-alone payload digest agree, whatever two buffer sizes they use; and on a file
   that validates, the stand-alone digest exists whenever its reads work and no tensor is empty.
   */
  method PayloadIdentities(job: Job, chunk: nat, buffer: nat, works: nat -> bool, others: nat -> nat -> bool,
                           container: bool, actual: seq<Entry>, addressable: nat -> bool, stable: bool)
    returns (r: Option<Summary>, ok: bool, identity: Bytes)
    requires |job.file| <= U64_MAX
    ensures r.Some? && ok ==> r.value.payloadIdentity == identity
    ensures r.Some? ==> Admissible(job, chunk, container, actual, stable) && Faithful(job) && Accounts(job, r.value)
    ensures AllWork(works) && Admissible(job, chunk, container, actual, stable) && Faithful(job) ==> r.Some?
    ensures r.Some? && NoneEmpty(job.tensors, addressable) && 0 < buffer <= SSIZE_MAX && (forall k: nat :: AllWork(others(k))) ==> ok
  {
    hide Identity, Faithful;
    DirectoryRows(job.tensors);
    r := Validate(job, chunk, works, container, actual, stable);
    ok, identity := Compute(job.file, EntryRows(actual), addressable, container, stable, buffer, job.sha, others);
  }
}
