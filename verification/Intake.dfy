/**
 Acquiring one source file from a remote provider: bytes are appended to a partial file that survives
 an interrupted run, and the partial file is renamed to the final one once its size and digest are right.

 Streamed and Step say what a transfer and a run do to the two files; the methods are proved against
 them, and the lemmas are about them, for every reply and every sequence of runs.
 */
module Intake {
  import opened Common
  import opened Encoding
  import Reopen

  const MEGABYTE := 1024 * 1024

  // What the provider serves under this path, the row of its immutable tree, and the two digests.
  datatype World = World(content: Bytes, size: nat, lfsOid: Bytes, oid: Bytes,
                         sha: Bytes -> Digest, sha1: Bytes -> Bytes)

  // ---- Expected identities ----

  predicate LowerHex(text: Bytes, n: nat) {
    |text| == n && forall i | 0 <= i < n :: 48 <= text[i] <= 57 || 97 <= text[i] <= 102
  }

  // The digest an LFS row promises: nothing, a digest, or a row that is refused.
  function ExpectedSha(lfsOid: Bytes): Option<Bytes> {
    var marker := Reopen.Ascii("sha256:");
    if lfsOid == [] then Some([])
    else
      var oid := if marker <= lfsOid then lfsOid[|marker|..] else lfsOid;
      if LowerHex(oid, 64) then Some(oid) else None
  }

  function Decimal(n: nat): Bytes {
    if n < 10 then [48 + n] else Decimal(n / 10) + [48 + n % 10]
  }

  // The Git identity of a blob.
  function BlobOid(w: World, bytes: Bytes): Bytes {
    w.sha1(Reopen.Ascii("blob ") + Decimal(w.size) + [0] + bytes)
  }

  // ---- What an acquisition should end with ----

  datatype Record = Record(actualSha: Bytes, actualSize: nat, expectedSha: Bytes, expectedSize: nat)

  // The file that the tree row describes: as many bytes of the content as the row says.
  function Wanted(w: World): (file: Bytes)
    requires w.size <= |w.content|
    ensures |file| == w.size && file <= w.content && (w.size == |w.content| ==> file == w.content)
  {
    w.content[..w.size]
  }

  predicate ShaAgrees(w: World, bytes: Bytes) {
    ExpectedSha(w.lfsOid).Some?
    && (ExpectedSha(w.lfsOid).value == [] || HexOf(w.sha(bytes)) == ExpectedSha(w.lfsOid).value)
  }

  predicate Agrees(w: World, bytes: Bytes) {
    && |bytes| == w.size && ShaAgrees(w, bytes)
    && (ExpectedSha(w.lfsOid).value == [] ==> LowerHex(w.oid, 40) && BlobOid(w, bytes) == w.oid)
  }

  predicate Acquirable(w: World) {
    w.size <= |w.content| && Agrees(w, Wanted(w))
  }

  function RecordOf(w: World, bytes: Bytes): Record
    requires ShaAgrees(w, bytes)
  {
    Record(HexOf(w.sha(bytes)), |bytes|, ExpectedSha(w.lfsOid).value, w.size)
  }

  // ---- What a provider may answer ----

  // The headers of a reply. A partial answer (206) says which bytes it carries.
  datatype Headers = Headers(host: bool, status: nat, first: nat, last: nat, total: nat, length: Option<nat>)

  // offers(k) is how many bytes the k-th read finds; dies is the read at which the run is cut off, and
  // kept is how much of what it had written by then reaches the disk.
  datatype Reply = Reply(headers: Headers, offers: nat -> nat, extra: bool, dies: Option<nat>, kept: nat)

  // Where in the content the body of a reply starts.
  function BodyStart(h: Headers): nat {
    if h.status == 206 then h.first else 0
  }

  // What is checked before the body is read. The range is checked only when one was asked for.
  predicate HeadersFit(size: nat, h: Headers, offset: nat)
    requires offset <= size
  {
    && h.host
    && (if offset > 0
        then h.status == 206 && h.first == offset && h.last + 1 == size && h.total == size
        else h.status == 200 || h.status == 206)
    && (h.length.None? || h.length.value == size - offset)
  }

  // A reply to a request for the whole file starts with its first byte.
  predicate FromStart(h: Headers) {
    h.status == 200 || h.first == 0
  }

  // A reply that delivers everything that was asked for and no more.
  ghost predicate Delivers(w: World, reply: Reply, offset: nat)
    requires offset <= w.size
  {
    && HeadersFit(w.size, reply.headers, offset) && (offset == 0 ==> FromStart(reply.headers))
    && reply.dies.None? && !reply.extra && forall k: nat :: reply.offers(k) > 0
  }

  // ---- A transfer, as a function ----

  // How many bytes the k-th read yields when done bytes of the body have been read.
  function ChunkSize(w: World, reply: Reply, remaining: nat, done: nat, k: nat): nat
    requires done <= remaining
  {
    var at := BodyStart(reply.headers) + done;
    if at > |w.content| then 0 else Min(Min(reply.offers(k), Min(MEGABYTE, remaining - done)), |w.content| - at)
  }

  datatype Reading = Reading(done: nat, died: bool)

  // How far the loop gets from its k-th read on.
  function ReadOn(w: World, reply: Reply, remaining: nat, done: nat, k: nat): (r: Reading)
    requires done <= remaining
    ensures done <= r.done <= remaining
    decreases remaining - done
  {
    if reply.dies == Some(k) then Reading(done, true)
    else if done == remaining || ChunkSize(w, reply, remaining, done, k) == 0 then Reading(done, false)
    else ReadOn(w, reply, remaining, done + ChunkSize(w, reply, remaining, done, k), k + 1)
  }

  // The first count bytes of the body.
  function Body(w: World, h: Headers, count: nat): Bytes {
    var start := BodyStart(h);
    if start + count <= |w.content| then w.content[start..start + count] else []
  }

  // The partial file after a transfer, and whether the transfer completed it.
  datatype Streamed = Streamed(left: Bytes, ok: bool)

  function Stream(w: World, reply: Reply, fed: Bytes): Streamed
    requires |fed| <= w.size
  {
    if |fed| == w.size then Streamed(fed, true)
    else if !HeadersFit(w.size, reply.headers, |fed|) then Streamed(fed, false)
    else
      var remaining := w.size - |fed|;
      var r := ReadOn(w, reply, remaining, 0, 0);
      if r.died then Streamed(fed + Body(w, reply.headers, Min(reply.kept, r.done)), false)
      else Streamed(fed + Body(w, reply.headers, r.done), r.done == remaining && !reply.extra)
  }

  // ---- A run, as a function ----

  datatype Files = Files(target: Option<Bytes>, partial: Option<Bytes>)

  // usable: a file that is already there is a regular file and can be read.
  datatype Run = Run(check: bool, usable: bool, reply: Reply)

  datatype Outcome = Failed | Acquired(record: Record, transferred: nat)

  datatype Ran = Ran(files: Files, out: Outcome)

  // What an interrupted run has left behind.
  function Held(f: Files): Bytes {
    if f.partial.Some? then f.partial.value else []
  }

  function Judged(w: World, f: Files, bytes: Bytes, transferred: nat): Ran {
    Ran(f, if Agrees(w, bytes) then Acquired(RecordOf(w, bytes), transferred) else Failed)
  }

  // Does the run ask the provider for bytes?
  predicate Asks(w: World, f: Files, run: Run) {
    && !run.check && f.target.None? && ExpectedSha(w.lfsOid).Some?
    && |Held(f)| <= w.size && (f.partial.Some? ==> run.usable)
  }

  function Step(w: World, f: Files, run: Run): Ran {
    if Asks(w, f, run) then Fetched(w, f, run.reply)
    else if ExpectedSha(w.lfsOid).None? || f.target.None? || f.partial.Some? || !run.usable then Ran(f, Failed)
    else Judged(w, f, f.target.value, 0)
  }

  function Fetched(w: World, f: Files, reply: Reply): Ran
    requires |Held(f)| <= w.size
  {
    var s := Stream(w, reply, Held(f));
    if s.ok && ShaAgrees(w, s.left) then Judged(w, Files(Some(s.left), None), s.left, w.size - |Held(f)|)
    else Ran(Files(None, Some(s.left)), Failed)
  }

  // ---- One transfer ----

  lemma {:induction false} ReadInside(w: World, reply: Reply, remaining: nat, done: nat, k: nat)
    requires done <= remaining && (done == 0 || BodyStart(reply.headers) + done <= |w.content|)
    ensures var n := ReadOn(w, reply, remaining, done, k).done;
            n == 0 || BodyStart(reply.headers) + n <= |w.content|
    decreases remaining - done
  {
    var n := ChunkSize(w, reply, remaining, done, k);
    if reply.dies == Some(k) || done == remaining || n == 0 {
    } else {
      ReadInside(w, reply, remaining, done + n, k + 1);
    }
  }

  // What is appended is a stretch of the content from where the body starts.
  lemma StreamAppends(w: World, reply: Reply, fed: Bytes) returns (n: nat)
    requires |fed| <= w.size
    ensures |fed| + n <= w.size && Stream(w, reply, fed).left == fed + Body(w, reply.headers, n)
    ensures n == 0 || BodyStart(reply.headers) + n <= |w.content|
    ensures n > 0 ==> HeadersFit(w.size, reply.headers, |fed|)
    ensures Stream(w, reply, fed).ok ==> |fed| + n == w.size
  {
    hide ReadOn, HeadersFit;
    n := 0;
    assert fed + Body(w, reply.headers, 0) == fed;
    if |fed| < w.size && HeadersFit(w.size, reply.headers, |fed|) {
      ReadInside(w, reply, w.size - |fed|, 0, 0);
      var r := ReadOn(w, reply, w.size - |fed|, 0, 0);
      n := if r.died then Min(reply.kept, r.done) else r.done;
    }
  }

  lemma Extends(content: Bytes, fed: Bytes, n: nat)
    requires fed <= content && |fed| + n <= |content|
    ensures fed + content[|fed|..|fed| + n] <= content
  {
    assert content[..|fed| + n] == content[..|fed|] + content[|fed|..|fed| + n];
  }

  /** A transfer keeps what was there; it keeps a prefix a prefix when a whole-file answer starts at byte 0. */
  lemma StreamKeepsPrefix(w: World, reply: Reply, fed: Bytes)
    requires |fed| <= w.size && fed <= w.content && (fed == [] ==> FromStart(reply.headers))
    ensures var s := Stream(w, reply, fed);
            && fed <= s.left <= w.content && |s.left| <= w.size
            && (s.ok ==> w.size <= |w.content| && s.left == Wanted(w))
  {
    hide Stream;
    var n := StreamAppends(w, reply, fed);
    if n > 0 {
      Extends(w.content, fed, n);
    }
  }

  lemma {:induction false} ReadAll(w: World, reply: Reply, remaining: nat, done: nat, k: nat)
    requires done <= remaining && BodyStart(reply.headers) + remaining <= |w.content|
    requires reply.dies.None? && forall k: nat :: reply.offers(k) > 0
    ensures ReadOn(w, reply, remaining, done, k) == Reading(remaining, false)
    decreases remaining - done
  {
    if done == remaining {
    } else {
      assert reply.offers(k) > 0;
      ReadAll(w, reply, remaining, done + ChunkSize(w, reply, remaining, done, k), k + 1);
    }
  }

  /** A reply that delivers completes the file. */
  lemma DeliveryCompletes(w: World, reply: Reply, fed: Bytes)
    requires |fed| <= w.size <= |w.content| && fed <= w.content && Delivers(w, reply, |fed|)
    ensures Stream(w, reply, fed) == Streamed(Wanted(w), true)
  {
    hide ReadOn;
    ReadAll(w, reply, w.size - |fed|, 0, 0);
    StreamKeepsPrefix(w, reply, fed);
  }

  // ---- Exactly which headers are safe ----

  ghost predicate KeepsPrefix(w: World, reply: Reply) {
    Stream(w, reply, []).left <= w.content
  }

  // Whatever the content and however the body arrives.
  ghost predicate AlwaysKeepsPrefix(w: World, h: Headers) {
    forall content, offers, extra, dies, kept ::
      KeepsPrefix(w.(content := content), Reply(h, offers, extra, dies, kept))
  }

  // A content whose first byte is not the one the body starts with.
  function Told(first: nat): Bytes {
    seq(first, i => 0) + [1]
  }

  lemma StrayBody(w: World, h: Headers)
    requires w.size > 0 && HeadersFit(w.size, h, 0) && !FromStart(h)
    ensures !KeepsPrefix(w.(content := Told(h.first)), Reply(h, (k: nat) => 1, false, None, 0))
  {
    var v, reply := w.(content := Told(h.first)), Reply(h, (k: nat) => 1, false, None, 0);
    assert ChunkSize(v, reply, v.size, 0, 0) == 1;
    assert v.size > 1 ==> ChunkSize(v, reply, v.size, 1, 1) == 0;
    assert ReadOn(v, reply, v.size, 1, 1) == Reading(1, false);
    assert ReadOn(v, reply, v.size, 0, 0) == Reading(1, false);
    var left := Stream(v, reply, []).left;
    assert left == [1] && v.content[0] == 0;
  }

  /**
   An accepted answer to a request for the whole file keeps the partial file a prefix, for every content
   and every way its body arrives, exactly when its status is 200 or its range starts at byte 0.
   */
  lemma PrefixIff(w: World, h: Headers)
    requires w.size > 0 && HeadersFit(w.size, h, 0)
    ensures AlwaysKeepsPrefix(w, h) <==> FromStart(h)
  {
    hide Stream;
    if FromStart(h) {
      forall content, offers, extra, dies, kept
        ensures KeepsPrefix(w.(content := content), Reply(h, offers, extra, dies, kept))
      {
        StreamKeepsPrefix(w.(content := content), Reply(h, offers, extra, dies, kept), []);
      }
    } else {
      StrayBody(w, h);
    }
  }

  // ---- One run ----

  /**
   The partial file, if there is one, is a prefix of the content; the final file never coexists with it,
   and is all that is wanted of the content.
   */
  ghost predicate Inv(w: World, f: Files) {
    && (f.partial.Some? ==> |f.partial.value| <= w.size && f.partial.value <= w.content)
    && (f.target.Some? ==>
          && f.partial.None? && w.size <= |w.content|
          && f.target.value == Wanted(w) && ShaAgrees(w, f.target.value))
  }

  // The final file is there, alone, and agrees with the row.
  ghost predicate Complete(w: World, f: Files) {
    f.target.Some? && f.partial.None? && Agrees(w, f.target.value)
  }

  // If the run asks for the whole file, the answer starts with its first byte.
  predicate Straight(w: World, f: Files, run: Run) {
    Asks(w, f, run) && Held(f) == [] ==> FromStart(run.reply.headers)
  }

  /** A run keeps the invariant, and what it reports is true of the content. */
  lemma StepKeeps(w: World, f: Files, run: Run)
    requires Inv(w, f) && Straight(w, f, run)
    ensures Inv(w, Step(w, f, run).files) && True(w, Step(w, f, run).out)
  {
    hide Stream, ShaAgrees, Agrees, Wanted, ExpectedSha;
    AgreesIs(w, if f.target.Some? then f.target.value else []);
    if Asks(w, f, run) {
      StreamKeepsPrefix(w, run.reply, Held(f));
      AgreesIs(w, Stream(w, run.reply, Held(f)).left);
    }
  }

  lemma AgreesIs(w: World, bytes: Bytes)
    ensures Agrees(w, bytes) ==> ShaAgrees(w, bytes) && |bytes| == w.size
  {
  }

  // A report gives the size and digest of what is wanted of the content.
  ghost predicate True(w: World, out: Outcome) {
    out.Acquired? ==> w.size <= |w.content| && Agrees(w, Wanted(w)) && out.record == RecordOf(w, Wanted(w))
  }

  /** Whatever the reply: nothing held is lost, and a report describes a complete final file. */
  lemma StepLosesNothing(w: World, f: Files, run: Run)
    ensures var r := Step(w, f, run);
            && (run.check || f.target.Some? ==> r.files == f)
            && (f.partial.Some? ==> r.files.target.Some? || (r.files.partial.Some? && Held(f) <= Held(r.files)))
            && (r.files.target.Some? && f.target.None? ==> r.files.partial.None? && Held(f) <= r.files.target.value)
            && (r.out.Acquired? ==> Complete(w, r.files) && r.out.record == RecordOf(w, r.files.target.value))
            && (r.out.Acquired? ==> r.out.transferred == if f.target.Some? then 0 else w.size - |Held(f)|)
  {
    hide Stream, ShaAgrees, Agrees, Wanted, ExpectedSha;
    if Asks(w, f, run) {
      var n := StreamAppends(w, run.reply, Held(f));
    }
  }

  /** A check, or a run that finds the final file, succeeds exactly when the file is complete. */
  lemma CheckIff(w: World, f: Files, run: Run)
    requires run.check || f.target.Some?
    ensures Step(w, f, run).out.Acquired? <==> Complete(w, f) && run.usable
  {
    hide Stream;
  }

  /** A run whose reply delivers succeeds, when the row describes the content. */
  lemma DeliverySucceeds(w: World, f: Files, run: Run)
    requires Inv(w, f) && Acquirable(w) && f.target.None? && !run.check && run.usable && Delivers(w, run.reply, |Held(f)|)
    ensures Step(w, f, run) == Ran(Files(Some(Wanted(w)), None), Acquired(RecordOf(w, Wanted(w)), w.size - |Held(f)|))
  {
    hide Stream, Delivers, BlobOid, HexOf, LowerHex, ExpectedSha;
    DeliveryCompletes(w, run.reply, Held(f));
  }

  // ---- Any number of runs ----

  // The files after the first n runs, and what run i reports.
  function FilesAfter(w: World, f: Files, runs: seq<Run>, n: nat): Files
    requires n <= |runs|
  {
    if n == 0 then f else Step(w, FilesAfter(w, f, runs, n - 1), runs[n - 1]).files
  }

  function OutcomeOf(w: World, f: Files, runs: seq<Run>, i: nat): Outcome
    requires i < |runs|
  {
    Step(w, FilesAfter(w, f, runs, i), runs[i]).out
  }

  ghost predicate AllStraight(w: World, f: Files, runs: seq<Run>) {
    forall i | 0 <= i < |runs| :: Straight(w, FilesAfter(w, f, runs, i), runs[i])
  }

  lemma {:induction false} RunsKeepInv(w: World, f: Files, runs: seq<Run>, n: nat)
    requires Inv(w, f) && AllStraight(w, f, runs) && n <= |runs|
    ensures Inv(w, FilesAfter(w, f, runs, n))
  {
    hide Step, Inv, Straight;
    if n == 0 {
    } else {
      RunsKeepInv(w, f, runs, n - 1);
      StepKeeps(w, FilesAfter(w, f, runs, n - 1), runs[n - 1]);
    }
  }

  /**
   However many runs are interrupted, refused or repeated: the invariant holds after each, each report is
   true of the content, and a run whose reply delivers succeeds.
   */
  lemma RunsAcquire(w: World, f: Files, runs: seq<Run>, i: nat)
    requires Inv(w, f) && AllStraight(w, f, runs) && i < |runs|
    ensures Inv(w, FilesAfter(w, f, runs, i)) && Inv(w, FilesAfter(w, f, runs, i + 1))
    ensures True(w, OutcomeOf(w, f, runs, i))
    ensures var held := Held(FilesAfter(w, f, runs, i));
            && |held| <= w.size
            && (Acquirable(w) && !runs[i].check && runs[i].usable && Delivers(w, runs[i].reply, |held|) ==>
                  OutcomeOf(w, f, runs, i).Acquired?)
  {
    hide Step, Inv, Straight, Delivers, Acquirable, True;
    RunsKeepInv(w, f, runs, i);
    RunsKeepInv(w, f, runs, i + 1);
    var g := FilesAfter(w, f, runs, i);
    StepKeeps(w, g, runs[i]);
    HeldFits(w, g);
    if Acquirable(w) && !runs[i].check && runs[i].usable && Delivers(w, runs[i].reply, |Held(g)|) {
      if g.target.None? {
        DeliverySucceeds(w, g, runs[i]);
      } else {
        FinalAgrees(w, g);
        CheckIff(w, g, runs[i]);
      }
    }
  }

  lemma HeldFits(w: World, f: Files)
    requires Inv(w, f)
    ensures |Held(f)| <= w.size
  {
  }

  lemma FinalAgrees(w: World, f: Files)
    requires Inv(w, f) && Acquirable(w) && f.target.Some?
    ensures Complete(w, f)
  {
    hide Agrees, ShaAgrees;
  }

  lemma {:induction false} CompleteStays(w: World, f: Files, runs: seq<Run>, m: nat, n: nat)
    requires m <= n <= |runs| && Complete(w, FilesAfter(w, f, runs, m))
    ensures FilesAfter(w, f, runs, n) == FilesAfter(w, f, runs, m)
  {
    hide Step, Agrees;
    if m == n {
    } else {
      CompleteStays(w, f, runs, m, n - 1);
      StepLosesNothing(w, FilesAfter(w, f, runs, n - 1), runs[n - 1]);
    }
  }

  /** From the first success on, every run that can read the file succeeds, without a transfer and with the same report. */
  lemma SuccessLasts(w: World, f: Files, runs: seq<Run>, i: nat, j: nat)
    requires i < j < |runs| && OutcomeOf(w, f, runs, i).Acquired? && runs[j].usable
    ensures OutcomeOf(w, f, runs, j) == OutcomeOf(w, f, runs, i).(transferred := 0)
  {
    hide Step, Agrees, RecordOf;
    StepLosesNothing(w, FilesAfter(w, f, runs, i), runs[i]);
    CompleteStays(w, f, runs, i + 1, j);
    CheckIff(w, FilesAfter(w, f, runs, j), runs[j]);
    StepLosesNothing(w, FilesAfter(w, f, runs, j), runs[j]);
  }

  // ---- An answer that starts elsewhere ----

  // An unasked-for partial answer, and the answer to the resumed request.
  function Strayed(): Run {
    Run(false, true, Reply(Headers(true, 206, 1, 1, 2, None), (k: nat) => 2, false, None, 0))
  }

  lemma StrayedStreams(w: World, fed: Bytes)
    requires w.content == [1, 2] && w.size == 2 && (fed == [] || fed == [2])
    ensures Stream(w, Strayed().reply, fed) == Streamed(fed + [2], fed == [2])
  {
    var reply := Strayed().reply;
    var remaining := 2 - |fed|;
    assert ChunkSize(w, reply, remaining, 0, 0) == 1;
    assert remaining > 1 ==> ChunkSize(w, reply, remaining, 1, 1) == 0;
    assert ReadOn(w, reply, remaining, 1, 1) == Reading(1, false);
    assert ReadOn(w, reply, remaining, 0, 0) == Reading(1, false);
    assert w.content[1..2] == [2];
  }

  /**
   The content [1, 2], served from its second byte to a run that asked for all of it: the partial file is
   no prefix, a resumed run makes [2, 2] the final file of a row without a content digest, and unless that
   happens to be the promised blob every later run is refused and leaves it there.
   */
  lemma StrayAnswer(w: World, later: Run)
    requires w.content == [1, 2] && w.size == 2 && w.lfsOid == []
    ensures var one := Step(w, Files(None, None), Strayed()).files;
            var two := Step(w, one, Strayed()).files;
            && one == Files(None, Some([2])) && !Inv(w, one)
            && two == Files(Some([2, 2]), None) && !Inv(w, two)
            && (BlobOid(w, [2, 2]) != w.oid ==> Step(w, two, later) == Ran(two, Failed))
  {
    hide Stream, BlobOid;
    var one, two: Bytes := [2], [2, 2];
    StrayedStreams(w, []);
    StrayedStreams(w, one);
    assert [] + one == one && one + one == two;
    assert one[0] != w.content[0] && two[0] != w.content[0];
    assert w.content[..2][0] == 1;
  }

  // ---- The program ----

  // One read of the body.
  method ReadBody(w: World, reply: Reply, remaining: nat, done: nat, k: nat) returns (chunk: Bytes)
    requires done <= remaining
    ensures var n := ChunkSize(w, reply, remaining, done, k);
            |chunk| == n && (n > 0 ==> Body(w, reply.headers, done + n) == Body(w, reply.headers, done) + chunk)
  {
    var at, limit := BodyStart(reply.headers) + done, Min(MEGABYTE, remaining - done);
    if at > |w.content| {
      return [];
    }
    var n := Min(Min(reply.offers(k), limit), |w.content| - at);
    chunk := w.content[at..at + n];
    BodyGrows(w, reply.headers, done, n);
  }

  lemma BodyGrows(w: World, h: Headers, done: nat, n: nat)
    requires BodyStart(h) + done + n <= |w.content|
    ensures var at := BodyStart(h) + done;
            Body(w, h, done + n) == Body(w, h, done) + w.content[at..at + n]
  {
  }

  // What is left of the appended bytes when only the first m reach the disk.
  lemma BodyCut(w: World, h: Headers, fed: Bytes, n: nat, m: nat)
    requires m <= n && |Body(w, h, n)| == n
    ensures (fed + Body(w, h, n))[|fed|..|fed| + m] == Body(w, h, m)
  {
    var body := Body(w, h, n);
    assert (fed + body)[|fed|..|fed| + m] == body[..m];
    assert body[..m] == Body(w, h, m);
  }

  lemma BodyNone(w: World, h: Headers)
    ensures Body(w, h, 0) == []
  {
  }

  lemma ReadStep(w: World, reply: Reply, remaining: nat, done: nat, k: nat)
    requires done <= remaining
    ensures ReadOn(w, reply, remaining, done, k)
         == if reply.dies == Some(k) then Reading(done, true)
            else if done == remaining || ChunkSize(w, reply, remaining, done, k) == 0 then Reading(done, false)
            else ReadOn(w, reply, remaining, done + ChunkSize(w, reply, remaining, done, k), k + 1)
  {
  }

  // Hash a file that is already there, unless it cannot be used or is longer than it should be.
  method HashExisting(bytes: Bytes, maximum: nat, usable: bool) returns (ok: bool, fed: Bytes)
    ensures ok == (usable && |bytes| <= maximum)
    ensures ok ==> fed == bytes
  {
    ok, fed := false, [];
    if !usable { return; }
    while |fed| < |bytes|
      invariant |fed| <= |bytes| && fed == bytes[..|fed|] && |fed| <= maximum
    {
      var size := |fed| + Min(MEGABYTE, |bytes| - |fed|);
      if size > maximum { return; }
      fed := fed + bytes[|fed|..size];
    }
    ok := true;
  }

  class Destination {
    var target: Option<Bytes>
    var partial: Option<Bytes>

    constructor ()
      ensures Now() == Files(None, None)
    {
      target, partial := None, None;
    }

    function Now(): Files
      reads this
    {
      Files(target, partial)
    }

    // Append the rest of the file to the partial one.
    method StreamFile(w: World, reply: Reply, fed: Bytes) returns (ok: bool, all: Bytes, transferred: nat)
      requires partial == Some(fed) && |fed| <= w.size
      modifies `partial
      ensures partial == Some(Stream(w, reply, fed).left) && ok == Stream(w, reply, fed).ok
      ensures ok ==> partial == Some(all) && transferred == w.size - |fed|
    {
      hide Body, ReadOn, ChunkSize, HeadersFit;
      ok, all, transferred := false, fed, 0;
      var offset, h := |fed|, reply.headers;
      if offset == w.size {
        ok := true;
        return;
      }
      if !HeadersFit(w.size, h, offset) { return; }
      var remaining, k := w.size - offset, 0;
      ghost var r := ReadOn(w, reply, remaining, 0, 0);
      BodyNone(w, h);
      while transferred < remaining
        invariant transferred <= remaining && all == fed + Body(w, h, transferred) && |all| == offset + transferred
        invariant partial == Some(all) && ReadOn(w, reply, remaining, transferred, k) == r
      {
        ReadStep(w, reply, remaining, transferred, k);
        if reply.dies == Some(k) { break; }
        var chunk := ReadBody(w, reply, remaining, transferred, k);
        if chunk == [] { return; }
        all := all + chunk;
        partial := Some(all);
        transferred, k := transferred + |chunk|, k + 1;
      }
      ReadStep(w, reply, remaining, transferred, k);
      if reply.dies == Some(k) {
        BodyCut(w, h, fed, transferred, Min(reply.kept, transferred));
        partial := Some(fed + all[offset..offset + Min(reply.kept, transferred)]);
        return;
      }
      if reply.extra { return; }
      ok := true;
    }

    // Fill the partial file from where it stops, and rename it when its size and digest are right.
    method Fetch(w: World, expectedSha: Bytes, run: Run) returns (ok: bool, fed: Bytes, transferred: nat)
      requires target.None? && !run.check && ExpectedSha(w.lfsOid) == Some(expectedSha)
      modifies this
      ensures !Asks(w, old(Now()), run) ==> !ok && unchanged(this)
      ensures Asks(w, old(Now()), run) ==>
                && Now() == Fetched(w, old(Now()), run.reply).files && ok == target.Some?
                && (ok ==> target == Some(fed) && transferred == w.size - |Held(old(Now()))|)
    {
      hide HexOf, ExpectedSha, Stream;
      ok, transferred := true, 0;
      if partial.Some? {
        ok, fed := HashExisting(partial.value, w.size, run.usable);
        if !ok { return; }
      } else {
        fed, partial := [], Some([]);
      }
      ok, fed, transferred := StreamFile(w, run.reply, fed);
      if !ok { return; }
      if expectedSha != [] && HexOf(w.sha(fed)) != expectedSha {
        ok := false;
        return;
      }
      target, partial := partial, None;
    }

    // Is the final file the one the row promises?
    method Judge(w: World, expectedSha: Bytes, fed: Bytes) returns (ok: bool)
      requires target == Some(fed) && ExpectedSha(w.lfsOid) == Some(expectedSha)
      ensures ok == Agrees(w, fed)
    {
      hide HexOf, BlobOid, ExpectedSha, LowerHex;
      ok := false;
      if |fed| != w.size { return; }
      if expectedSha != [] && HexOf(w.sha(fed)) != expectedSha { return; }
      if expectedSha == [] {
        if !LowerHex(w.oid, 40) || BlobOid(w, target.value) != w.oid { return; }
      }
      ok := true;
    }

    // One run, in check mode or not.
    method Acquire(w: World, run: Run) returns (out: Outcome)
      modifies this
      ensures Ran(Now(), out) == Step(w, old(Now()), run)
    {
      hide HexOf, BlobOid, LowerHex, ExpectedSha, Stream;
      out := Failed;
      var expected := ExpectedSha(w.lfsOid);
      if expected.None? { return; }
      var ok, fed, transferred := true, [], 0;
      if run.check {
        if partial.Some? || target.None? { return; }
        ok, fed := HashExisting(target.value, w.size, run.usable);
      } else if target.Some? {
        if partial.Some? { return; }
        ok, fed := HashExisting(target.value, w.size, run.usable);
      } else {
        ok, fed, transferred := Fetch(w, expected.value, run);
      }
      if !ok { return; }
      var right := Judge(w, expected.value, fed);
      if !right { return; }
      out := Acquired(Record(HexOf(w.sha(fed)), |fed|, expected.value, w.size), transferred);
    }
  }

  // Any number of runs on an empty destination.
  method AcquireAll(w: World, runs: seq<Run>) returns (d: Destination, outs: seq<Outcome>)
    ensures d.Now() == FilesAfter(w, Files(None, None), runs, |runs|) && |outs| == |runs|
    ensures forall i | 0 <= i < |outs| :: outs[i] == OutcomeOf(w, Files(None, None), runs, i)
  {
    hide Step;
    d := new Destination();
    outs := [];
    for n := 0 to |runs|
      invariant d.Now() == FilesAfter(w, Files(None, None), runs, n) && |outs| == n
      invariant forall i | 0 <= i < n :: outs[i] == OutcomeOf(w, Files(None, None), runs, i)
    {
      var out := d.Acquire(w, runs[n]);
      outs := outs + [out];
    }
  }
}
