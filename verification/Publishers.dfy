/**
 Several processes publish the receipt of one verified snapshot at the same time
 (src/artifact/reopen.c, yvex_artifact_reopen_lease_publish). Creating a file without replacing, and
 replacing it, are atomic; everything between them interleaves, and every step may fail.
 */
module Publishers {
  import opened Encoding
  import opened Reopen

  datatype Stored = Absent | Stored(bytes: Bytes)

  datatype Pc =
    | Creating    // about to create without replacing
    | Checking    // somebody's file was there
    | Replacing   // and did not verify
    | Published
    | Failed

  // canonical is what the encoder writes for the snapshot.
  datatype State = State(canonical: Bytes, file: Stored, publishers: seq<Pc>)

  // unreadable: the file is there but cannot be read now.
  datatype Step = Create(p: nat) | Check(p: nat, unreadable: bool) | Replace(p: nat) | Fail(p: nat)

  predicate Enabled(s: State, step: Step) {
    step.p < |s.publishers| &&
    match step
    case Create(p) => s.publishers[p] == Creating
    case Check(p, _) => s.publishers[p] == Checking
    case Replace(p) => s.publishers[p] == Replacing
    case Fail(p) => s.publishers[p] != Published && s.publishers[p] != Failed
  }

  function Goto(s: State, p: nat, pc: Pc): State
    requires p < |s.publishers|
  {
    s.(publishers := s.publishers[p := pc])
  }

  function After(s: State, step: Step): State
    requires Enabled(s, step)
  {
    match step
    case Create(p) =>
      if s.file.Absent? then Goto(s.(file := Stored(s.canonical)), p, Published) else Goto(s, p, Checking)
    case Check(p, unreadable) =>
      Goto(s, p, if !unreadable && s.file == Stored(s.canonical) then Published else Replacing)
    case Replace(p) => Goto(s.(file := Stored(s.canonical)), p, Published)
    case Fail(p) => Goto(s, p, Failed)
  }

  ghost predicate Runs(s: State, steps: seq<Step>, end: State)
    decreases |steps|
  {
    if steps == [] then s == end
    else Enabled(s, steps[0]) && Runs(After(s, steps[0]), steps[1..], end)
  }

  ghost predicate Inv(s: State) {
    (exists p | 0 <= p < |s.publishers| :: s.publishers[p] == Published) ==> s.file == Stored(s.canonical)
  }

  // How many steps the publishers from i on can still take.
  ghost function Ahead(publishers: seq<Pc>, i: nat): nat
    requires i <= |publishers|
    decreases |publishers| - i
  {
    if i == |publishers| then 0 else Rank(publishers[i]) + Ahead(publishers, i + 1)
  }

  ghost function Rank(pc: Pc): nat {
    match pc
    case Creating => 3
    case Checking => 2
    case Replacing => 1
    case _ => 0
  }

  lemma {:induction false} AheadUpdate(publishers: seq<Pc>, i: nat, p: nat, pc: Pc)
    requires i <= |publishers| && p < |publishers|
    ensures i <= p ==> Ahead(publishers[p := pc], i) + Rank(publishers[p]) == Ahead(publishers, i) + Rank(pc)
    ensures p < i ==> Ahead(publishers[p := pc], i) == Ahead(publishers, i)
    decreases |publishers| - i
  {
    if i == |publishers| {
    } else {
      AheadUpdate(publishers, i + 1, p, pc);
    }
  }

  lemma StepKeeps(s: State, step: Step)
    requires Inv(s) && Enabled(s, step)
    ensures Inv(After(s, step)) && After(s, step).canonical == s.canonical
    ensures |After(s, step).publishers| == |s.publishers|
    ensures s.file == Stored(s.canonical) ==> After(s, step).file == s.file
    ensures Ahead(After(s, step).publishers, 0) < Ahead(s.publishers, 0)
  {
    var s' := After(s, step);
    AheadUpdate(s.publishers, 0, step.p, s'.publishers[step.p]);
    if exists q | 0 <= q < |s'.publishers| :: s'.publishers[q] == Published {
      var q :| 0 <= q < |s'.publishers| && s'.publishers[q] == Published;
      assert q != step.p ==> s.publishers[q] == Published;
    }
  }

  /**
   From any prior file, any interleaving of publishers is finite; as soon as one of them has published,
   the file is the canonical receipt, and it stays so.
   */
  lemma {:induction false} InterleavingPublishes(s: State, steps: seq<Step>, end: State)
    requires Inv(s) && Runs(s, steps, end)
    ensures |steps| <= Ahead(s.publishers, 0)
    ensures Inv(end) && end.canonical == s.canonical
    ensures s.file == Stored(s.canonical) ==> end.file == s.file
    decreases |steps|
  {
    hide Inv, After, Enabled, Ahead;
    if steps == [] {
    } else {
      StepKeeps(s, steps[0]);
      InterleavingPublishes(After(s, steps[0]), steps[1..], end);
    }
  }

  /** From any prior file, once one publisher is through without failing, the file is the encoder's receipt. */
  lemma PublishedReceipt(start: State, steps: seq<Step>, s: State, e: Expected)
    requires (forall p | 0 <= p < |start.publishers| :: start.publishers[p] == Creating) && Runs(start, steps, s)
    requires |e.identity| == |e.lease| == 64 && start.canonical == Encoded(e.identity, e.lease, e.snapshot)
    requires exists p | 0 <= p < |s.publishers| :: s.publishers[p] == Published
    ensures s.file == Stored(Encoded(e.identity, e.lease, e.snapshot))
  {
    hide Encoded, Runs;
    InterleavingPublishes(start, steps, s);
  }

  // ---- Publishers that do not fail ----

  ghost predicate Able(s: State, step: Step) {
    Enabled(s, step) && !step.Fail?
  }

  ghost predicate Stuck(s: State) {
    forall step :: !Able(s, step)
  }

  ghost predicate NoneFailed(s: State) {
    forall p | 0 <= p < |s.publishers| :: s.publishers[p] != Failed
  }

  lemma {:induction false} NoFailures(s: State, steps: seq<Step>, end: State)
    requires Runs(s, steps, end) && NoneFailed(s) && forall i | 0 <= i < |steps| :: !steps[i].Fail?
    ensures NoneFailed(end) && |end.publishers| == |s.publishers|
    decreases |steps|
  {
    if steps == [] {
    } else {
      assert !steps[0].Fail?;
      assert forall i | 0 <= i < |steps[1..]| :: steps[1..][i] == steps[i + 1];
      NoFailures(After(s, steps[0]), steps[1..], end);
    }
  }

  /**
   A run without failures that cannot go on has published everywhere: each publisher is through, and with
   at least one of them the file is the canonical receipt.
   */
  lemma AllPublish(start: State, steps: seq<Step>, end: State)
    requires (forall p | 0 <= p < |start.publishers| :: start.publishers[p] == Creating) && Runs(start, steps, end)
    requires (forall i | 0 <= i < |steps| :: !steps[i].Fail?) && Stuck(end)
    ensures forall p | 0 <= p < |end.publishers| :: end.publishers[p] == Published
    ensures |start.publishers| > 0 ==> end.file == Stored(start.canonical)
  {
    hide Runs, After;
    NoFailures(start, steps, end);
    InterleavingPublishes(start, steps, end);
    forall p | 0 <= p < |end.publishers| ensures end.publishers[p] == Published {
      assert !Able(end, Create(p)) && !Able(end, Check(p, false)) && !Able(end, Replace(p));
    }
    if |end.publishers| > 0 {
      assert end.publishers[0] == Published;
    }
  }

  /** What they published verifies: the check that a later reader makes accepts it. */
  method CheckAfterAll(s: State, ghost start: State, ghost steps: seq<Step>, sha: Bytes -> Digest, e: Expected)
    returns (verified: bool)
    requires Seeded(sha, e) && (forall p | 0 <= p < |start.publishers| :: start.publishers[p] == Creating)
    requires start.canonical == Encoded(e.identity, e.lease, e.snapshot) && Runs(start, steps, s)
    ensures verified <==> s.file == Stored(Encoded(e.identity, e.lease, e.snapshot))
    ensures (exists p | 0 <= p < |s.publishers| :: s.publishers[p] == Published) ==> verified
  {
    hide Encoded, Runs;
    if exists p | 0 <= p < |s.publishers| :: s.publishers[p] == Published {
      PublishedReceipt(start, steps, s, e);
    }
    if s.file.Absent? {
      return false;
    }
    verified := Decode(s.file.bytes, sha, e);
  }
}
