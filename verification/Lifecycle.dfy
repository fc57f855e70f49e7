/**
 Closing backends that share a resource owner (src/backend/core.c). Each backend has one atomic
 lifecycle word: the top bit says that closing has begun, the rest counts the children that hold a
 lease on it. A close may fail in any cleanup step and be retried; closes of owner and children run
 concurrently, so every access to a word is its own step and a compare-exchange may fail, also
 without a reason.

 One backend is closed by one caller at a time. A child registers by incrementing the word of an
 owner whose closing bit is clear.
 */
module Lifecycle {

  // ---- The word ----

  const CLOSING: nat := 0x8000_0000_0000_0000

  predicate IsClosing(word: nat) {
    word >= CLOSING
  }

  function Children(word: nat): nat {
    if IsClosing(word) then word - CLOSING else word
  }

  predicate IsWord(word: nat) {
    word < 2 * CLOSING
  }

  // ---- Backends ----

  datatype Pc =
    | Outside                     // not in a close, or one has returned
    | Entered                     // the registration looked consistent
    | Admitting(observed: nat)    // in the loop that sets the closing bit
    | Detaching                   // about to release the host workspace
    | Stopping                    // about to close the implementation
    | Leaving                     // about to load the owner's word
    | Releasing(observed: nat)    // in the loop that gives the lease back
    | Discharged                  // about to free the backend
    | Freed

  // shared: opened as a child of owner. given: how often its lease was given back.
  datatype Backend = Backend(word: nat, shared: bool, owner: nat, registered: bool, workspace: bool,
                             running: bool, given: nat, pc: Pc)

  type State = seq<Backend>

  // ---- Steps ----

  // What a cleanup step reports, and whether the resource is gone.
  datatype Cleanup = Done | FailedButGone | FailedAndKept

  datatype Step =
    | Register(owner: nat)             // a new child of owner appears
    | Open                             // a new backend without an owner appears
    | Enter(b: nat)
    | LoadOwn(b: nat)
    | Admit(b: nat, spurious: bool)
    | Detach(b: nat, outcome: Cleanup)
    | Stop(b: nat, outcome: Cleanup)
    | LoadOwner(b: nat)
    | Release(b: nat, spurious: bool)
    | Free(b: nat)

  function NewBackend(shared: bool, owner: nat): Backend {
    Backend(0, shared, owner, shared, true, true, 0, Outside)
  }

  predicate Consistent(s: State, b: nat)
    requires b < |s|
  {
    s[b].registered ==>
      s[b].owner < |s| && s[b].owner != b && Children(s[s[b].owner].word) > 0
  }

  predicate Enabled(s: State, step: Step) {
    match step
    case Register(o) =>
      o < |s| && s[o].pc != Freed && !IsClosing(s[o].word) && s[o].word + 1 < CLOSING
    case Open => true
    case Enter(b) => b < |s| && s[b].pc == Outside
    case LoadOwn(b) => b < |s| && s[b].pc == Entered
    case Admit(b, _) => b < |s| && s[b].pc.Admitting?
    case Detach(b, outcome) => b < |s| && s[b].pc == Detaching && (outcome.FailedAndKept? ==> s[b].workspace)
    case Stop(b, outcome) => b < |s| && s[b].pc == Stopping && (outcome.FailedAndKept? ==> s[b].running)
    case LoadOwner(b) => b < |s| && s[b].pc == Leaving && s[b].owner < |s|
    case Release(b, _) => b < |s| && s[b].pc.Releasing? && s[b].owner < |s|
    case Free(b) => b < |s| && s[b].pc == Discharged
  }

  function Goto(s: State, b: nat, pc: Pc): State
    requires b < |s|
  {
    s[b := s[b].(pc := pc)]
  }

  // Where a close goes once it has seen the closing bit in a word.
  function Admitted(word: nat): Pc {
    if Children(word) == 0 then Detaching else Outside
  }

  function After(s: State, step: Step): State
    requires Enabled(s, step)
  {
    match step
    case Register(o) => s[o := s[o].(word := s[o].word + 1)] + [NewBackend(true, o)]
    case Open => s + [NewBackend(false, |s|)]
    case Enter(b) => if Consistent(s, b) then Goto(s, b, Entered) else s
    case LoadOwn(b) => Goto(s, b, Admitting(s[b].word))
    case Admit(b, spurious) =>
      var observed := s[b].pc.observed;
      if IsClosing(observed) then Goto(s, b, Admitted(observed))
      else if spurious || s[b].word != observed then Goto(s, b, Admitting(s[b].word))
      else s[b := s[b].(word := observed + CLOSING, pc := Admitted(observed + CLOSING))]
    case Detach(b, outcome) =>
      if outcome.FailedAndKept? then Goto(s, b, Outside)
      else s[b := s[b].(workspace := false, pc := Stopping)]
    case Stop(b, outcome) =>
      if outcome.FailedAndKept? then Goto(s, b, Outside)
      else s[b := s[b].(running := false, pc := if s[b].registered then Leaving else Discharged)]
    case LoadOwner(b) => Goto(s, b, Releasing(s[s[b].owner].word))
    case Release(b, spurious) =>
      var o, observed := s[b].owner, s[b].pc.observed;
      if Children(observed) == 0 then Goto(s, b, Outside)
      else if spurious || s[o].word != observed then Goto(s, b, Releasing(s[o].word))
      else
        var t := s[o := s[o].(word := observed - 1)];
        t[b := t[b].(registered := false, given := t[b].given + 1, pc := Discharged)]
    case Free(b) => Goto(s, b, Freed)
  }

  // The backends whose memory a step reads or writes.
  function Touched(s: State, step: Step): set<nat>
    requires Enabled(s, step)
  {
    match step
    case Register(o) => {o}
    case Open => {}
    case Enter(b) => if s[b].registered then {b, s[b].owner} else {b}
    case LoadOwner(b) => {b, s[b].owner}
    case Release(b, _) => {b, s[b].owner}
    case _ => {step.b}
  }

  ghost predicate Runs(s: State, steps: seq<Step>, end: State)
    decreases |steps|
  {
    if steps == [] then s == end
    else Enabled(s, steps[0]) && Runs(After(s, steps[0]), steps[1..], end)
  }

  // ---- The invariant ----

  ghost predicate Leases(child: Backend, o: nat) {
    child.registered && child.owner == o
  }

  // How many of the backends from i on hold a lease on o.
  ghost function LeaseCount(s: State, o: nat, i: nat): nat
    requires i <= |s|
    decreases |s| - i
  {
    if i == |s| then 0 else (if Leases(s[i], o) then 1 else 0) + LeaseCount(s, o, i + 1)
  }

  // Past admission: the closing bit is set and no child is left.
  predicate PastAdmission(pc: Pc) {
    pc.Detaching? || pc.Stopping? || pc.Leaving? || pc.Releasing? || pc.Discharged? || pc.Freed?
  }

  ghost predicate BackendOk(x: Backend, id: nat) {
    && IsWord(x.word)
    && (PastAdmission(x.pc) ==> IsClosing(x.word) && Children(x.word) == 0)
    && (x.pc.Admitting? && IsClosing(x.pc.observed) ==>
          IsClosing(x.word) && Children(x.word) <= Children(x.pc.observed))
    && (x.pc.Admitting? ==> IsWord(x.pc.observed))
    && (x.pc.Leaving? || x.pc.Releasing? ==> x.registered)
    && (x.pc.Discharged? || x.pc.Freed? ==> !x.registered)
    && (x.registered ==> x.owner < id)
    && x.given + (if x.registered then 1 else 0) == (if x.shared then 1 else 0)
  }

  ghost predicate CountOk(s: State, o: nat)
    requires o < |s|
  {
    Children(s[o].word) == LeaseCount(s, o, 0)
  }

  ghost predicate Inv(s: State) {
    && (forall b | 0 <= b < |s| :: BackendOk(s[b], b))
    && (forall o | 0 <= o < |s| :: CountOk(s, o))
  }

  ghost function One(b: bool): nat {
    if b then 1 else 0
  }

  lemma {:induction false} LeaseCountUpdate(s: State, o: nat, i: nat, b: nat, x: Backend)
    requires i <= |s| && b < |s|
    ensures LeaseCount(s[b := x], o, i) + One(i <= b && Leases(s[b], o)) ==
            LeaseCount(s, o, i) + One(i <= b && Leases(x, o))
    decreases |s| - i
  {
    hide Leases;
    if i == |s| {
    } else {
      LeaseCountUpdate(s, o, i + 1, b, x);
    }
  }

  lemma {:induction false} LeaseCountAppend(s: State, o: nat, i: nat, x: Backend)
    requires i <= |s|
    ensures LeaseCount(s + [x], o, i) == LeaseCount(s, o, i) + One(Leases(x, o))
    decreases |s| - i
  {
    hide Leases;
    if i < |s| {
      LeaseCountAppend(s, o, i + 1, x);
    } else {
      assert LeaseCount(s + [x], o, i + 1) == 0;
    }
  }

  lemma {:induction false} LeaseCounted(s: State, o: nat, i: nat, c: nat)
    requires i <= c < |s| && Leases(s[c], o)
    ensures LeaseCount(s, o, i) > 0
    decreases |s| - i
  {
    if i == c {
    } else {
      LeaseCounted(s, o, i + 1, c);
    }
  }

  lemma {:induction false} NothingLeases(s: State, o: nat, i: nat)
    requires i <= |s| && forall c | 0 <= c < |s| :: s[c].registered ==> s[c].owner < |s| <= o
    ensures LeaseCount(s, o, i) == 0
    decreases |s| - i
  {
    if i == |s| {
    } else {
      NothingLeases(s, o, i + 1);
    }
  }

  // A lease keeps its owner's count above zero, so the owner is not past admission.
  lemma OwnerAlive(s: State, c: nat)
    requires Inv(s) && c < |s| && s[c].registered
    ensures s[c].owner < c && Children(s[s[c].owner].word) > 0 && !PastAdmission(s[s[c].owner].pc)
  {
    assert BackendOk(s[c], c);
    var o := s[c].owner;
    LeaseCounted(s, o, 0, c);
    assert CountOk(s, o) && BackendOk(s[o], o);
  }

  // ---- Every step keeps the invariant ----

  // A step that changes one backend and no lease.
  lemma LocalKeeps(s: State, b: nat, x: Backend)
    requires Inv(s) && b < |s| && BackendOk(x, b)
    requires Children(x.word) == Children(s[b].word) && x.registered == s[b].registered && x.owner == s[b].owner
    ensures Inv(s[b := x])
  {
    hide BackendOk;
    var t := s[b := x];
    forall o | 0 <= o < |t| ensures CountOk(t, o) {
      assert CountOk(s, o);
      LeaseCountUpdate(s, o, 0, b, x);
    }
  }

  lemma RegisterKeeps(s: State, o: nat)
    requires Inv(s) && Enabled(s, Register(o))
    ensures Inv(After(s, Register(o)))
  {
    var x, child := s[o].(word := s[o].word + 1), NewBackend(true, o);
    var t := s[o := x];
    var s' := After(s, Register(o));
    forall b | 0 <= b < |s'| ensures BackendOk(s'[b], b) {
      if b < |s| { assert BackendOk(s[b], b); }
    }
    forall p | 0 <= p < |s'| ensures CountOk(s', p) {
      LeaseCountAppend(t, p, 0, child);
      LeaseCountUpdate(s, p, 0, o, x);
      if p < |s| {
        assert CountOk(s, p);
      } else {
        assert forall c | 0 <= c < |s| :: BackendOk(s[c], c);
        NothingLeases(s, p, 0);
      }
    }
  }

  lemma OpenKeeps(s: State)
    requires Inv(s)
    ensures Inv(After(s, Open))
  {
    var child := NewBackend(false, |s|);
    var s' := After(s, Open);
    forall b | 0 <= b < |s'| ensures BackendOk(s'[b], b) {
      if b < |s| { assert BackendOk(s[b], b); }
    }
    forall p | 0 <= p < |s'| ensures CountOk(s', p) {
      LeaseCountAppend(s, p, 0, child);
      if p < |s| {
        assert CountOk(s, p);
      } else {
        assert forall c | 0 <= c < |s| :: BackendOk(s[c], c);
        NothingLeases(s, p, 0);
      }
    }
  }

  // The successful release: one child fewer on the owner, one lease fewer on the child.
  lemma GiveBackKeeps(s: State, b: nat)
    requires Inv(s) && b < |s| && s[b].pc.Releasing? && s[b].registered && s[b].owner < |s|
    requires Children(s[s[b].owner].word) > 0
    ensures var o := s[b].owner;
            var t := s[o := s[o].(word := s[o].word - 1)];
            Inv(t[b := t[b].(registered := false, given := t[b].given + 1, pc := Discharged)])
  {
    var o := s[b].owner;
    OwnerAlive(s, b);
    assert BackendOk(s[b], b) && BackendOk(s[o], o);
    var x := s[o].(word := s[o].word - 1);
    var t := s[o := x];
    var y := s[b].(registered := false, given := s[b].given + 1, pc := Discharged);
    var s' := t[b := y];
    forall c | 0 <= c < |s'| ensures BackendOk(s'[c], c) {
      assert BackendOk(s[c], c);
    }
    forall p | 0 <= p < |s'| ensures CountOk(s', p) { GiveBackCounts(s, b, p); }
  }

  lemma GiveBackCounts(s: State, b: nat, p: nat)
    requires Inv(s) && b < |s| && p < |s| && s[b].registered && s[b].owner < b && Children(s[s[b].owner].word) > 0
    ensures var o := s[b].owner;
            var t := s[o := s[o].(word := s[o].word - 1)];
            CountOk(t[b := t[b].(registered := false, given := t[b].given + 1, pc := Discharged)], p)
  {
    hide LeaseCount;
    var o := s[b].owner;
    var x := s[o].(word := s[o].word - 1);
    var t := s[o := x];
    LeaseCountUpdate(s, p, 0, o, x);
    LeaseCountUpdate(t, p, 0, b, t[b].(registered := false, given := t[b].given + 1, pc := Discharged));
    assert CountOk(s, p);
  }

  lemma StepKeepsInv(s: State, step: Step)
    requires Inv(s) && Enabled(s, step)
    ensures Inv(After(s, step))
  {
    hide Inv, LeaseCount;
    match step {
      case Register(o) => RegisterKeeps(s, o);
      case Open => OpenKeeps(s);
      case Release(b, spurious) => ReleaseKeeps(s, b, spurious);
      case _ => OwnStepKeeps(s, step);
    }
  }

  lemma ReleaseKeeps(s: State, b: nat, spurious: bool)
    requires Inv(s) && Enabled(s, Release(b, spurious))
    ensures Inv(After(s, Release(b, spurious)))
  {
    assert BackendOk(s[b], b);
    var o, observed := s[b].owner, s[b].pc.observed;
    if Children(observed) == 0 {
      LocalKeeps(s, b, s[b].(pc := Outside));
    } else if spurious || s[o].word != observed {
      LocalKeeps(s, b, s[b].(pc := Releasing(s[o].word)));
    } else {
      OwnerAlive(s, b);
      GiveBackKeeps(s, b);
    }
  }

  lemma OwnStepKeeps(s: State, step: Step)
    requires Inv(s) && Enabled(s, step) && !step.Register? && !step.Open? && !step.Release?
    ensures Inv(After(s, step))
  {
    var b := step.b;
    assert BackendOk(s[b], b);
    var x := After(s, step)[b];
    assert After(s, step) == s[b := x];
    OwnStepOk(s, step);
    LocalKeeps(s, b, x);
  }

  lemma OwnStepOk(s: State, step: Step)
    requires Enabled(s, step) && !step.Register? && !step.Open? && !step.Release?
    requires BackendOk(s[step.b], step.b)
    ensures var x, y := s[step.b], After(s, step)[step.b];
            && BackendOk(y, step.b) && Children(y.word) == Children(x.word)
            && y.registered == x.registered && y.owner == x.owner
  {
  }

  // ---- Safety ----

  /** A step never reads or writes a backend that has been freed. */
  lemma NoUseAfterFree(s: State, step: Step, x: nat)
    requires Inv(s) && Enabled(s, step) && x in Touched(s, step)
    ensures x < |s| && !s[x].pc.Freed?
  {
    if step.Enter? || step.LoadOwner? || step.Release? {
      assert BackendOk(s[step.b], step.b);
      if s[step.b].registered { OwnerAlive(s, step.b); }
    }
  }

  /** Once its lease is given back, a child never touches its owner again. */
  lemma GivenBackStaysAway(s: State, step: Step, c: nat)
    requires Inv(s) && c < |s| && s[c].shared && s[c].given == 1
    requires Enabled(s, step) && !step.Register? && !step.Open? && step.b == c
    ensures Touched(s, step) == {c}
  {
    assert BackendOk(s[c], c);
  }

  // What no step undoes.
  ghost predicate Kept(x: Backend, y: Backend) {
    && (IsClosing(x.word) ==> IsClosing(y.word))
    && (x.pc.Freed? ==> y.pc.Freed?)
    && x.given <= y.given && (y.registered ==> x.registered) && y.shared == x.shared && y.owner == x.owner
  }

  lemma StepKeeps(s: State, step: Step, b: nat)
    requires Inv(s) && Enabled(s, step) && b < |s|
    ensures b < |After(s, step)| && Kept(s[b], After(s, step)[b])
  {
    hide After, Kept, BackendOk;
    KnownOk(s, b);
    if step.Release? && s[step.b].registered { OwnerAlive(s, step.b); }
    StepKeepsOne(s, step, b);
  }

  lemma KnownOk(s: State, b: nat)
    requires Inv(s) && b < |s|
    ensures BackendOk(s[b], b)
  {
  }

  lemma StepKeepsOne(s: State, step: Step, b: nat)
    requires Enabled(s, step) && b < |s| && BackendOk(s[b], b)
    requires step.Release? && s[step.b].registered ==> s[step.b].owner < step.b && Children(s[s[step.b].owner].word) > 0
    ensures b < |After(s, step)| && Kept(s[b], After(s, step)[b])
  {
    if step.Release? {
      ReleaseKeepsOne(s, step.b, step.spurious, b);
    } else if step.Register? || step.Open? {
    } else if step.b != b {
    }
  }

  lemma ReleaseKeepsOne(s: State, c: nat, spurious: bool, b: nat)
    requires Enabled(s, Release(c, spurious)) && b < |s| && BackendOk(s[b], b)
    requires s[c].registered ==> s[c].owner < c && Children(s[s[c].owner].word) > 0
    ensures Kept(s[b], After(s, Release(c, spurious))[b])
  {
  }

  lemma {:induction false} RunKeeps(s: State, steps: seq<Step>, end: State)
    requires Inv(s) && Runs(s, steps, end)
    ensures Inv(end) && |s| <= |end| && forall b | 0 <= b < |s| :: Kept(s[b], end[b])
    decreases |steps|
  {
    hide Inv, Kept, After, Enabled;
    if steps == [] {
      forall b | 0 <= b < |s| ensures Kept(s[b], end[b]) { KeptTrivially(s[b]); }
    } else {
      var next := After(s, steps[0]);
      StepKeepsInv(s, steps[0]);
      RunKeeps(next, steps[1..], end);
      forall b | 0 <= b < |s| ensures b < |next| && Kept(s[b], end[b]) {
        StepKeeps(s, steps[0], b);
        KeptTransitive(s[b], next[b], end[b]);
      }
      SizeGrows(s, steps[0]);
    }
  }

  lemma KeptTrivially(x: Backend)
    ensures Kept(x, x)
  {
  }

  lemma KeptTransitive(x: Backend, y: Backend, z: Backend)
    requires Kept(x, y) && Kept(y, z)
    ensures Kept(x, z)
  {
  }

  lemma SizeGrows(s: State, step: Step)
    requires Enabled(s, step)
    ensures |s| <= |After(s, step)|
  {
  }

  lemma InitialInv()
    ensures Inv([])
  {
  }

  /**
   In every state of every interleaving: the child field is the number of leases not given back;
   no lease is given back twice, and a freed child has given its lease back; a freed backend has
   its closing bit set and is leased by nobody.
   */
  lemma EveryInterleaving(steps: seq<Step>, s: State, b: nat)
    requires Runs([], steps, s) && b < |s|
    ensures Children(s[b].word) == LeaseCount(s, b, 0)
    ensures s[b].given <= 1 && (s[b].shared && s[b].pc.Freed? ==> s[b].given == 1)
    ensures s[b].pc.Freed? ==> IsClosing(s[b].word) && forall c | 0 <= c < |s| :: !Leases(s[c], b)
  {
    InitialInv();
    RunKeeps([], steps, s);
    assert BackendOk(s[b], b) && CountOk(s, b);
    if s[b].pc.Freed? {
      forall c | 0 <= c < |s| ensures !Leases(s[c], b) {
        if Leases(s[c], b) { LeaseCounted(s, b, 0, c); }
      }
    }
  }

  // ---- Retrying ----

  /**
   A close that was refused can be retried to the end: from any reachable state in which a backend is
   outside a close and has no children, a run of its own steps whose cleanups succeed frees it.
   */
  lemma RetryFrees(s: State, b: nat) returns (steps: seq<Step>, end: State)
    requires Inv(s) && b < |s| && s[b].pc == Outside && Children(s[b].word) == 0
    ensures Runs(s, steps, end) && b < |end| && end[b].pc.Freed?
  {
    hide Runs, LeaseCount;
    KnownOk(s, b);
    if s[b].registered { OwnerAlive(s, b); }
    var s1 := After(s, Enter(b));
    var s2 := After(s1, LoadOwn(b));
    var s3 := After(s2, Admit(b, false));
    steps, end := CleanAndFree(s3, b);
    RunPrepend(s2, Admit(b, false), steps, end);
    steps := [Admit(b, false)] + steps;
    RunPrepend(s1, LoadOwn(b), steps, end);
    steps := [LoadOwn(b)] + steps;
    RunPrepend(s, Enter(b), steps, end);
    steps := [Enter(b)] + steps;
  }

  // A registered backend's lease is still counted by its owner.
  ghost predicate Leased(s: State, b: nat)
    requires b < |s|
  {
    s[b].registered ==> s[b].owner < b && Children(s[s[b].owner].word) > 0
  }

  lemma CleanAndFree(s: State, b: nat) returns (steps: seq<Step>, end: State)
    requires b < |s| && s[b].pc == Detaching && Leased(s, b)
    ensures Runs(s, steps, end) && b < |end| && end[b].pc.Freed?
  {
    hide Runs;
    var s1 := After(s, Detach(b, Done));
    var s2 := After(s1, Stop(b, Done));
    steps, end := LeaveAndFree(s2, b);
    RunPrepend(s1, Stop(b, Done), steps, end);
    steps := [Stop(b, Done)] + steps;
    RunPrepend(s, Detach(b, Done), steps, end);
    steps := [Detach(b, Done)] + steps;
  }

  lemma RunPrepend(s: State, step: Step, steps: seq<Step>, end: State)
    requires Enabled(s, step) && Runs(After(s, step), steps, end)
    ensures Runs(s, [step] + steps, end)
  {
    assert ([step] + steps)[1..] == steps;
  }

  lemma LeaveAndFree(s: State, b: nat) returns (steps: seq<Step>, end: State)
    requires b < |s| && Leased(s, b)
    requires s[b].pc == if s[b].registered then Leaving else Discharged
    ensures Runs(s, steps, end) && b < |end| && end[b].pc.Freed?
  {
    if s[b].registered {
      var s1 := After(s, LoadOwner(b));
      var s2 := After(s1, Release(b, false));
      end := Goto(s2, b, Freed);
      RunPrepend(s2, Free(b), [], end);
      RunPrepend(s1, Release(b, false), [Free(b)] + [], end);
      steps := [Release(b, false)] + ([Free(b)] + []);
      RunPrepend(s, LoadOwner(b), steps, end);
      steps := [LoadOwner(b)] + steps;
    } else {
      end := Goto(s, b, Freed);
      RunPrepend(s, Free(b), [], end);
      steps := [Free(b)] + [];
    }
  }
}
