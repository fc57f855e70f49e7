/**
 The QA runner's worker pools (tools/qa.py) as a state machine. Any number of runner processes, each
 with its own queue, workers and build lock, share the resource locks. A worker takes the locks of its
 test in ascending order, builds under its process's build lock, runs the test, and releases the
 locks in reverse order. Every step that can fail may fail at any time.

 A resource lock is a file under a lock root: one root for the whole host, or the root of a checkout.
 It is taken through a new file description each time, so a worker that asks for a lock it already
 holds waits like any other.
 */
module WorkerPool {
  import opened LockOrder

  // A lock file: its lock root, and the name of its resource.
  datatype Slot = Slot(root: nat, name: string)

  datatype Test = Test(id: nat, locks: seq<Slot>, repeats: nat)

  datatype Phase =
    | Idle
    | Taking(test: Test, held: nat)     // holds locks[..held]
    | Building(test: Test)              // holds all of them and the build lock
    | Running(test: Test, left: nat)    // holds all of them; left repeats to go
    | Releasing(test: Test, held: nat)  // holds locks[..held]

  datatype Worker = Worker(process: nat, phase: Phase)

  datatype Lock = Resource(slot: Slot) | Build(process: nat)

  datatype State = State(workers: seq<Worker>, queues: seq<seq<Test>>, owner: map<Lock, nat>, results: multiset<Test>)

  // ---- Moves ----

  datatype Action =
    | Start | Skip                     // take the next test; its requirements are met or not
    | Acquire | AcquireFails           // the next lock; a lock file or the log is refused
    | EnterBuild | LeaveBuild(built: bool)
    | RunOnce(passed: bool) | RunsDone
    | Release | Report                 // the last lock taken; the result

  predicate Enabled(s: State, w: nat, a: Action)
    requires w < |s.workers|
  {
    var worker := s.workers[w];
    match a
    case Start => worker.phase.Idle? && worker.process < |s.queues| && s.queues[worker.process] != []
    case Skip => worker.phase.Idle? && worker.process < |s.queues| && s.queues[worker.process] != []
    case Acquire =>
      worker.phase.Taking? && worker.phase.held < |worker.phase.test.locks| &&
      Resource(worker.phase.test.locks[worker.phase.held]) !in s.owner
    case AcquireFails => worker.phase.Taking?
    case EnterBuild =>
      worker.phase.Taking? && worker.phase.held == |worker.phase.test.locks| &&
      Build(worker.process) !in s.owner
    case LeaveBuild(_) => worker.phase.Building?
    case RunOnce(_) => worker.phase.Running? && worker.phase.left > 0
    case RunsDone => worker.phase.Running? && worker.phase.left == 0
    case Release => worker.phase.Releasing? && 0 < worker.phase.held <= |worker.phase.test.locks|
    case Report => worker.phase.Releasing? && worker.phase.held == 0
  }

  function WithPhase(s: State, w: nat, phase: Phase): State
    requires w < |s.workers|
  {
    s.(workers := s.workers[w := s.workers[w].(phase := phase)])
  }

  function After(s: State, w: nat, a: Action): State
    requires w < |s.workers| && Enabled(s, w, a)
  {
    var worker := s.workers[w];
    var p := worker.process;
    var phase := worker.phase;
    match a
    case Start =>
      WithPhase(s.(queues := s.queues[p := s.queues[p][1..]]), w, Taking(s.queues[p][0], 0))
    case Skip =>
      s.(queues := s.queues[p := s.queues[p][1..]], results := s.results + multiset{s.queues[p][0]})
    case Acquire =>
      WithPhase(s.(owner := s.owner[Resource(phase.test.locks[phase.held]) := w]), w,
                Taking(phase.test, phase.held + 1))
    case AcquireFails => WithPhase(s, w, Releasing(phase.test, phase.held))
    case EnterBuild => WithPhase(s.(owner := s.owner[Build(p) := w]), w, Building(phase.test))
    case LeaveBuild(built) =>
      WithPhase(s.(owner := s.owner - {Build(p)}), w,
                if built then Running(phase.test, phase.test.repeats)
                else Releasing(phase.test, |phase.test.locks|))
    case RunOnce(passed) =>
      WithPhase(s, w, if passed then Running(phase.test, phase.left - 1)
                      else Releasing(phase.test, |phase.test.locks|))
    case RunsDone => WithPhase(s, w, Releasing(phase.test, |phase.test.locks|))
    case Release =>
      WithPhase(s.(owner := s.owner - {Resource(phase.test.locks[phase.held - 1])}), w,
                Releasing(phase.test, phase.held - 1))
    case Report => WithPhase(s.(results := s.results + multiset{phase.test}), w, Idle)
  }

  datatype Move = Move(worker: nat, action: Action)

  // The state after a run of moves; a run may stop anywhere.
  ghost predicate Runs(s: State, moves: seq<Move>, end: State)
    decreases |moves|
  {
    if moves == [] then s == end
    else
      var m := moves[0];
      m.worker < |s.workers| && Enabled(s, m.worker, m.action) &&
      Runs(After(s, m.worker, m.action), moves[1..], end)
  }

  // ---- The invariant ----

  ghost function HeldCount(phase: Phase): nat {
    match phase
    case Idle => 0
    case Taking(_, held) => held
    case Building(test) => |test.locks|
    case Running(test, _) => |test.locks|
    case Releasing(_, held) => held
  }

  ghost predicate Holds(worker: Worker, lock: Lock) {
    match lock
    case Build(p) => worker.phase.Building? && worker.process == p
    case Resource(slot) =>
      !worker.phase.Idle? &&
      exists k | 0 <= k < HeldCount(worker.phase) && k < |worker.phase.test.locks| ::
        worker.phase.test.locks[k] == slot
  }

  // The names of a lock list ascend strictly.
  ghost predicate Rising(locks: seq<Slot>) {
    forall i, j | 0 <= i < j < |locks| :: Less(locks[i].name, locks[j].name)
  }

  // Among the first n locks none is listed twice.
  ghost predicate Apart(locks: seq<Slot>, n: nat) {
    forall i, j | 0 <= i < j < n && j < |locks| :: locks[i] != locks[j]
  }

  ghost predicate PhaseSafe(worker: Worker) {
    !worker.phase.Idle? ==>
      HeldCount(worker.phase) <= |worker.phase.test.locks| && Apart(worker.phase.test.locks, HeldCount(worker.phase))
  }

  ghost predicate PhaseOk(worker: Worker) {
    !worker.phase.Idle? ==> Rising(worker.phase.test.locks)
  }

  // The lock table says exactly what the phases say.
  ghost predicate OwnerOk(s: State, w: nat, lock: Lock)
    requires w < |s.workers|
  {
    (lock in s.owner && s.owner[lock] == w) <==> Holds(s.workers[w], lock)
  }

  ghost predicate TableOk(s: State) {
    && (forall lock | lock in s.owner :: s.owner[lock] < |s.workers|)
    && (forall w: nat, lock | w < |s.workers| :: OwnerOk(s, w, lock))
  }

  ghost predicate QueuesOk(s: State) {
    forall p, i | 0 <= p < |s.queues| && 0 <= i < |s.queues[p]| :: Rising(s.queues[p][i].locks)
  }

  // What holds for any lock lists.
  ghost predicate Safe(s: State) {
    (forall w | 0 <= w < |s.workers| :: PhaseSafe(s.workers[w])) && TableOk(s)
  }

  // What holds when the lists ascend.
  ghost predicate Inv(s: State) {
    Safe(s) && (forall w | 0 <= w < |s.workers| :: PhaseOk(s.workers[w])) && QueuesOk(s)
  }

  ghost predicate AtRest(s: State) {
    && (forall w | 0 <= w < |s.workers| :: s.workers[w].phase.Idle?)
    && s.owner == map[] && s.results == multiset{}
  }

  ghost predicate Initial(s: State) {
    AtRest(s) && QueuesOk(s)
  }

  lemma RestSafe(s: State)
    requires AtRest(s)
    ensures Safe(s)
  {
  }

  lemma InitialInv(s: State)
    requires Initial(s)
    ensures Inv(s)
  {
    RestSafe(s);
  }

  // ---- Lock lists from a registry ----

  // The slots of a lock plan; the registry gives each resource a scope, and so a root.
  function Slots(plan: seq<string>, root: string -> nat): seq<Slot> {
    seq(|plan|, i requires 0 <= i < |plan| => Slot(root(plan[i]), plan[i]))
  }

  // A test as the runner takes it from a registry.
  ghost predicate Planned(test: Test, resources: seq<string>, exclusive: set<string>, root: string -> nat) {
    test.locks == Slots(LockPlan(resources, exclusive), root)
  }

  // The validator refuses a resource list with repeats.
  ghost predicate FromRegistry(test: Test, exclusive: set<string>) {
    exists resources, root :: Distinct(resources) && Planned(test, resources, exclusive, root)
  }

  /** Queues of validated tests are what the pool needs: every lock list ascends. */
  lemma RegistryQueues(s: State, exclusive: set<string>)
    requires forall p, i | 0 <= p < |s.queues| && 0 <= i < |s.queues[p]| ::
               FromRegistry(s.queues[p][i], exclusive)
    ensures QueuesOk(s)
  {
    forall p, i | 0 <= p < |s.queues| && 0 <= i < |s.queues[p]| ensures Rising(s.queues[p][i].locks) {
      assert FromRegistry(s.queues[p][i], exclusive);
      var resources, root :| Distinct(resources) && Planned(s.queues[p][i], resources, exclusive, root);
      PlanAscends(resources, exclusive);
    }
  }

  // ---- Every move keeps the invariant ----

  lemma TableKept(s: State, s': State, w: nat)
    requires w < |s.workers| && TableOk(s) && s'.owner == s.owner
    requires |s'.workers| == |s.workers| && s'.workers == s.workers[w := s'.workers[w]]
    requires forall x :: Holds(s'.workers[w], x) <==> Holds(s.workers[w], x)
    ensures TableOk(s')
  {
    hide Holds;
    forall v: nat, x | v < |s'.workers| ensures OwnerOk(s', v, x) {
      assert OwnerOk(s, v, x);
    }
  }

  lemma TableGrows(s: State, s': State, w: nat, lock: Lock)
    requires w < |s.workers| && TableOk(s) && lock !in s.owner && s'.owner == s.owner[lock := w]
    requires |s'.workers| == |s.workers| && s'.workers == s.workers[w := s'.workers[w]]
    requires forall x :: Holds(s'.workers[w], x) <==> Holds(s.workers[w], x) || x == lock
    ensures TableOk(s')
  {
    hide Holds;
    forall v: nat, x | v < |s'.workers| ensures OwnerOk(s', v, x) {
      assert OwnerOk(s, v, x);
    }
  }

  lemma TableShrinks(s: State, s': State, w: nat, lock: Lock)
    requires w < |s.workers| && TableOk(s) && Holds(s.workers[w], lock) && s'.owner == s.owner - {lock}
    requires |s'.workers| == |s.workers| && s'.workers == s.workers[w := s'.workers[w]]
    requires forall x :: Holds(s'.workers[w], x) <==> Holds(s.workers[w], x) && x != lock
    ensures TableOk(s')
  {
    hide Holds;
    assert OwnerOk(s, w, lock);
    forall v: nat, x | v < |s'.workers| ensures OwnerOk(s', v, x) {
      assert OwnerOk(s, v, x);
    }
  }

  // A held lock is in the table, so a lock that is free is none of the held ones.
  lemma FreeIsNew(s: State, w: nat)
    requires w < |s.workers| && Safe(s) && Enabled(s, w, Acquire)
    ensures Apart(s.workers[w].phase.test.locks, s.workers[w].phase.held + 1)
  {
    var worker := s.workers[w];
    var locks, held := worker.phase.test.locks, worker.phase.held;
    assert PhaseSafe(worker);
    forall i | 0 <= i < held ensures locks[i] != locks[held] {
      assert Holds(worker, Resource(locks[i]));
      assert OwnerOk(s, w, Resource(locks[i]));
    }
  }

  lemma AcquireKeeps(s: State, w: nat)
    requires w < |s.workers| && Safe(s) && Enabled(s, w, Acquire)
    ensures TableOk(After(s, w, Acquire))
  {
    var before, after := s.workers[w], After(s, w, Acquire).workers[w];
    var lock := Resource(before.phase.test.locks[before.phase.held]);
    forall x ensures Holds(after, x) <==> Holds(before, x) || x == lock {
      if x == lock { assert before.phase.test.locks[before.phase.held] == x.slot; }
    }
    TableGrows(s, After(s, w, Acquire), w, lock);
  }

  lemma ReleaseKeeps(s: State, w: nat)
    requires w < |s.workers| && Safe(s) && Enabled(s, w, Release)
    ensures TableOk(After(s, w, Release))
  {
    var before, after := s.workers[w], After(s, w, Release).workers[w];
    var locks, k := before.phase.test.locks, before.phase.held - 1;
    assert PhaseSafe(before);
    forall x ensures Holds(after, x) <==> Holds(before, x) && x != Resource(locks[k]) {
      if Holds(before, x) && x != Resource(locks[k]) && x.Resource? {
        var i :| 0 <= i < before.phase.held && locks[i] == x.slot;
        assert i < k;
      }
    }
    assert Holds(before, Resource(locks[k]));
    TableShrinks(s, After(s, w, Release), w, Resource(locks[k]));
  }

  lemma BuildKeeps(s: State, w: nat, a: Action)
    requires w < |s.workers| && Safe(s) && Enabled(s, w, a) && (a.EnterBuild? || a.LeaveBuild?)
    ensures TableOk(After(s, w, a))
  {
    var s' := After(s, w, a);
    var lock := Build(s.workers[w].process);
    if a.EnterBuild? {
      assert forall x :: Holds(s'.workers[w], x) <==> Holds(s.workers[w], x) || x == lock;
      TableGrows(s, s', w, lock);
    } else {
      assert forall x :: Holds(s'.workers[w], x) <==> Holds(s.workers[w], x) && x != lock;
      TableShrinks(s, s', w, lock);
    }
  }

  // The moves that neither take nor give back a lock.
  lemma OthersKeep(s: State, w: nat, a: Action)
    requires w < |s.workers| && Safe(s) && Enabled(s, w, a)
    requires a.Start? || a.Skip? || a.AcquireFails? || a.RunOnce? || a.RunsDone? || a.Report?
    ensures TableOk(After(s, w, a))
  {
    var s' := After(s, w, a);
    assert s'.workers == s.workers[w := s'.workers[w]];
    assert forall x :: Holds(s'.workers[w], x) <==> Holds(s.workers[w], x);
    TableKept(s, s', w);
  }

  lemma QueuesKept(s: State, w: nat, a: Action)
    requires w < |s.workers| && QueuesOk(s) && Enabled(s, w, a)
    ensures QueuesOk(After(s, w, a))
  {
    if a.Start? || a.Skip? {
      var p := s.workers[w].process;
      assert forall i | 0 <= i < |s.queues[p]| - 1 :: s.queues[p][1..][i] == s.queues[p][i + 1];
    }
  }

  /** Every move keeps the lock table equal to what the workers hold, whatever the lock lists. */
  lemma MoveKeepsSafe(s: State, w: nat, a: Action)
    requires w < |s.workers| && Safe(s) && Enabled(s, w, a)
    ensures Safe(After(s, w, a))
  {
    hide TableOk;
    if a.Acquire? {
      AcquireKeeps(s, w);
    } else if a.Release? {
      ReleaseKeeps(s, w);
    } else if a.EnterBuild? || a.LeaveBuild? {
      BuildKeeps(s, w, a);
    } else {
      OthersKeep(s, w, a);
    }
    PhasesKept(s, w, a);
  }

  lemma PhasesKept(s: State, w: nat, a: Action)
    requires w < |s.workers| && Safe(s) && Enabled(s, w, a)
    ensures forall v | 0 <= v < |After(s, w, a).workers| :: PhaseSafe(After(s, w, a).workers[v])
  {
    hide TableOk;
    assert PhaseSafe(s.workers[w]);
    if a.Acquire? { FreeIsNew(s, w); }
  }

  lemma MoveKeepsInv(s: State, w: nat, a: Action)
    requires w < |s.workers| && Inv(s) && Enabled(s, w, a)
    ensures Inv(After(s, w, a))
  {
    hide Safe, QueuesOk, Rising;
    MoveKeepsSafe(s, w, a);
    QueuesKept(s, w, a);
    OrderKept(s, w, a);
  }

  lemma OrderKept(s: State, w: nat, a: Action)
    requires w < |s.workers| && Inv(s) && Enabled(s, w, a)
    ensures forall v | 0 <= v < |After(s, w, a).workers| :: PhaseOk(After(s, w, a).workers[v])
  {
    hide Rising, Safe;
    assert PhaseOk(s.workers[w]);
  }

  // ---- Safety ----

  /** No lock is ever held by two workers. */
  lemma MutualExclusion(s: State, v: nat, w: nat, lock: Lock)
    requires Safe(s) && v < |s.workers| && w < |s.workers|
    requires Holds(s.workers[v], lock) && Holds(s.workers[w], lock)
    ensures v == w
  {
    hide Holds;
    assert OwnerOk(s, v, lock) && OwnerOk(s, w, lock);
  }

  // ---- Progress ----

  // A move that does not stand for a failure.
  predicate IsProgress(a: Action) {
    a == Start || a == Acquire || a == EnterBuild || a == LeaveBuild(true) || a == RunOnce(true) ||
    a == RunsDone || a == Release || a == Report
  }

  ghost predicate CanProgress(s: State) {
    exists w: nat, a | w < |s.workers| && IsProgress(a) :: Enabled(s, w, a)
  }

  ghost predicate Finished(s: State) {
    && (forall w | 0 <= w < |s.workers| :: s.workers[w].phase.Idle?)
    && (forall p | 0 <= p < |s.queues| :: s.queues[p] == [])
  }

  ghost predicate HasWorker(s: State, p: nat) {
    exists w | 0 <= w < |s.workers| :: s.workers[w].process == p
  }

  // Every process has a worker: --jobs is positive.
  ghost predicate Staffed(s: State) {
    forall p | 0 <= p < |s.queues| :: HasWorker(s, p)
  }

  ghost predicate Waits(s: State, w: nat) {
    && w < |s.workers| && s.workers[w].phase.Taking?
    && s.workers[w].phase.held < |s.workers[w].phase.test.locks|
  }

  ghost function Wanted(s: State, w: nat): Slot
    requires Waits(s, w)
  {
    s.workers[w].phase.test.locks[s.workers[w].phase.held]
  }

  // The waiting worker whose wanted name is last in the order.
  lemma {:induction false} LastWanted(s: State, n: nat) returns (top: nat)
    requires n <= |s.workers| && exists w: nat | w < n :: Waits(s, w)
    ensures top < n && Waits(s, top)
    ensures forall v: nat | v < n && Waits(s, v) :: !Less(Wanted(s, top).name, Wanted(s, v).name)
  {
    if exists w: nat | w < n - 1 :: Waits(s, w) {
      top := LastWanted(s, n - 1);
      if Waits(s, n - 1) && Less(Wanted(s, top).name, Wanted(s, n - 1).name) {
        forall v: nat | v < n && Waits(s, v) ensures !Less(Wanted(s, n - 1).name, Wanted(s, v).name) {
          if Less(Wanted(s, n - 1).name, Wanted(s, v).name) {
            LessIrreflexive(Wanted(s, v).name);
            if v < n - 1 { LessTransitive(Wanted(s, top).name, Wanted(s, n - 1).name, Wanted(s, v).name); }
          }
        }
        top := n - 1;
      }
    } else {
      top := n - 1;
      LessIrreflexive(Wanted(s, top).name);
    }
  }

  // A worker that holds a name and still waits, waits for a later name.
  lemma WaitsForLater(s: State, w: nat, slot: Slot)
    requires Inv(s) && Waits(s, w) && Holds(s.workers[w], Resource(slot))
    ensures Less(slot.name, Wanted(s, w).name)
  {
    assert PhaseOk(s.workers[w]);
  }

  // A worker that is not waiting for a lock can move on its own.
  lemma BusyMoves(s: State, w: nat)
    requires Inv(s) && w < |s.workers|
    requires s.workers[w].phase.Building? || s.workers[w].phase.Running? || s.workers[w].phase.Releasing?
    ensures CanProgress(s)
  {
    hide TableOk, QueuesOk;
    assert PhaseSafe(s.workers[w]);
    var phase := s.workers[w].phase;
    var a := if phase.Building? then LeaveBuild(true)
             else if phase.Running? then (if phase.left > 0 then RunOnce(true) else RunsDone)
             else if phase.held > 0 then Release else Report;
    assert Enabled(s, w, a) && IsProgress(a);
  }

  // If every worker is idle or taking locks, one that takes locks can move.
  lemma TakerMoves(s: State, w: nat)
    requires Inv(s) && w < |s.workers| && s.workers[w].phase.Taking?
    requires forall v | 0 <= v < |s.workers| :: s.workers[v].phase.Idle? || s.workers[v].phase.Taking?
    ensures CanProgress(s)
  {
    if Waits(s, w) {
      var top := LastWanted(s, |s.workers|);
      var lock := Resource(Wanted(s, top));
      if lock in s.owner {
        var v := s.owner[lock];
        assert OwnerOk(s, v, lock);
        HolderAdvances(s, v, lock.slot, top);
      } else {
        assert Enabled(s, top, Acquire) && IsProgress(Acquire);
      }
    } else {
      BuildLockFree(s, w);
      assert PhaseSafe(s.workers[w]);
      assert Enabled(s, w, EnterBuild) && IsProgress(EnterBuild);
    }
  }

  lemma BuildLockFree(s: State, w: nat)
    requires Inv(s) && w < |s.workers|
    requires forall v | 0 <= v < |s.workers| :: s.workers[v].phase.Idle? || s.workers[v].phase.Taking?
    ensures Build(s.workers[w].process) !in s.owner
  {
    var lock := Build(s.workers[w].process);
    assert lock in s.owner ==> OwnerOk(s, s.owner[lock], lock);
  }

  // The holder of the last wanted name waits for nothing.
  lemma HolderAdvances(s: State, v: nat, slot: Slot, top: nat)
    requires Inv(s) && v < |s.workers| && s.workers[v].phase.Taking? && Holds(s.workers[v], Resource(slot))
    requires Waits(s, top) && Wanted(s, top) == slot
    requires forall u: nat | u < |s.workers| && Waits(s, u) :: !Less(slot.name, Wanted(s, u).name)
    requires forall u | 0 <= u < |s.workers| :: s.workers[u].phase.Idle? || s.workers[u].phase.Taking?
    ensures CanProgress(s)
  {
    if Waits(s, v) {
      WaitsForLater(s, v, slot);
    } else {
      BuildLockFree(s, v);
      assert PhaseSafe(s.workers[v]);
      assert Enabled(s, v, EnterBuild) && IsProgress(EnterBuild);
    }
  }

  /** There is no deadlock: until all work is done, some worker can move without a failure. */
  lemma NoDeadlock(s: State)
    requires Inv(s) && Staffed(s) && !Finished(s)
    ensures CanProgress(s)
  {
    hide TableOk, QueuesOk;
    if w: nat :| w < |s.workers| && !s.workers[w].phase.Idle? && !s.workers[w].phase.Taking? {
      BusyMoves(s, w);
    } else if w: nat :| w < |s.workers| && s.workers[w].phase.Taking? {
      TakerMoves(s, w);
    } else {
      var p :| 0 <= p < |s.queues| && s.queues[p] != [];
      assert HasWorker(s, p);
      var w :| 0 <= w < |s.workers| && s.workers[w].process == p;
      assert Enabled(s, w, Start) && IsProgress(Start);
    }
  }

  // ---- Termination and conservation of work ----

  // What is still to be done: an upper bound on the moves, and the tests.
  datatype Load = Load(moves: nat, tests: multiset<Test>)

  ghost function Add(a: Load, b: Load): Load {
    Load(a.moves + b.moves, a.tests + b.tests)
  }

  ghost function PhaseLoad(phase: Phase): Load {
    match phase
    case Idle => Load(0, multiset{})
    case Taking(test, held) =>
      Load(test.repeats + |test.locks| + 4 + (if held <= |test.locks| then |test.locks| - held else 0),
           multiset{test})
    case Building(test) => Load(test.repeats + |test.locks| + 3, multiset{test})
    case Running(test, left) => Load(left + |test.locks| + 2, multiset{test})
    case Releasing(test, held) => Load(held + 1, multiset{test})
  }

  ghost function QueuedLoad(test: Test): Load {
    Load(test.repeats + 2 * |test.locks| + 5, multiset{test})
  }

  ghost function QueueLoad(queue: seq<Test>): Load {
    if queue == [] then Load(0, multiset{}) else Add(QueuedLoad(queue[0]), QueueLoad(queue[1..]))
  }

  ghost function WorkersLoad(workers: seq<Worker>, i: nat): Load
    requires i <= |workers|
    decreases |workers| - i
  {
    if i == |workers| then Load(0, multiset{})
    else Add(PhaseLoad(workers[i].phase), WorkersLoad(workers, i + 1))
  }

  ghost function QueuesLoad(queues: seq<seq<Test>>, i: nat): Load
    requires i <= |queues|
    decreases |queues| - i
  {
    if i == |queues| then Load(0, multiset{})
    else Add(QueueLoad(queues[i]), QueuesLoad(queues, i + 1))
  }

  ghost function Pending(s: State): Load {
    Add(WorkersLoad(s.workers, 0), QueuesLoad(s.queues, 0))
  }

  // Every test of the run: reported or still to be done.
  ghost function Tests(s: State): multiset<Test> {
    s.results + Pending(s).tests
  }

  lemma Rearrange(a: Load, b: Load, c: Load)
    ensures Add(Add(a, b), c) == Add(Add(c, b), a) == Add(a, Add(b, c))
  {
  }

  // Replacing one worker exchanges its load; replacing one queue likewise.
  lemma {:induction false} WorkersLoadUpdate(workers: seq<Worker>, i: nat, w: nat, x: Worker)
    requires i <= w < |workers|
    ensures Add(WorkersLoad(workers[w := x], i), PhaseLoad(workers[w].phase)) ==
            Add(WorkersLoad(workers, i), PhaseLoad(x.phase))
    decreases |workers| - i
  {
    hide PhaseLoad, Add;
    var here := PhaseLoad(workers[i].phase);
    if i == w {
      WorkersLoadBeyond(workers, i + 1, w, x);
      Rearrange(PhaseLoad(x.phase), WorkersLoad(workers, i + 1), here);
    } else {
      WorkersLoadUpdate(workers, i + 1, w, x);
      Rearrange(here, WorkersLoad(workers[w := x], i + 1), PhaseLoad(workers[w].phase));
      Rearrange(here, WorkersLoad(workers, i + 1), PhaseLoad(x.phase));
    }
  }

  lemma {:induction false} WorkersLoadBeyond(workers: seq<Worker>, i: nat, w: nat, x: Worker)
    requires w < i <= |workers|
    ensures WorkersLoad(workers[w := x], i) == WorkersLoad(workers, i)
    decreases |workers| - i
  {
    hide PhaseLoad, Add;
    if i == |workers| {
    } else {
      WorkersLoadBeyond(workers, i + 1, w, x);
      assert workers[w := x][i] == workers[i];
    }
  }

  lemma {:induction false} QueuesLoadUpdate(queues: seq<seq<Test>>, i: nat, p: nat, x: seq<Test>)
    requires i <= p < |queues|
    ensures Add(QueuesLoad(queues[p := x], i), QueueLoad(queues[p])) ==
            Add(QueuesLoad(queues, i), QueueLoad(x))
    decreases |queues| - i
  {
    hide QueueLoad, Add;
    var here := QueueLoad(queues[i]);
    if i == p {
      QueuesLoadBeyond(queues, i + 1, p, x);
      Rearrange(QueueLoad(x), QueuesLoad(queues, i + 1), here);
    } else {
      QueuesLoadUpdate(queues, i + 1, p, x);
      Rearrange(here, QueuesLoad(queues[p := x], i + 1), QueueLoad(queues[p]));
      Rearrange(here, QueuesLoad(queues, i + 1), QueueLoad(x));
    }
  }

  lemma {:induction false} QueuesLoadBeyond(queues: seq<seq<Test>>, i: nat, p: nat, x: seq<Test>)
    requires p < i <= |queues|
    ensures QueuesLoad(queues[p := x], i) == QueuesLoad(queues, i)
    decreases |queues| - i
  {
    hide QueueLoad, Add;
    if i == |queues| {
    } else {
      QueuesLoadBeyond(queues, i + 1, p, x);
      assert queues[p := x][i] == queues[i];
    }
  }

  // What one move does to the load of its worker and of its process's queue.
  lemma PhaseMove(s: State, w: nat, a: Action)
    requires w < |s.workers| && PhaseSafe(s.workers[w]) && Enabled(s, w, a) && !a.Start? && !a.Skip?
    ensures var before, after := PhaseLoad(s.workers[w].phase), PhaseLoad(After(s, w, a).workers[w].phase);
            && after.moves < before.moves
            && After(s, w, a).results + after.tests == s.results + before.tests
    ensures After(s, w, a).queues == s.queues
  {
  }

  // Starting or skipping a test takes it off its queue.
  lemma QueueMove(s: State, w: nat, a: Action)
    requires w < |s.workers| && Enabled(s, w, a) && (a.Start? || a.Skip?)
    ensures var s' := After(s, w, a);
            var before, after := PhaseLoad(s.workers[w].phase), PhaseLoad(s'.workers[w].phase);
            && QueuesLoad(s.queues, 0) == Add(QueuesLoad(s'.queues, 0), QueuedLoad(s.queues[s.workers[w].process][0]))
            && after.moves < before.moves + QueuedLoad(s.queues[s.workers[w].process][0]).moves
            && s'.results + after.tests ==
               s.results + before.tests + QueuedLoad(s.queues[s.workers[w].process][0]).tests
  {
    hide QueuesLoad;
    var p := s.workers[w].process;
    var q := s.queues[p];
    QueuesLoadUpdate(s.queues, 0, p, q[1..]);
    Unqueue(QueuesLoad(s.queues, 0), QueuesLoad(s.queues[p := q[1..]], 0), QueuedLoad(q[0]), QueueLoad(q[1..]));
  }

  lemma Unqueue(total: Load, rest: Load, first: Load, others: Load)
    requires Add(rest, Add(first, others)) == Add(total, others)
    ensures total == Add(rest, first)
  {
    var m, n := total.tests, rest.tests + first.tests;
    forall x ensures m[x] == n[x] {
      assert Add(rest, Add(first, others)).tests[x] == Add(total, others).tests[x];
    }
    assert m == n;
  }

  // before and after are the loads of the worker that moved; off is what left its queue.
  lemma Balance(r: multiset<Test>, r': multiset<Test>, ws: Load, ws': Load, before: Load, after: Load,
                qs: Load, qs': Load, off: Load)
    requires Add(ws', before) == Add(ws, after) && qs == Add(qs', off)
    requires after.moves < before.moves + off.moves && r' + after.tests == r + before.tests + off.tests
    ensures Add(ws', qs').moves < Add(ws, qs).moves
    ensures r' + Add(ws', qs').tests == r + Add(ws, qs).tests
  {
    assert ws'.moves + before.moves == ws.moves + after.moves;
    var m, n := r' + Add(ws', qs').tests, r + Add(ws, qs).tests;
    forall x ensures m[x] == n[x] {
      assert (ws'.tests + before.tests)[x] == (ws.tests + after.tests)[x];
      assert (r' + after.tests)[x] == (r + before.tests + off.tests)[x];
    }
    assert m == n;
  }

  /** Every move uses up load, and none loses or invents a test. */
  lemma MoveUsesLoad(s: State, w: nat, a: Action)
    requires w < |s.workers| && Safe(s) && Enabled(s, w, a)
    ensures Pending(After(s, w, a)).moves < Pending(s).moves
    ensures Tests(After(s, w, a)) == Tests(s)
  {
    hide TableOk, QueuesOk, PhaseLoad, QueueLoad, QueuedLoad, WorkersLoad, QueuesLoad;
    var s' := After(s, w, a);
    var before, after := PhaseLoad(s.workers[w].phase), PhaseLoad(s'.workers[w].phase);
    WorkersLoadUpdate(s.workers, 0, w, s'.workers[w]);
    assert s'.workers == s.workers[w := s'.workers[w]];
    var off := Load(0, multiset{});
    if a.Start? || a.Skip? {
      QueueMove(s, w, a);
      off := QueuedLoad(s.queues[s.workers[w].process][0]);
    } else {
      assert PhaseSafe(s.workers[w]);
      PhaseMove(s, w, a);
      assert QueuesLoad(s.queues, 0) == Add(QueuesLoad(s'.queues, 0), off);
    }
    Balance(s.results, s'.results, WorkersLoad(s.workers, 0), WorkersLoad(s'.workers, 0), before, after,
            QueuesLoad(s.queues, 0), QueuesLoad(s'.queues, 0), off);
  }

  // ---- Whole runs ----

  lemma {:induction false} RunKeeps(s: State, moves: seq<Move>, end: State)
    requires Safe(s) && Staffed(s) && Runs(s, moves, end)
    ensures Safe(end) && Staffed(end)
    ensures |moves| + Pending(end).moves <= Pending(s).moves
    ensures Tests(end) == Tests(s)
    decreases |moves|
  {
    hide Safe, Tests, Pending, Staffed;
    if moves == [] {
    } else {
      var m := moves[0];
      var next := After(s, m.worker, m.action);
      MoveKeepsSafe(s, m.worker, m.action);
      MoveUsesLoad(s, m.worker, m.action);
      StaffKept(s, m.worker, m.action);
      RunKeeps(next, moves[1..], end);
    }
  }

  lemma {:induction false} RunKeepsInv(s: State, moves: seq<Move>, end: State)
    requires Inv(s) && Runs(s, moves, end)
    ensures Inv(end)
    decreases |moves|
  {
    hide Inv;
    if moves == [] {
    } else {
      MoveKeepsInv(s, moves[0].worker, moves[0].action);
      RunKeepsInv(After(s, moves[0].worker, moves[0].action), moves[1..], end);
    }
  }

  lemma StaffKept(s: State, w: nat, a: Action)
    requires w < |s.workers| && Enabled(s, w, a) && Staffed(s)
    ensures Staffed(After(s, w, a))
  {
    var s' := After(s, w, a);
    forall p | 0 <= p < |s'.queues| ensures HasWorker(s', p) {
      assert HasWorker(s, p);
      var v :| 0 <= v < |s.workers| && s.workers[v].process == p;
      assert s'.workers[v].process == p;
    }
  }

  lemma {:induction false} FinishedLoad(s: State)
    requires Finished(s)
    ensures Pending(s) == Load(0, multiset{})
  {
    IdleLoad(s.workers, 0);
    EmptyLoad(s.queues, 0);
  }

  lemma {:induction false} IdleLoad(workers: seq<Worker>, i: nat)
    requires i <= |workers| && forall w | 0 <= w < |workers| :: workers[w].phase.Idle?
    ensures WorkersLoad(workers, i) == Load(0, multiset{})
    decreases |workers| - i
  {
    if i == |workers| {
    } else {
      IdleLoad(workers, i + 1);
    }
  }

  lemma {:induction false} EmptyLoad(queues: seq<seq<Test>>, i: nat)
    requires i <= |queues| && forall p | 0 <= p < |queues| :: queues[p] == []
    ensures QueuesLoad(queues, i) == Load(0, multiset{})
    decreases |queues| - i
  {
    if i == |queues| {
    } else {
      EmptyLoad(queues, i + 1);
    }
  }

  lemma AllFree(s: State)
    requires Safe(s) && Finished(s)
    ensures s.owner == map[]
  {
    forall lock ensures lock !in s.owner {
      var known := lock in s.owner ==> OwnerOk(s, s.owner[lock], lock);
    }
  }

  /**
   Every schedule is finite, and one that cannot be continued without a failure has finished: each
   test of every queue has exactly one result, and every lock is free again.
   */
  lemma EveryScheduleFinishes(s: State, moves: seq<Move>, end: State)
    requires Initial(s) && Staffed(s) && Runs(s, moves, end)
    ensures |moves| <= Pending(s).moves
    ensures !CanProgress(end) ==> Finished(end) && end.owner == map[] && end.results == Pending(s).tests
  {
    hide Pending, CanProgress, Finished, Staffed, Safe, PhaseOk, QueuesOk;
    InitialInv(s);
    RestTests(s);
    RunKeeps(s, moves, end);
    RunKeepsInv(s, moves, end);
    if !CanProgress(end) {
      if !Finished(end) { NoDeadlock(end); }
      FinishedLoad(end);
      AllFree(end);
    }
  }

  lemma RestTests(s: State)
    requires AtRest(s)
    ensures Tests(s) == Pending(s).tests
  {
  }

  // ---- Why lists must be free of repeats ----

  ghost predicate Repeats(test: Test) {
    !Apart(test.locks, |test.locks|)
  }

  // The test is neither in the results nor on its way there.
  ghost predicate Unreported(s: State, test: Test) {
    test !in s.results && forall w | 0 <= w < |s.workers| && s.workers[w].phase.Releasing? :: s.workers[w].phase.test != test
  }

  // The move neither skips the test nor gives up taking its locks.
  predicate Spares(s: State, w: nat, a: Action, test: Test)
    requires w < |s.workers| && Enabled(s, w, a)
  {
    && (a.AcquireFails? ==> s.workers[w].phase.test != test)
    && (a.Skip? ==> s.queues[s.workers[w].process][0] != test)
  }

  // A worker can hold no lock twice, so it never gets all the locks of a list with a repeat.
  lemma NeverAll(s: State, w: nat, test: Test)
    requires w < |s.workers| && Safe(s) && Repeats(test) && !s.workers[w].phase.Idle? && s.workers[w].phase.test == test
    ensures HeldCount(s.workers[w].phase) < |test.locks|
  {
    hide TableOk;
    assert PhaseSafe(s.workers[w]);
  }

  lemma MoveSpares(s: State, w: nat, a: Action, test: Test)
    requires w < |s.workers| && Safe(s) && Enabled(s, w, a) && Repeats(test)
    requires Unreported(s, test) && Spares(s, w, a, test)
    ensures Unreported(After(s, w, a), test)
  {
    hide Safe, Repeats, Apart;
    var phase := s.workers[w].phase;
    if !phase.Idle? && phase.test == test { NeverAll(s, w, test); }
  }

  ghost predicate SparesAll(s: State, moves: seq<Move>, end: State, test: Test)
    requires Runs(s, moves, end)
    decreases |moves|
  {
    moves == [] ||
    (Spares(s, moves[0].worker, moves[0].action, test) &&
     SparesAll(After(s, moves[0].worker, moves[0].action), moves[1..], end, test))
  }

  /** A test whose lock list has a repeat is never reported, unless it is skipped or its locks are given up. */
  lemma {:induction false} RepeatNeverReported(s: State, moves: seq<Move>, end: State, test: Test)
    requires Safe(s) && Runs(s, moves, end) && Repeats(test) && Unreported(s, test) && SparesAll(s, moves, end, test)
    ensures Unreported(end, test)
    decreases |moves|
  {
    hide Safe, Repeats, Unreported, Spares;
    if moves == [] {
    } else {
      var m := moves[0];
      MoveKeepsSafe(s, m.worker, m.action);
      MoveSpares(s, m.worker, m.action, test);
      RepeatNeverReported(After(s, m.worker, m.action), moves[1..], end, test);
    }
  }

  // ---- Freedom from repeats is necessary and sufficient ----

  // A list as sorting leaves it: names in order, and one lock file to a name.
  ghost predicate Orderly(locks: seq<Slot>) {
    forall i, j | 0 <= i < j < |locks| ::
      !Less(locks[j].name, locks[i].name) && (locks[i].name == locks[j].name ==> locks[i] == locks[j])
  }

  lemma PlannedOrderly(test: Test, resources: seq<string>, exclusive: set<string>, root: string -> nat)
    requires Planned(test, resources, exclusive, root)
    ensures Orderly(test.locks)
    ensures Repeats(test) <==> exists x :: x in exclusive && multiset(resources)[x] > 1
  {
    var plan := LockPlan(resources, exclusive);
    PlanRepeats(resources, exclusive);
    assert forall i, j | 0 <= i < j < |plan| :: plan[i] == plan[j] <==> test.locks[i] == test.locks[j];
  }

  lemma OrderlyRises(locks: seq<Slot>)
    requires Orderly(locks)
    ensures Rising(locks) <==> Apart(locks, |locks|)
  {
    forall i, j | 0 <= i < j < |locks| ensures locks[i] != locks[j] <==> Less(locks[i].name, locks[j].name) {
      LessTotal(locks[i].name, locks[j].name);
      LessIrreflexive(locks[i].name);
    }
  }

  ghost predicate AllProgress(moves: seq<Move>) {
    forall i | 0 <= i < |moves| :: IsProgress(moves[i].action)
  }

  lemma {:induction false} ProgressSpares(s: State, moves: seq<Move>, end: State, test: Test)
    requires Runs(s, moves, end) && AllProgress(moves)
    ensures SparesAll(s, moves, end, test)
    decreases |moves|
  {
    if moves == [] {
    } else {
      var m := moves[0];
      assert IsProgress(m.action) && forall i | 0 <= i < |moves[1..]| :: moves[1..][i] == moves[i + 1];
      ProgressSpares(After(s, m.worker, m.action), moves[1..], end, test);
    }
  }

  /** From every state there is a run without failures that goes on until nothing can. */
  lemma {:induction false} MaximalRun(s: State) returns (moves: seq<Move>, end: State)
    requires Safe(s)
    ensures Runs(s, moves, end) && AllProgress(moves) && !CanProgress(end)
    decreases Pending(s).moves
  {
    hide Safe, Pending;
    if !CanProgress(s) {
      moves, end := [], s;
    } else {
      var w: nat, a :| w < |s.workers| && IsProgress(a) && Enabled(s, w, a);
      MoveKeepsSafe(s, w, a);
      MoveUsesLoad(s, w, a);
      var rest;
      rest, end := MaximalRun(After(s, w, a));
      moves := [Move(w, a)] + rest;
      assert moves[1..] == rest;
    }
  }

  lemma {:induction false} QueueTests(queue: seq<Test>, i: nat)
    requires i < |queue|
    ensures queue[i] in QueueLoad(queue).tests
  {
    if i == 0 {
    } else {
      QueueTests(queue[1..], i - 1);
    }
  }

  lemma {:induction false} QueuesTests(queues: seq<seq<Test>>, from: nat, p: nat, i: nat)
    requires from <= p < |queues| && i < |queues[p]|
    ensures queues[p][i] in QueuesLoad(queues, from).tests
    decreases p - from
  {
    hide QueueLoad;
    if from == p {
      QueueTests(queues[p], i);
    } else {
      QueuesTests(queues, from + 1, p, i);
    }
  }

  // A run without failures that starts with a repeat in a queue ends before all work is done.
  lemma RepeatPreventsFinish(s: State, p: nat, i: nat, moves: seq<Move>, end: State)
    requires AtRest(s) && Staffed(s) && Runs(s, moves, end) && AllProgress(moves)
    requires p < |s.queues| && i < |s.queues[p]| && Repeats(s.queues[p][i])
    ensures !Finished(end)
  {
    hide Safe, Staffed, WorkersLoad, QueuesLoad, Repeats, Finished;
    var test := s.queues[p][i];
    RestSafe(s);
    RestTests(s);
    QueuesTests(s.queues, 0, p, i);
    RunKeeps(s, moves, end);
    ProgressSpares(s, moves, end, test);
    RepeatNeverReported(s, moves, end, test);
    assert test in Tests(end);
    if Finished(end) { FinishedLoad(end); }
  }

  // Every run without failures that cannot go on has done all the work.
  ghost predicate AlwaysFinishes(s: State) {
    forall moves, end :: Runs(s, moves, end) && AllProgress(moves) && !CanProgress(end) ==> Finished(end)
  }

  /**
   With lock lists as sorting leaves them, the pool always finishes if and only if no list has a repeat.
   */
  lemma FinishesIff(s: State)
    requires AtRest(s) && Staffed(s)
    requires forall p, i | 0 <= p < |s.queues| && 0 <= i < |s.queues[p]| :: Orderly(s.queues[p][i].locks)
    ensures AlwaysFinishes(s) <==>
            forall p, i | 0 <= p < |s.queues| && 0 <= i < |s.queues[p]| :: !Repeats(s.queues[p][i])
  {
    hide AtRest, Staffed, Runs, AllProgress, CanProgress, Finished, Orderly, Rising, Apart;
    if p, i :| 0 <= p < |s.queues| && 0 <= i < |s.queues[p]| && Repeats(s.queues[p][i]) {
      RestSafe(s);
      var moves, end := MaximalRun(s);
      RepeatPreventsFinish(s, p, i, moves, end);
    } else {
      forall p, i | 0 <= p < |s.queues| && 0 <= i < |s.queues[p]| ensures Rising(s.queues[p][i].locks) {
        assert !Repeats(s.queues[p][i]);
        OrderlyRises(s.queues[p][i].locks);
      }
      forall moves, end | Runs(s, moves, end) && AllProgress(moves) && !CanProgress(end) ensures Finished(end) {
        EveryScheduleFinishes(s, moves, end);
      }
    }
  }
}
