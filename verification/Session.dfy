/**
 Materialization sessions (src/artifact/materialize.c): committed access to the tensor ranges of one
 file snapshot, through a resident provider when one is attached and through positioned reads
 otherwise. Equal snapshots mean equal bytes, so the bytes of the opened snapshot are a constant of
 the session; whether the snapshot still validates, what a provider answers and whether a read
 succeeds is decided anew by the world of every call.

 Step says what a request does to a session, with a log of the accesses that succeeded; the methods are
 proved against it, and the lemmas are about it.
 */
module Session {
  import opened Bits
  import opened Common

  datatype Binding = Binding(offset: nat, bytes: nat)

  // What a provider answers for a binding; a span that is null is an invalid answer.
  datatype Resolution = ReadMiss | ReadInvalid | ReadHit(span: seq<byte>)

  // The outside world during one access; answer(i) is for binding i.
  datatype World = World(stable: bool, answer: nat -> Resolution, noted: bool, readable: bool, evictable: bool)

  datatype Counters = Counters(calls: nat, bytes: nat, residentCalls: nat, residentBytes: nat,
                               artifactCalls: nat, artifactBytes: nat)

  // release: evict the page cache after each read.
  datatype Plan = Plan(file: seq<byte>, bindings: seq<Binding>, chunk: nat, release: bool, cancelAfterFirst: bool)

  predicate PlanOk(p: Plan) {
    p.chunk > 0 && forall i | 0 <= i < |p.bindings| :: p.bindings[i].offset + p.bindings[i].bytes <= |p.file|
  }

  // An access that succeeded.
  datatype Served = Served(binding: nat, from: nat, data: seq<byte>, resident: bool)

  // provider is the context of the attached one. The last three fields are history.
  datatype State = State(committed: bool, provider: Option<nat>, counters: Counters, drifts: nat, walks: nat,
                         staging: nat, log: seq<Served>, attached: seq<nat>, detached: seq<nat>)

  // ---- One access ----

  function Bytes(file: seq<byte>, from: nat, length: nat): seq<byte>
    requires from + length <= |file|
  {
    file[from..from + length]
  }

  function Resolved(s: State, i: nat, world: World): Resolution {
    if s.provider.Some? then world.answer(i) else ReadMiss
  }

  // The request is well formed and its range lies in its binding.
  predicate Admitted(p: Plan, s: State, i: nat, from: nat, length: nat, borrow: bool) {
    && i < |p.bindings| && 0 < length && from + length <= p.bindings[i].bytes
    && s.committed && (borrow ==> s.provider.Some?)
  }

  predicate AccessOk(p: Plan, s: State, i: nat, from: nat, length: nat, borrow: bool, world: World) {
    && Admitted(p, s, i, from, length, borrow) && world.stable
    && var answer := Resolved(s, i, world);
       && !answer.ReadInvalid? && (borrow ==> answer.ReadHit?)
       && (answer.ReadHit? ==> |answer.span| == p.bindings[i].bytes && world.noted)
       && (answer.ReadMiss? ==> world.readable && (p.release ==> world.evictable))
       && s.counters.calls < U64_MAX && s.counters.bytes + length <= U64_MAX
  }

  function Count(c: Counters, bytes: nat, resident: bool): Counters {
    if resident
    then c.(calls := c.calls + 1, bytes := c.bytes + bytes,
            residentCalls := c.residentCalls + 1, residentBytes := c.residentBytes + bytes)
    else c.(calls := c.calls + 1, bytes := c.bytes + bytes,
            artifactCalls := c.artifactCalls + 1, artifactBytes := c.artifactBytes + bytes)
  }

  function Delivered(p: Plan, s: State, i: nat, from: nat, length: nat, borrow: bool, world: World): Served
    requires PlanOk(p) && AccessOk(p, s, i, from, length, borrow, world)
  {
    var answer := Resolved(s, i, world);
    Served(i, from,
           if answer.ReadHit? then answer.span[from..from + length] else Bytes(p.file, p.bindings[i].offset + from, length),
           answer.ReadHit?)
  }

  function Drifted(s: State): State {
    if s.drifts < U64_MAX then s.(drifts := s.drifts + 1) else s
  }

  function AfterAccess(p: Plan, s: State, i: nat, from: nat, length: nat, borrow: bool, world: World): State
    requires PlanOk(p)
  {
    if AccessOk(p, s, i, from, length, borrow, world) then
      var served := Delivered(p, s, i, from, length, borrow, world);
      s.(counters := Count(s.counters, length, served.resident), log := s.log + [served],
         staging := if !borrow && length > s.staging then length else s.staging)
    else if Admitted(p, s, i, from, length, borrow) && !world.stable then Drifted(s)
    else s
  }

  // ---- A walk ----

  datatype Walked = Walked(state: State, ok: bool)

  // The walk from byte delivered of binding i on; worlds(k) is the world of its next access.
  function WalkOn(p: Plan, s: State, i: nat, delivered: nat, worlds: nat -> World, k: nat): Walked
    requires PlanOk(p) && i <= |p.bindings| && (i < |p.bindings| ==> delivered <= p.bindings[i].bytes)
    decreases |p.bindings| - i, if i < |p.bindings| then p.bindings[i].bytes - delivered else 0
  {
    if i == |p.bindings| then Walked(s, true)
    else if delivered == p.bindings[i].bytes then WalkOn(p, s, i + 1, 0, worlds, k)
    else
      var request := Min(p.bindings[i].bytes - delivered, p.chunk);
      if p.cancelAfterFirst && (s.counters.artifactCalls > 0 || s.counters.residentCalls > 0) then Walked(s, false)
      else if !AccessOk(p, s, i, delivered, request, false, worlds(k))
      then Walked(AfterAccess(p, s, i, delivered, request, false, worlds(k)), false)
      else WalkOn(p, AfterAccess(p, s, i, delivered, request, false, worlds(k)), i, delivered + request, worlds, k + 1)
  }

  function AfterWalk(p: Plan, s: State, worlds: nat -> World): Walked
    requires PlanOk(p)
  {
    if !s.committed then Walked(s, false)
    else
      var w := WalkOn(p, s, 0, 0, worlds, 0);
      if !w.ok || w.state.walks == U64_MAX then Walked(w.state, false)
      else Walked(w.state.(walks := w.state.walks + 1), true)
  }

  // ---- Requests ----

  datatype Request =
    | Commit(stable: bool)
    | Attach(context: nat)
    | Detach(context: nat)
    | Read(binding: nat, from: nat, length: nat, borrow: bool, world: World)
    | WalkAll(worlds: nat -> World)

  function Committed(s: State, stable: bool): State {
    if stable then s.(committed := true) else Drifted(s)
  }

  function AfterAttach(s: State, context: nat): State {
    if s.committed && s.provider.None? then s.(provider := Some(context), attached := s.attached + [context]) else s
  }

  function AfterDetach(s: State, context: nat): State {
    if s.provider == Some(context) then s.(provider := None, detached := s.detached + [context]) else s
  }

  function AfterClose(s: State): State {
    if s.provider.Some? then AfterDetach(s, s.provider.value) else s
  }

  function Step(p: Plan, s: State, r: Request): State
    requires PlanOk(p)
  {
    match r
    case Commit(stable) => Committed(s, stable)
    case Attach(context) => AfterAttach(s, context)
    case Detach(context) => AfterDetach(s, context)
    case Read(i, from, length, borrow, world) => AfterAccess(p, s, i, from, length, borrow, world)
    case WalkAll(worlds) => AfterWalk(p, s, worlds).state
  }

  function Fresh(): State {
    State(false, None, Counters(0, 0, 0, 0, 0, 0), 0, 0, 0, [], [], [])
  }

  function After(p: Plan, rs: seq<Request>, n: nat): State
    requires PlanOk(p) && n <= |rs|
  {
    if n == 0 then Fresh() else Step(p, After(p, rs, n - 1), rs[n - 1])
  }

  // ---- What the counters count ----

  function Totals(log: seq<Served>): Counters {
    if log == [] then Counters(0, 0, 0, 0, 0, 0)
    else
      var last := log[|log| - 1];
      Count(Totals(log[..|log| - 1]), |last.data|, last.resident)
  }

  lemma {:induction false} TotalsBalance(log: seq<Served>)
    ensures var c := Totals(log);
            && c.calls == |log| && c.calls == c.residentCalls + c.artifactCalls
            && c.bytes == c.residentBytes + c.artifactBytes
  {
    if log == [] {
    } else {
      TotalsBalance(log[..|log| - 1]);
    }
  }

  // The counters are the totals of the log, and every attach but the current one has been notified.
  ghost predicate Inv(s: State) {
    && s.counters == Totals(s.log)
    && s.attached == if s.provider.Some? then s.detached + [s.provider.value] else s.detached
  }

  lemma AccessKeeps(p: Plan, s: State, i: nat, from: nat, length: nat, borrow: bool, world: World)
    requires PlanOk(p) && Inv(s)
    ensures Inv(AfterAccess(p, s, i, from, length, borrow, world))
  {
    hide PlanOk;
    if AccessOk(p, s, i, from, length, borrow, world) {
      var served := Delivered(p, s, i, from, length, borrow, world);
      DeliveredSize(p, s, i, from, length, borrow, world);
      assert (s.log + [served])[..|s.log|] == s.log;
    }
  }

  lemma DeliveredSize(p: Plan, s: State, i: nat, from: nat, length: nat, borrow: bool, world: World)
    requires PlanOk(p) && AccessOk(p, s, i, from, length, borrow, world)
    ensures |Delivered(p, s, i, from, length, borrow, world).data| == length
  {
  }

  lemma {:induction false} WalkKeeps(p: Plan, s: State, i: nat, delivered: nat, worlds: nat -> World, k: nat)
    requires PlanOk(p) && i <= |p.bindings| && (i < |p.bindings| ==> delivered <= p.bindings[i].bytes) && Inv(s)
    ensures Inv(WalkOn(p, s, i, delivered, worlds, k).state)
    decreases |p.bindings| - i, if i < |p.bindings| then p.bindings[i].bytes - delivered else 0
  {
    hide PlanOk, Inv, AfterAccess, AccessOk;
    if i == |p.bindings| {
    } else if delivered == p.bindings[i].bytes {
      WalkKeeps(p, s, i + 1, 0, worlds, k);
    } else {
      var request := Min(p.bindings[i].bytes - delivered, p.chunk);
      AccessKeeps(p, s, i, delivered, request, false, worlds(k));
      ChunkPositive(p);
      WalkKeeps(p, AfterAccess(p, s, i, delivered, request, false, worlds(k)), i, delivered + request, worlds, k + 1);
    }
  }

  lemma ChunkPositive(p: Plan)
    requires PlanOk(p)
    ensures p.chunk > 0
  {
  }

  lemma StepKeeps(p: Plan, s: State, r: Request)
    requires PlanOk(p) && Inv(s)
    ensures Inv(Step(p, s, r))
  {
    hide PlanOk, Totals, AfterAccess, WalkOn;
    match r {
      case Commit(_) =>
      case Attach(_) =>
      case Detach(_) =>
      case Read(i, from, length, borrow, world) => AccessKeeps(p, s, i, from, length, borrow, world);
      case WalkAll(worlds) => WalkStarts(p, s, worlds);
    }
  }

  lemma WalkStarts(p: Plan, s: State, worlds: nat -> World)
    requires PlanOk(p) && Inv(s)
    ensures Inv(WalkOn(p, s, 0, 0, worlds, 0).state)
  {
    WalkKeeps(p, s, 0, 0, worlds, 0);
  }

  lemma {:induction false} RunKeeps(p: Plan, rs: seq<Request>, n: nat)
    requires PlanOk(p) && n <= |rs|
    ensures Inv(After(p, rs, n))
  {
    hide Step, PlanOk;
    if n == 0 {
    } else {
      RunKeeps(p, rs, n - 1);
      StepKeeps(p, After(p, rs, n - 1), rs[n - 1]);
    }
  }

  /**
   In every run the counters are the sums over the accesses that succeeded, resident plus artifact parts
   make the totals, and after a close each attach has had exactly one notification.
   */
  lemma RunCounts(p: Plan, rs: seq<Request>, n: nat)
    requires PlanOk(p) && n <= |rs|
    ensures var s := After(p, rs, n);
            && s.counters == Totals(s.log) && s.counters.calls == |s.log|
            && s.counters.calls == s.counters.residentCalls + s.counters.artifactCalls
            && s.counters.bytes == s.counters.residentBytes + s.counters.artifactBytes
            && AfterClose(s).attached == AfterClose(s).detached == s.attached
  {
    hide Step, PlanOk, Totals, After;
    RunKeeps(p, rs, n);
    TotalsBalance(After(p, rs, n).log);
  }

  /** An access that fails changes neither the counters nor the log. */
  lemma FailureCountsNothing(p: Plan, s: State, i: nat, from: nat, length: nat, borrow: bool, world: World)
    requires PlanOk(p) && !AccessOk(p, s, i, from, length, borrow, world)
    ensures var t := AfterAccess(p, s, i, from, length, borrow, world);
            t == s.(drifts := t.drifts)
  {
  }

  // ---- What is delivered ----

  // A provider that answers with the bytes of the file, or not at all.
  ghost predicate Honest(p: Plan, world: World)
    requires PlanOk(p)
  {
    forall i | 0 <= i < |p.bindings| && world.answer(i).ReadHit? ::
      world.answer(i).span == Bytes(p.file, p.bindings[i].offset, p.bindings[i].bytes)
  }

  ghost predicate HonestRequest(p: Plan, r: Request)
    requires PlanOk(p)
  {
    && (r.Read? ==> Honest(p, r.world))
    && (r.WalkAll? ==> forall k: nat :: Honest(p, r.worlds(k)))
  }

  // The data are the file's bytes at that place of the binding.
  ghost predicate TrueTo(p: Plan, served: Served)
    requires PlanOk(p)
  {
    && served.binding < |p.bindings| && served.from + |served.data| <= p.bindings[served.binding].bytes
    && served.data == Bytes(p.file, p.bindings[served.binding].offset + served.from, |served.data|)
  }

  ghost predicate AllTrue(p: Plan, log: seq<Served>)
    requires PlanOk(p)
  {
    forall j | 0 <= j < |log| :: TrueTo(p, log[j])
  }

  lemma SpanOf(file: seq<byte>, offset: nat, bytes: nat, from: nat, length: nat)
    requires offset + bytes <= |file| && from + length <= bytes
    ensures Bytes(file, offset, bytes)[from..from + length] == Bytes(file, offset + from, length)
  {
    var part, whole := Bytes(file, offset, bytes)[from..from + length], Bytes(file, offset + from, length);
    forall i | 0 <= i < length ensures part[i] == whole[i] { assert part[i] == file[offset + from + i]; }
    assert part == whole;
  }

  /** With an honest provider or none, a successful access delivers the file's bytes. */
  lemma AccessDelivers(p: Plan, s: State, i: nat, from: nat, length: nat, borrow: bool, world: World)
    requires PlanOk(p) && Honest(p, world) && AccessOk(p, s, i, from, length, borrow, world)
    ensures Delivered(p, s, i, from, length, borrow, world).data == Bytes(p.file, p.bindings[i].offset + from, length)
  {
    SpanOf(p.file, p.bindings[i].offset, p.bindings[i].bytes, from, length);
  }

  lemma AccessTrue(p: Plan, s: State, i: nat, from: nat, length: nat, borrow: bool, world: World)
    requires PlanOk(p) && Honest(p, world) && AllTrue(p, s.log)
    ensures AllTrue(p, AfterAccess(p, s, i, from, length, borrow, world).log)
  {
    if AccessOk(p, s, i, from, length, borrow, world) {
      AccessDelivers(p, s, i, from, length, borrow, world);
      DeliveredSize(p, s, i, from, length, borrow, world);
      assert TrueTo(p, Delivered(p, s, i, from, length, borrow, world));
    }
  }

  lemma {:induction false} WalkTrue(p: Plan, s: State, i: nat, delivered: nat, worlds: nat -> World, k: nat)
    requires PlanOk(p) && i <= |p.bindings| && (i < |p.bindings| ==> delivered <= p.bindings[i].bytes)
    requires AllTrue(p, s.log) && forall k: nat :: Honest(p, worlds(k))
    ensures AllTrue(p, WalkOn(p, s, i, delivered, worlds, k).state.log)
    decreases |p.bindings| - i, if i < |p.bindings| then p.bindings[i].bytes - delivered else 0
  {
    hide PlanOk, AllTrue, Honest, AfterAccess, AccessOk;
    if i == |p.bindings| {
    } else if delivered == p.bindings[i].bytes {
      WalkTrue(p, s, i + 1, 0, worlds, k);
    } else {
      var request := Min(p.bindings[i].bytes - delivered, p.chunk);
      AccessTrue(p, s, i, delivered, request, false, worlds(k));
      ChunkPositive(p);
      WalkTrue(p, AfterAccess(p, s, i, delivered, request, false, worlds(k)), i, delivered + request, worlds, k + 1);
    }
  }

  /** In every run whose providers are honest, everything ever delivered is the file's bytes. */
  lemma {:induction false} RunTrue(p: Plan, rs: seq<Request>, n: nat)
    requires PlanOk(p) && n <= |rs| && forall i | 0 <= i < n :: HonestRequest(p, rs[i])
    ensures AllTrue(p, After(p, rs, n).log)
  {
    hide PlanOk, Honest, AfterAccess, WalkOn, TrueTo;
    if n == 0 {
    } else {
      RunTrue(p, rs, n - 1);
      var s, r := After(p, rs, n - 1), rs[n - 1];
      assert HonestRequest(p, r);
      if r.Read? {
        AccessTrue(p, s, r.binding, r.from, r.length, r.borrow, r.world);
      } else if r.WalkAll? {
        WalkTrueFromStart(p, s, r.worlds);
      }
    }
  }

  lemma WalkTrueFromStart(p: Plan, s: State, worlds: nat -> World)
    requires PlanOk(p) && AllTrue(p, s.log) && forall k: nat :: Honest(p, worlds(k))
    ensures AllTrue(p, WalkOn(p, s, 0, 0, worlds, 0).state.log)
  {
    WalkTrue(p, s, 0, 0, worlds, 0);
  }

  // ---- A completed walk ----

  // How many accesses of at most chunk bytes cover n bytes.
  ghost function Chunks(n: nat, chunk: nat): nat
    requires chunk > 0
  {
    (n + chunk - 1) / chunk
  }

  lemma ChunksStep(n: nat, chunk: nat)
    requires chunk > 0
    ensures Chunks(0, chunk) == 0
    ensures n > 0 ==> Chunks(n, chunk) == Chunks(n - Min(n, chunk), chunk) + 1
  {
    RemainderAndQuotient(0 + chunk - 1, chunk, 0, chunk - 1);
    if n > chunk {
      Division(n - chunk + chunk - 1, chunk);
      var q, r := (n - chunk + chunk - 1) / chunk, (n - chunk + chunk - 1) % chunk;
      assert chunk * (q + 1) == chunk * q + chunk;
      RemainderAndQuotient(n + chunk - 1, chunk, q + 1, r);
    } else if n > 0 {
      RemainderAndQuotient(n + chunk - 1, chunk, 1, n - 1);
    }
  }

  lemma RemainderAndQuotient(x: nat, d: nat, q: nat, r: nat)
    requires d > 0 && x == d * q + r && r < d
    ensures x / d == q && x % d == r
  {
    Division(x, d);
    DivisionUnique(d, q, r, x / d, x % d);
  }

  // What is left of the bindings from byte delivered of binding i on: bytes, their number, accesses.
  ghost function RestBytes(p: Plan, i: nat, delivered: nat): seq<byte>
    requires PlanOk(p) && i <= |p.bindings| && (i < |p.bindings| ==> delivered <= p.bindings[i].bytes)
    decreases |p.bindings| - i
  {
    if i == |p.bindings| then []
    else Bytes(p.file, p.bindings[i].offset + delivered, p.bindings[i].bytes - delivered) + RestBytes(p, i + 1, 0)
  }

  ghost function RestSize(p: Plan, i: nat, delivered: nat): nat
    requires i <= |p.bindings| && (i < |p.bindings| ==> delivered <= p.bindings[i].bytes)
    decreases |p.bindings| - i
  {
    if i == |p.bindings| then 0 else p.bindings[i].bytes - delivered + RestSize(p, i + 1, 0)
  }

  ghost function RestCalls(p: Plan, i: nat, delivered: nat): nat
    requires p.chunk > 0 && i <= |p.bindings| && (i < |p.bindings| ==> delivered <= p.bindings[i].bytes)
    decreases |p.bindings| - i
  {
    if i == |p.bindings| then 0 else Chunks(p.bindings[i].bytes - delivered, p.chunk) + RestCalls(p, i + 1, 0)
  }

  // The data of a log, one after the other.
  ghost function Joined(log: seq<Served>): seq<byte> {
    if log == [] then [] else log[0].data + Joined(log[1..])
  }

  lemma RestStep(p: Plan, i: nat, delivered: nat, request: nat)
    requires PlanOk(p) && i < |p.bindings| && delivered < p.bindings[i].bytes
    requires request == Min(p.bindings[i].bytes - delivered, p.chunk)
    ensures request > 0 && RestCalls(p, i, delivered) == 1 + RestCalls(p, i, delivered + request)
    ensures RestSize(p, i, delivered) == request + RestSize(p, i, delivered + request)
    ensures RestBytes(p, i, delivered)
         == Bytes(p.file, p.bindings[i].offset + delivered, request) + RestBytes(p, i, delivered + request)
  {
    hide Chunks;
    var b := p.bindings[i];
    ChunksStep(b.bytes - delivered, p.chunk);
    BytesJoin(p.file, b.offset + delivered, request, b.bytes - delivered - request);
  }

  lemma BytesJoin(file: seq<byte>, from: nat, m: nat, n: nat)
    requires from + m + n <= |file|
    ensures Bytes(file, from, m + n) == Bytes(file, from, m) + Bytes(file, from + m, n)
  {
  }

  lemma RestNext(p: Plan, i: nat)
    requires PlanOk(p) && i < |p.bindings|
    ensures RestCalls(p, i, p.bindings[i].bytes) == RestCalls(p, i + 1, 0)
    ensures RestSize(p, i, p.bindings[i].bytes) == RestSize(p, i + 1, 0)
    ensures RestBytes(p, i, p.bindings[i].bytes) == RestBytes(p, i + 1, 0)
  {
    hide Chunks;
    ChunksStep(0, p.chunk);
  }

  lemma Prepend(log: seq<Served>, first: Served, more: seq<Served>)
    ensures (log + [first]) + more == log + ([first] + more)
    ensures Joined([first] + more) == first.data + Joined(more)
  {
    assert ([first] + more)[1..] == more;
  }

  /** A walk that completes with honest providers delivers every byte of every binding once and in order. */
  lemma {:induction false} WalkDelivers(p: Plan, s: State, i: nat, delivered: nat, worlds: nat -> World, k: nat)
    returns (more: seq<Served>)
    requires PlanOk(p) && i <= |p.bindings| && (i < |p.bindings| ==> delivered <= p.bindings[i].bytes)
    requires WalkOn(p, s, i, delivered, worlds, k).ok && forall k: nat :: Honest(p, worlds(k))
    ensures WalkOn(p, s, i, delivered, worlds, k).state.log == s.log + more
    ensures Joined(more) == RestBytes(p, i, delivered) && |more| == RestCalls(p, i, delivered)
    decreases |p.bindings| - i, if i < |p.bindings| then p.bindings[i].bytes - delivered else 0
  {
    hide PlanOk, Honest, AccessOk, Delivered, Chunks, Count, RestBytes, RestCalls, Joined;
    ChunkPositive(p);
    if i == |p.bindings| {
      more := [];
      RestNone(p);
    } else if delivered == p.bindings[i].bytes {
      RestNext(p, i);
      more := WalkDelivers(p, s, i + 1, 0, worlds, k);
    } else {
      var request := Min(p.bindings[i].bytes - delivered, p.chunk);
      var world := worlds(k);
      var first := Delivered(p, s, i, delivered, request, false, world);
      AccessDelivers(p, s, i, delivered, request, false, world);
      RestStep(p, i, delivered, request);
      var rest := WalkDelivers(p, AfterAccess(p, s, i, delivered, request, false, world), i, delivered + request, worlds, k + 1);
      Prepend(s.log, first, rest);
      more := [first] + rest;
    }
  }

  lemma RestNone(p: Plan)
    requires PlanOk(p)
    ensures RestBytes(p, |p.bindings|, 0) == [] && RestCalls(p, |p.bindings|, 0) == 0 && Joined([]) == []
    ensures forall d: nat :: RestBytes(p, |p.bindings|, d) == [] && RestCalls(p, |p.bindings|, d) == 0
  {
  }

  // A world in which nothing goes wrong.
  ghost predicate Calm(p: Plan, world: World)
    requires PlanOk(p)
  {
    world.stable && world.noted && world.readable && world.evictable && Honest(p, world)
    && forall i: nat :: !world.answer(i).ReadInvalid?
  }

  lemma CalmAccess(p: Plan, s: State, i: nat, from: nat, length: nat, world: World)
    requires PlanOk(p) && Calm(p, world) && Admitted(p, s, i, from, length, false)
    requires s.counters.calls < U64_MAX && s.counters.bytes + length <= U64_MAX
    ensures AccessOk(p, s, i, from, length, false, world)
    ensures var t := AfterAccess(p, s, i, from, length, false, world);
            && t.committed && t.counters.calls == s.counters.calls + 1
            && t.counters.bytes == s.counters.bytes + length
  {
  }

  /** An undisturbed walk of a committed session completes, unless a counter would overflow. */
  lemma {:induction false} CalmWalk(p: Plan, s: State, i: nat, delivered: nat, worlds: nat -> World, k: nat)
    requires PlanOk(p) && i <= |p.bindings| && (i < |p.bindings| ==> delivered <= p.bindings[i].bytes)
    requires s.committed && !p.cancelAfterFirst && forall k: nat :: Calm(p, worlds(k))
    requires s.counters.calls + RestCalls(p, i, delivered) <= U64_MAX
    requires s.counters.bytes + RestSize(p, i, delivered) <= U64_MAX
    ensures WalkOn(p, s, i, delivered, worlds, k).ok
    decreases |p.bindings| - i, if i < |p.bindings| then p.bindings[i].bytes - delivered else 0
  {
    hide PlanOk, Calm, AccessOk, AfterAccess, Chunks, RestBytes, RestCalls, RestSize;
    ChunkPositive(p);
    if i == |p.bindings| {
    } else if delivered == p.bindings[i].bytes {
      RestNext(p, i);
      CalmWalk(p, s, i + 1, 0, worlds, k);
    } else {
      var request := Min(p.bindings[i].bytes - delivered, p.chunk);
      RestStep(p, i, delivered, request);
      CalmAccess(p, s, i, delivered, request, worlds(k));
      CalmWalk(p, AfterAccess(p, s, i, delivered, request, false, worlds(k)), i, delivered + request, worlds, k + 1);
    }
  }

  lemma AccessAdds(p: Plan, s: State, i: nat, from: nat, length: nat, world: World)
    requires PlanOk(p) && AccessOk(p, s, i, from, length, false, world)
    ensures var t := AfterAccess(p, s, i, from, length, false, world);
            t.counters.calls == s.counters.calls + 1 && t.counters.bytes == s.counters.bytes + length
  {
  }

  /** A completed walk adds the sum of the binding bytes, and the sum of their ceiling quotients as calls. */
  lemma {:induction false} WalkAdds(p: Plan, s: State, i: nat, delivered: nat, worlds: nat -> World, k: nat)
    requires PlanOk(p) && i <= |p.bindings| && (i < |p.bindings| ==> delivered <= p.bindings[i].bytes)
    requires WalkOn(p, s, i, delivered, worlds, k).ok
    ensures var t := WalkOn(p, s, i, delivered, worlds, k).state;
            && t.counters.calls == s.counters.calls + RestCalls(p, i, delivered)
            && t.counters.bytes == s.counters.bytes + RestSize(p, i, delivered)
    decreases |p.bindings| - i, if i < |p.bindings| then p.bindings[i].bytes - delivered else 0
  {
    hide PlanOk, AccessOk, AfterAccess, Chunks, RestBytes;
    ChunkPositive(p);
    if i == |p.bindings| {
    } else if delivered == p.bindings[i].bytes {
      RestNext(p, i);
      WalkAdds(p, s, i + 1, 0, worlds, k);
    } else {
      var request := Min(p.bindings[i].bytes - delivered, p.chunk);
      RestStep(p, i, delivered, request);
      AccessAdds(p, s, i, delivered, request, worlds(k));
      WalkAdds(p, AfterAccess(p, s, i, delivered, request, false, worlds(k)), i, delivered + request, worlds, k + 1);
    }
  }

  // ---- The program ----

  class Session {
    const plan: Plan
    var committed: bool
    var provider: Option<nat>
    var counters: Counters
    var drifts: nat
    var walks: nat
    var staging: nat
    ghost var log: seq<Served>
    ghost var attached: seq<nat>  // the context of every successful attach
    ghost var detached: seq<nat>  // the context of every detached notification

    ghost function Now(): State
      reads this
    {
      State(committed, provider, counters, drifts, walks, staging, log, attached, detached)
    }

    constructor (plan: Plan)
      ensures this.plan == plan && Now() == Fresh()
    {
      this.plan := plan;
      committed, provider, counters, drifts, walks, staging := false, None, Counters(0, 0, 0, 0, 0, 0), 0, 0, 0;
      log, attached, detached := [], [], [];
    }

    method Drift()
      modifies this`drifts
      ensures Now() == Drifted(old(Now()))
    {
      if drifts < U64_MAX { drifts := drifts + 1; }
    }

    method Commit(stable: bool) returns (ok: bool)
      modifies this`committed, this`drifts
      ensures Now() == Committed(old(Now()), stable) && ok == stable
    {
      if !stable {
        Drift();
        return false;
      }
      committed := true;
      return true;
    }

    method Attach(context: nat) returns (ok: bool)
      modifies this`provider, this`attached
      ensures Now() == AfterAttach(old(Now()), context) && ok == (committed && old(provider).None?)
    {
      ok := committed && provider.None?;
      if ok {
        provider := Some(context);
        attached := attached + [context];
      }
    }

    // A detach that names another context, or comes when nothing is attached, is refused.
    method Detach(context: nat) returns (ok: bool)
      modifies this`provider, this`detached
      ensures Now() == AfterDetach(old(Now()), context) && ok == (old(provider) == Some(context))
    {
      ok := provider == Some(context);
      if ok {
        provider := None;
        detached := detached + [context];
      }
    }

    method Close()
      modifies this`provider, this`detached
      ensures Now() == AfterClose(old(Now()))
    {
      if provider.Some? { detached := detached + [provider.value]; }
      provider := None;
    }

    // The bytes of an admitted range, from the provider or from the file.
    method Obtain(i: nat, from: nat, length: nat, borrow: bool, world: World)
      returns (ok: bool, data: seq<byte>, resident: bool)
      requires PlanOk(plan) && Admitted(plan, Now(), i, from, length, borrow) && world.stable
      ensures ok == AccessOk(plan, Now(), i, from, length, borrow, world)
      ensures ok ==> Served(i, from, data, resident) == Delivered(plan, Now(), i, from, length, borrow, world)
    {
      ok, data, resident := false, [], false;
      var b := plan.bindings[i];
      var answer := if provider.Some? then world.answer(i) else ReadMiss;
      if answer.ReadInvalid? || (answer.ReadHit? && |answer.span| != b.bytes) || (borrow && !answer.ReadHit?) {
        return;
      }
      if counters.calls >= U64_MAX || counters.bytes + length > U64_MAX { return; }
      if answer.ReadHit? {
        if !world.noted { return; }
        data, resident := answer.span[from..from + length], true;
      } else {
        if !world.readable { return; }
        if plan.release && !world.evictable { return; }
        data := plan.file[b.offset + from..b.offset + from + length];
      }
      ok := true;
    }

    // A copy into the caller's buffer, or a borrow of resident bytes.
    method Access(i: nat, from: nat, length: nat, borrow: bool, world: World) returns (ok: bool, data: seq<byte>)
      requires PlanOk(plan) && i < |plan.bindings|
      modifies this`counters, this`drifts, this`staging, this`log
      ensures Now() == AfterAccess(plan, old(Now()), i, from, length, borrow, world)
      ensures ok == AccessOk(plan, old(Now()), i, from, length, borrow, world)
      ensures ok ==> data == Delivered(plan, old(Now()), i, from, length, borrow, world).data
    {
      hide Count, AccessOk, Delivered, PlanOk;
      NotAdmitted(plan, Now(), i, from, length, borrow, world);
      ok, data := false, [];
      var b := plan.bindings[i];
      if length == 0 || (borrow && provider.None?) || !committed { return; }
      if length > b.bytes || from > b.bytes - length { return; }
      if !world.stable {
        Drift();
        return;
      }
      var resident;
      ok, data, resident := Obtain(i, from, length, borrow, world);
      if !ok { return; }
      Account(length, resident, !borrow, Served(i, from, data, resident));
    }

    // The resident and artifact counters are parts of the totals, so they cannot overflow first.
    method Account(length: nat, resident: bool, staged: bool, ghost served: Served)
      modifies this`counters, this`staging, this`log
      ensures Now() == old(Now()).(counters := Count(old(counters), length, resident), log := old(log) + [served],
                                   staging := if staged && length > old(staging) then length else old(staging))
    {
      if resident {
        counters := counters.(residentCalls := counters.residentCalls + 1,
                              residentBytes := counters.residentBytes + length);
      } else {
        counters := counters.(artifactCalls := counters.artifactCalls + 1,
                              artifactBytes := counters.artifactBytes + length);
      }
      counters := counters.(calls := counters.calls + 1, bytes := counters.bytes + length);
      if staged && length > staging { staging := length; }
      log := log + [served];
    }

    // Reads every binding once, in pieces of at most one chunk.
    method Walk(worlds: nat -> World) returns (ok: bool)
      requires PlanOk(plan)
      modifies this`counters, this`drifts, this`staging, this`walks, this`log
      ensures Walked(Now(), ok) == AfterWalk(plan, old(Now()), worlds)
    {
      hide PlanOk, WalkOn;
      ok := false;
      if !committed { return; }
      ghost var goal := WalkOn(plan, Now(), 0, 0, worlds, 0);
      var k := 0;
      for i := 0 to |plan.bindings|
        invariant WalkOn(plan, Now(), i, 0, worlds, k) == goal
      {
        var all, next := WalkBinding(i, worlds, k, goal);
        if !all { return; }
        k := next;
      }
      WalkEnds(plan, Now(), worlds, k);
      if walks == U64_MAX { return; }
      walks := walks + 1;
      ok := true;
    }

    method WalkBinding(i: nat, worlds: nat -> World, k: nat, ghost goal: Walked) returns (ok: bool, next: nat)
      requires PlanOk(plan) && i < |plan.bindings|
      requires WalkOn(plan, Now(), i, 0, worlds, k) == goal
      modifies this`counters, this`drifts, this`staging, this`log
      ensures walks == old(walks)
      ensures if ok then WalkOn(plan, Now(), i + 1, 0, worlds, next) == goal else Walked(Now(), false) == goal
    {
      hide PlanOk, WalkOn, AfterAccess, AccessOk;
      ok, next := false, k;
      var total, delivered := plan.bindings[i].bytes, 0;
      ChunkPositive(plan);
      while delivered < total
        invariant delivered <= total && WalkOn(plan, Now(), i, delivered, worlds, next) == goal
      {
        WalkStep(plan, Now(), i, delivered, worlds, next);
        var request := Min(total - delivered, plan.chunk);
        if plan.cancelAfterFirst && (counters.artifactCalls > 0 || counters.residentCalls > 0) { return; }
        var got, data := Access(i, delivered, request, false, worlds(next));
        if !got { return; }
        delivered, next := delivered + request, next + 1;
      }
      WalkStep(plan, Now(), i, delivered, worlds, next);
      ok := true;
    }
  }

  lemma NotAdmitted(p: Plan, s: State, i: nat, from: nat, length: nat, borrow: bool, world: World)
    ensures AccessOk(p, s, i, from, length, borrow, world) ==> Admitted(p, s, i, from, length, borrow) && world.stable
  {
  }

  lemma WalkEnds(p: Plan, s: State, worlds: nat -> World, k: nat)
    requires PlanOk(p)
    ensures WalkOn(p, s, |p.bindings|, 0, worlds, k) == Walked(s, true)
  {
  }

  lemma WalkStep(p: Plan, s: State, i: nat, delivered: nat, worlds: nat -> World, k: nat)
    requires PlanOk(p) && i < |p.bindings| && delivered <= p.bindings[i].bytes && p.chunk > 0
    ensures var request := Min(p.bindings[i].bytes - delivered, p.chunk);
            WalkOn(p, s, i, delivered, worlds, k)
            == if delivered == p.bindings[i].bytes then WalkOn(p, s, i + 1, 0, worlds, k)
               else if p.cancelAfterFirst && (s.counters.artifactCalls > 0 || s.counters.residentCalls > 0)
               then Walked(s, false)
               else if !AccessOk(p, s, i, delivered, request, false, worlds(k))
               then Walked(AfterAccess(p, s, i, delivered, request, false, worlds(k)), false)
               else WalkOn(p, AfterAccess(p, s, i, delivered, request, false, worlds(k)), i, delivered + request, worlds, k + 1)
  {
    hide PlanOk, AfterAccess, AccessOk;
  }

  // Any run of requests on a new session, then a close.
  method RunToClose(p: Plan, rs: seq<Request>) returns (s: Session)
    requires PlanOk(p)
    ensures s.plan == p && s.Now() == AfterClose(After(p, rs, |rs|))
  {
    hide Step, PlanOk;
    s := new Session(p);
    for n := 0 to |rs|
      invariant s.Now() == After(p, rs, n)
    {
      Serve(s, rs[n]);
    }
    s.Close();
  }

  method Serve(s: Session, r: Request)
    requires PlanOk(s.plan)
    modifies s
    ensures s.Now() == Step(s.plan, old(s.Now()), r)
  {
    hide PlanOk, WalkOn, AfterWalk;
    match r {
      case Commit(stable) => var ok := s.Commit(stable);
      case Attach(context) => var ok := s.Attach(context);
      case Detach(context) => var ok := s.Detach(context);
      case Read(i, from, length, borrow, world) =>
        if i < |s.plan.bindings| { var ok, data := s.Access(i, from, length, borrow, world); }
      case WalkAll(worlds) => var ok := s.Walk(worlds);
    }
  }
}
