/**
 The bump allocators of src/backend/residency.c: the device workspace, and the host workspace with its
 sealed prefix. Step says what a request does to an arena and what it answers; the methods are proved
 against it, and the lemmas are about every run of requests.
 */
module Workspace {
  import opened Bits

  datatype Outcome = Miss | Invalid | Hit

  // Offsets from start up to, and without, end.
  datatype Range = Range(start: nat, end: nat)

  ghost predicate Disjoint(a: Range, b: Range) {
    a.end <= b.start || b.end <= a.start
  }

  // The least position from x on that the alignment allows.
  ghost predicate Placed(x: nat, alignment: nat, y: nat) {
    && alignment > 0 && x <= y && y % alignment == 0
    && forall z: nat | x <= z && z % alignment == 0 :: y <= z
  }

  lemma PlacedByRounding(x: nat, alignment: nat)
    requires alignment > 0 && IsPowerOfTwo(alignment)
    ensures Placed(x, alignment, RoundUp(x, alignment)) && x <= RoundUp(x, alignment)
  {
    RoundUpIsLeast(x, alignment);
  }

  predicate AlignmentOk(alignment: u64) {
    alignment != 0 && And(alignment, alignment - 1) == 0
  }

  lemma AlignmentTest(alignment: u64)
    ensures AlignmentOk(alignment) <==> alignment > 0 && IsPowerOfTwo(alignment)
  {
    if alignment > 0 { PowerTest(alignment); }
  }

  // ---- An arena, as a value ----

  // live: the backend takes work, that is, it is neither closing nor failed. The device aligns offsets,
  // the host addresses. Only the host seals a prefix.
  datatype Arena = Arena(onHost: bool, live: bool, ready: bool, address: u64, bytes: u64,
                         reserved: u64, cursor: u64, peak: u64)

  datatype Request =
    | Attach(start: u64, extent: u64, granted: bool)  // granted: the memory could be had
    | Detach(freed: bool)
    | Acquire(count: u64, alignment: u64)
    | Reserve(count: u64, alignment: u64)
    | Reset

  datatype Answer = Answer(outcome: Outcome, location: nat)

  datatype Served = Served(arena: Arena, answer: Answer)

  function Origin(a: Arena): nat {
    if a.onHost then a.address else 0
  }

  // The offset that the cursor is rounded to.
  function Aligned(a: Arena, alignment: nat): nat
    requires alignment > 0
  {
    var place := RoundUp(Origin(a) + a.cursor, alignment);
    if place < Origin(a) then 0 else place - Origin(a)
  }

  function Acquired(a: Arena, count: u64, alignment: u64): Served {
    if !a.live || !a.ready then Served(a, Answer(Miss, 0))
    else if count == 0 || !AlignmentOk(alignment) then Served(a, Answer(Invalid, 0))
    else if Origin(a) + a.cursor + (alignment - 1) > U64_MAX then Served(a, Answer(Invalid, 0))
    else
      var offset := Aligned(a, alignment);
      if offset + count > a.bytes || a.address + offset > U64_MAX then Served(a, Answer(Miss, 0))
      else
        var top: u64 := offset + count;
        Served(a.(cursor := top, peak := if top > a.peak then top else a.peak), Answer(Hit, a.address + offset))
  }

  function Reserved(a: Arena, count: u64, alignment: u64): Served {
    if a.reserved > 0 then
      Served(a, if count == a.reserved then Answer(Hit, a.address) else Answer(Miss, 0))
    else if a.cursor > 0 then Served(a, Answer(Miss, 0))
    else
      var s := Acquired(a, count, alignment);
      if s.answer.outcome != Hit then s
      else if s.answer.location == a.address then Served(s.arena.(reserved := count), s.answer)
      else Served(a, Answer(Invalid, 0))
  }

  function Step(a: Arena, r: Request): Served {
    match r
    case Attach(start, extent, granted) =>
      if a.live && !a.ready && extent > 0 && granted
      then Served(a.(ready := true, address := start, bytes := extent), Answer(Hit, 0))
      else Served(a, Answer(Miss, 0))
    case Detach(freed) =>
      if freed
      then Served(Arena(a.onHost, a.live, false, 0, 0, 0, 0, 0), Answer(Hit, 0))
      else Served(a, Answer(Miss, 0))
    case Acquire(count, alignment) => Acquired(a, count, alignment)
    case Reserve(count, alignment) => Reserved(a, count, alignment)
    case Reset => Served(a.(cursor := a.reserved), Answer(Hit, 0))
  }

  ghost predicate Ok(a: Arena) {
    && a.reserved <= a.cursor <= a.peak <= a.bytes
    && (!a.ready ==> a.peak == 0)
  }

  // ---- One request ----

  /**
   A grant is at the least aligned place behind the cursor and inside the arena; it is made exactly when
   it fits; a refusal changes nothing.
   */
  lemma AcquireExact(a: Arena, count: u64, alignment: u64)
    ensures var s := Acquired(a, count, alignment);
            && (s.answer.outcome.Hit? ==>
                  && count > 0 && s.arena.cursor >= count && s.arena.cursor <= a.bytes
                  && Placed(Origin(a) + a.cursor, alignment, Origin(a) + (s.arena.cursor - count))
                  && s.answer.location == a.address + (s.arena.cursor - count)
                  && s.arena == a.(cursor := s.arena.cursor, peak := s.arena.peak)
                  && s.arena.peak == if s.arena.cursor > a.peak then s.arena.cursor else a.peak)
            && (!s.answer.outcome.Hit? ==> s.arena == a)
    ensures Acquired(a, count, alignment).answer.outcome.Hit? <==>
              && a.live && a.ready && count > 0 && alignment > 0 && IsPowerOfTwo(alignment)
              && Origin(a) + a.cursor + (alignment - 1) <= U64_MAX
              && Aligned(a, alignment) + count <= a.bytes && a.address + Aligned(a, alignment) <= U64_MAX
    ensures !a.live || !a.ready ==> Acquired(a, count, alignment).answer.outcome.Miss?
    ensures a.live && a.ready && (count == 0 || alignment == 0 || !IsPowerOfTwo(alignment)) ==>
              Acquired(a, count, alignment).answer.outcome.Invalid?
  {
    hide And, RoundUp, IsPowerOfTwo, AlignmentOk, Placed;
    AlignmentTest(alignment);
    if alignment > 0 && IsPowerOfTwo(alignment) {
      PlacedByRounding(Origin(a) + a.cursor, alignment);
    }
  }

  // The cursor only goes back when everything, or everything transient, is given back.
  predicate Clears(r: Request) {
    r.Reset? || r.Detach?
  }

  lemma AcquireGrows(a: Arena, count: u64, alignment: u64)
    requires Ok(a)
    ensures var b := Acquired(a, count, alignment).arena;
            && Ok(b) && a.cursor <= b.cursor && b == a.(cursor := b.cursor, peak := b.peak)
            && a.peak <= b.peak && (b.peak == a.peak || b.peak == b.cursor)
    ensures var s := Acquired(a, count, alignment);
            s.answer.outcome.Hit? ==> count > 0 && a.cursor + count <= s.arena.cursor
  {
    hide Acquired, IsPowerOfTwo, RoundUp;
    AcquireExact(a, count, alignment);
  }

  lemma StepOk(a: Arena, r: Request)
    requires Ok(a)
    ensures var b := Step(a, r).arena;
            && Ok(b)
            && (!Clears(r) ==> a.cursor <= b.cursor)
            && (!r.Detach? ==> a.peak <= b.peak && (b.peak == a.peak || b.peak == b.cursor))
            && (a.reserved > 0 && !r.Detach? ==> b.reserved == a.reserved)
            && (a.reserved == 0 < b.reserved ==> r.Reserve? && a.cursor == 0)
            && (a.ready && !r.Detach? ==> b.ready && b.address == a.address && b.bytes == a.bytes)
  {
    hide Acquired;
    if r.Acquire? || r.Reserve? { AcquireGrows(a, r.count, r.alignment); }
  }

  /** A prefix is first sealed exactly when nothing is in use and an aligned grant would start the arena. */
  lemma ReserveExact(a: Arena, count: u64, alignment: u64)
    requires Ok(a) && a.reserved == 0
    ensures var s := Reserved(a, count, alignment);
            && (s.answer.outcome.Hit? <==>
                  a.cursor == 0 && Acquired(a, count, alignment).answer == Answer(Hit, a.address))
            && (s.answer.outcome.Hit? ==> s.arena.reserved == s.arena.cursor == count > 0)
            && (!s.answer.outcome.Hit? ==> s.arena == a)
  {
    hide Acquired, IsPowerOfTwo, RoundUp;
    AcquireExact(a, count, alignment);
  }

  // ---- Runs ----

  function After(a: Arena, rs: seq<Request>, n: nat): Arena
    requires n <= |rs|
  {
    if n == 0 then a else Step(After(a, rs, n - 1), rs[n - 1]).arena
  }

  function AnswerTo(a: Arena, rs: seq<Request>, i: nat): Answer
    requires i < |rs|
  {
    Step(After(a, rs, i), rs[i]).answer
  }

  predicate IsGrant(a: Arena, rs: seq<Request>, i: nat)
    requires i < |rs|
  {
    rs[i].Acquire? && AnswerTo(a, rs, i).outcome.Hit?
  }

  // What a grant of the run covers.
  function Granted(a: Arena, rs: seq<Request>, i: nat): Range
    requires Ok(a) && i < |rs| && IsGrant(a, rs, i)
  {
    GrantFits(a, rs, i);
    Range(After(a, rs, i + 1).cursor - rs[i].count, After(a, rs, i + 1).cursor)
  }

  lemma {:induction false} AfterOk(a: Arena, rs: seq<Request>, n: nat)
    requires Ok(a) && n <= |rs|
    ensures Ok(After(a, rs, n))
  {
    hide Step, Ok;
    if n == 0 {
    } else {
      AfterOk(a, rs, n - 1);
      StepOk(After(a, rs, n - 1), rs[n - 1]);
    }
  }

  lemma GrantFits(a: Arena, rs: seq<Request>, i: nat)
    requires Ok(a) && i < |rs| && IsGrant(a, rs, i)
    ensures After(a, rs, i + 1) == Acquired(After(a, rs, i), rs[i].count, rs[i].alignment).arena
    ensures rs[i].count > 0 && After(a, rs, i).cursor + rs[i].count <= After(a, rs, i + 1).cursor
  {
    hide Acquired;
    AfterOk(a, rs, i);
    AcquireGrows(After(a, rs, i), rs[i].count, rs[i].alignment);
  }

  /** Each grant of a run is inside the arena and at the least aligned place behind the cursor it found. */
  lemma GrantPlaced(a: Arena, rs: seq<Request>, i: nat)
    requires Ok(a) && i < |rs| && IsGrant(a, rs, i)
    ensures var before, r := After(a, rs, i), Granted(a, rs, i);
            && before.cursor <= r.start < r.end <= before.bytes
            && Placed(Origin(before) + before.cursor, rs[i].alignment, Origin(before) + r.start)
            && AnswerTo(a, rs, i).location == before.address + r.start
  {
    hide Acquired, Placed, IsPowerOfTwo, RoundUp;
    GrantFits(a, rs, i);
    AcquireExact(After(a, rs, i), rs[i].count, rs[i].alignment);
  }

  lemma {:induction false} CursorGrows(a: Arena, rs: seq<Request>, m: nat, n: nat)
    requires Ok(a) && m <= n <= |rs| && forall k | m <= k < n :: !Clears(rs[k])
    ensures After(a, rs, m).cursor <= After(a, rs, n).cursor
  {
    hide Step, Ok;
    if m == n {
    } else {
      CursorGrows(a, rs, m, n - 1);
      AfterOk(a, rs, n - 1);
      StepOk(After(a, rs, n - 1), rs[n - 1]);
    }
  }

  /** Two grants with nothing given back between them do not overlap. */
  lemma GrantsDisjoint(a: Arena, rs: seq<Request>, i: nat, j: nat)
    requires Ok(a) && i < j < |rs| && IsGrant(a, rs, i) && IsGrant(a, rs, j)
    requires forall k | i < k < j :: !Clears(rs[k])
    ensures Disjoint(Granted(a, rs, i), Granted(a, rs, j))
  {
    hide After, Step, Ok;
    GrantFits(a, rs, i);
    GrantFits(a, rs, j);
    CursorGrows(a, rs, i + 1, j);
  }

  lemma {:induction false} SealStays(a: Arena, rs: seq<Request>, m: nat, n: nat)
    requires Ok(a) && m <= n <= |rs| && After(a, rs, m).reserved > 0 && forall k | m <= k < n :: !rs[k].Detach?
    ensures After(a, rs, n).reserved == After(a, rs, m).reserved
  {
    hide Step, Ok;
    if m == n {
    } else {
      SealStays(a, rs, m, n - 1);
      AfterOk(a, rs, n - 1);
      StepOk(After(a, rs, n - 1), rs[n - 1]);
    }
  }

  /** Once a prefix is sealed, no later grant reaches into it, whatever is reset. */
  lemma SealUntouched(a: Arena, rs: seq<Request>, m: nat, j: nat)
    requires Ok(a) && m <= j < |rs| && After(a, rs, m).reserved > 0 && IsGrant(a, rs, j)
    requires forall k | m <= k < j :: !rs[k].Detach?
    ensures Disjoint(Granted(a, rs, j), Range(0, After(a, rs, m).reserved))
  {
    hide After, Step;
    SealStays(a, rs, m, j);
    AfterOk(a, rs, j);
    GrantFits(a, rs, j);
  }

  /** Every grant made before the prefix is sealed has been given back by then. */
  lemma SealedWhenFree(a: Arena, rs: seq<Request>, i: nat, s: nat)
    requires Ok(a) && i < s < |rs| && IsGrant(a, rs, i)
    requires After(a, rs, s).reserved == 0 < After(a, rs, s + 1).reserved
    ensures rs[s].Reserve? && exists k :: i < k < s && Clears(rs[k])
  {
    hide Step, Ok;
    GrantFits(a, rs, i);
    AfterOk(a, rs, s);
    StepOk(After(a, rs, s), rs[s]);
    if forall k | i < k < s :: !Clears(rs[k]) {
      CursorGrows(a, rs, i + 1, s);
    }
  }

  ghost predicate Reached(a: Arena, rs: seq<Request>, n: nat, peak: nat)
    requires n <= |rs|
  {
    exists i | 0 <= i <= n :: After(a, rs, i).cursor == peak
  }

  /** While the arena stays attached its peak is the highest cursor of the run, or the one it started with. */
  lemma {:induction false} PeakIsHighest(a: Arena, rs: seq<Request>, n: nat)
    requires Ok(a) && n <= |rs| && forall k | 0 <= k < n :: !rs[k].Detach?
    ensures forall i | 0 <= i <= n :: After(a, rs, i).cursor <= After(a, rs, n).peak
    ensures a.peak <= After(a, rs, n).peak
    ensures After(a, rs, n).peak == a.peak || Reached(a, rs, n, After(a, rs, n).peak)
  {
    hide Step;
    AfterOk(a, rs, n);
    if n == 0 {
    } else {
      PeakIsHighest(a, rs, n - 1);
      AfterOk(a, rs, n - 1);
      StepOk(After(a, rs, n - 1), rs[n - 1]);
      assert After(a, rs, n).peak == After(a, rs, n).cursor ==> Reached(a, rs, n, After(a, rs, n).peak);
    }
  }

  // ---- Device workspace ----

  class DeviceWorkspace {
    var live: bool
    var attached: bool
    var address: u64
    var bytes: u64
    var cursor: u64
    var peak: u64

    function Now(): Arena
      reads this
    {
      Arena(false, live, attached, address, bytes, 0, cursor, peak)
    }

    constructor ()
      ensures Now() == Arena(false, true, false, 0, 0, 0, 0, 0)
    {
      live, attached, address, bytes, cursor, peak := true, false, 0, 0, 0, 0;
    }

    // A second attachment is refused.
    method Attach(start: u64, extent: u64, granted: bool) returns (ok: bool)
      modifies this
      ensures Served(Now(), Answer(if ok then Hit else Miss, 0)) == Step(old(Now()), Request.Attach(start, extent, granted))
    {
      ok := live && granted && extent > 0 && !attached;
      if ok { attached, address, bytes := true, start, extent; }
    }

    method Detach()
      modifies this
      ensures Now() == Step(old(Now()), Request.Detach(true)).arena
    {
      attached, address, bytes, cursor, peak := false, 0, 0, 0, 0;
    }

    method Acquire(count: u64, alignment: u64) returns (outcome: Outcome, location: nat)
      modifies this`cursor, this`peak
      ensures Served(Now(), Answer(outcome, location)) == Step(old(Now()), Request.Acquire(count, alignment))
    {
      hide And, RoundUp;
      location := 0;
      if !live || !attached { return Miss, 0; }
      if count == 0 || !AlignmentOk(alignment) { return Invalid, 0; }
      var mask := alignment - 1;
      if cursor > U64_MAX - mask { return Invalid, 0; }
      var aligned := RoundUp(cursor, alignment);
      if aligned > bytes || count > bytes - aligned || address > U64_MAX - aligned { return Miss, 0; }
      location := address + aligned;
      cursor := aligned + count;
      if cursor > peak { peak := cursor; }
      outcome := Hit;
    }

    method Reset()
      modifies this`cursor
      ensures Now() == Step(old(Now()), Request.Reset).arena
    {
      cursor := 0;
    }
  }

  // ---- Host workspace ----

  class HostWorkspace {
    var live: bool
    var prepared: bool
    var base: u64      // the address of the arena
    var bytes: u64
    var reserved: u64  // the sealed prefix
    var cursor: u64
    var peak: u64

    function Now(): Arena
      reads this
    {
      Arena(true, live, prepared, base, bytes, reserved, cursor, peak)
    }

    constructor ()
      ensures Now() == Arena(true, true, false, 0, 0, 0, 0, 0)
    {
      live, prepared, base, bytes, reserved, cursor, peak := true, false, 0, 0, 0, 0, 0;
    }

    // start is the address the allocator returned for the whole arena, when it returned one.
    method Prepare(start: u64, extent: u64, granted: bool) returns (ok: bool)
      modifies this
      ensures Served(Now(), Answer(if ok then Hit else Miss, 0)) == Step(old(Now()), Attach(start, extent, granted))
    {
      ok := live && extent > 0 && !prepared && granted;
      if ok { prepared, base, bytes := true, start, extent; }
    }

    // The arena stays when it cannot be freed.
    method Detach(freed: bool) returns (ok: bool)
      modifies this
      ensures Served(Now(), Answer(if ok then Hit else Miss, 0)) == Step(old(Now()), Request.Detach(freed))
    {
      ok := freed;
      if ok { prepared, base, bytes, reserved, cursor, peak := false, 0, 0, 0, 0, 0; }
    }

    method Acquire(count: u64, alignment: u64) returns (outcome: Outcome, location: nat)
      modifies this`cursor, this`peak
      ensures Served(Now(), Answer(outcome, location)) == Step(old(Now()), Request.Acquire(count, alignment))
    {
      hide And, RoundUp;
      location := 0;
      if !live || !prepared { return Miss, 0; }
      if count == 0 || !AlignmentOk(alignment) { return Invalid, 0; }
      var mask := alignment - 1;
      if cursor > U64_MAX - base || base + cursor > U64_MAX - mask { return Invalid, 0; }
      var aligned := RoundUp(base + cursor, alignment);
      RoundsUp(base + cursor, alignment);
      var offset := aligned - base;
      if offset > bytes || count > bytes - offset { return Miss, 0; }
      location := aligned;
      cursor := offset + count;
      if cursor > peak { peak := cursor; }
      outcome := Hit;
    }

    // Seals a prefix; asking again for the same extent finds it again. A grant that does not start
    // at the base is taken back.
    method Reserve(count: u64, alignment: u64) returns (outcome: Outcome, location: nat)
      modifies this`reserved, this`cursor, this`peak
      ensures Served(Now(), Answer(outcome, location)) == Step(old(Now()), Request.Reserve(count, alignment))
    {
      hide Acquired;
      location := 0;
      if reserved > 0 {
        if count != reserved { return Miss, 0; }
        return Hit, base;
      }
      if cursor > 0 { return Miss, 0; }
      var priorPeak := peak;
      AcquireExact(Now(), count, alignment);
      outcome, location := Acquire(count, alignment);
      if outcome == Hit && location == base {
        reserved := count;
      } else if outcome == Hit {
        cursor, peak := 0, priorPeak;
        location := 0;
        outcome := Invalid;
      }
    }

    method Reset()
      modifies this`cursor
      ensures Now() == Step(old(Now()), Request.Reset).arena
    {
      cursor := reserved;
    }
  }

  lemma RoundsUp(x: nat, alignment: u64)
    requires AlignmentOk(alignment)
    ensures x <= RoundUp(x, alignment) <= x + (alignment - 1)
  {
    hide And, IsPowerOfTwo;
    AlignmentTest(alignment);
    RoundUpIsLeast(x, alignment);
  }

  // ---- Driving a workspace ----

  // Any run of requests on a host workspace answers as the run of its arena does.
  method DriveHost(w: HostWorkspace, rs: seq<Request>) returns (answers: seq<Answer>)
    modifies w
    ensures w.Now() == After(old(w.Now()), rs, |rs|) && |answers| == |rs|
    ensures forall i | 0 <= i < |rs| :: answers[i] == AnswerTo(old(w.Now()), rs, i)
  {
    hide Step;
    ghost var a := w.Now();
    answers := [];
    for n := 0 to |rs|
      invariant w.Now() == After(a, rs, n) && |answers| == n
      invariant forall i | 0 <= i < n :: answers[i] == AnswerTo(a, rs, i)
    {
      var answer := ServeHost(w, rs[n]);
      answers := answers + [answer];
    }
  }

  method ServeHost(w: HostWorkspace, r: Request) returns (answer: Answer)
    modifies w
    ensures Served(w.Now(), answer) == Step(old(w.Now()), r)
  {
    hide Acquired, Reserved;
    var outcome, location := Hit, 0;
    match r {
      case Attach(start, extent, granted) =>
        var ok := w.Prepare(start, extent, granted);
        outcome := if ok then Hit else Miss;
      case Detach(freed) =>
        var ok := w.Detach(freed);
        outcome := if ok then Hit else Miss;
      case Acquire(count, alignment) => outcome, location := w.Acquire(count, alignment);
      case Reserve(count, alignment) => outcome, location := w.Reserve(count, alignment);
      case Reset => w.Reset();
    }
    answer := Answer(outcome, location);
  }

  // The device has no prefix to seal, and its tensor is always given back.
  predicate ForDevice(r: Request) {
    !r.Reserve? && (r.Detach? ==> r.freed)
  }

  // Any run of requests on a device workspace answers as the run of its arena does.
  method DriveDevice(w: DeviceWorkspace, rs: seq<Request>) returns (answers: seq<Answer>)
    requires forall i | 0 <= i < |rs| :: ForDevice(rs[i])
    modifies w
    ensures w.Now() == After(old(w.Now()), rs, |rs|) && |answers| == |rs|
    ensures forall i | 0 <= i < |rs| :: answers[i] == AnswerTo(old(w.Now()), rs, i)
  {
    hide Step;
    ghost var a := w.Now();
    answers := [];
    for n := 0 to |rs|
      invariant w.Now() == After(a, rs, n) && |answers| == n
      invariant forall i | 0 <= i < n :: answers[i] == AnswerTo(a, rs, i)
    {
      var answer := ServeDevice(w, rs[n]);
      answers := answers + [answer];
    }
  }

  method ServeDevice(w: DeviceWorkspace, r: Request) returns (answer: Answer)
    requires ForDevice(r)
    modifies w
    ensures Served(w.Now(), answer) == Step(old(w.Now()), r)
  {
    hide Acquired;
    var outcome, location := Hit, 0;
    match r {
      case Attach(start, extent, granted) =>
        var ok := w.Attach(start, extent, granted);
        outcome := if ok then Hit else Miss;
      case Detach(_) => w.Detach();
      case Acquire(count, alignment) => outcome, location := w.Acquire(count, alignment);
      case Reset => w.Reset();
    }
    answer := Answer(outcome, location);
  }
}
