/**
 The open-addressing name index of a materialization plan (src/artifact/materialize.c): linear
 probing in a power-of-two table, for any hash function. Insertion is refused exactly for a name
 that is already there.
 */
module NameIndex {
  import opened Bits

  datatype Slot = Slot(hash: nat, indexPlusOne: nat)

  // ---- Probe positions ----

  // The position after d steps from a hash.
  function Probe(h: nat, d: nat, n: nat): (p: nat)
    requires n > 0
    ensures p < n
  {
    (h + d) % n
  }

  lemma ProbeNext(h: nat, d: nat, n: nat)
    requires n > 0 && IsPowerOfTwo(n)
    ensures And(h, n - 1) == Probe(h, 0, n)
    ensures And(Probe(h, d, n) + 1, n - 1) == Probe(h, d + 1, n)
  {
    hide And, IsPowerOfTwo;
    MaskIsRemainder(h, n);
    MaskIsRemainder(Probe(h, d, n) + 1, n);
    NextRemainder(h + d, n);
  }

  lemma NextRemainder(x: nat, n: nat)
    requires n > 0
    ensures (x % n + 1) % n == (x + 1) % n
  {
    Division(x, n);
    var q, r := x / n, x % n;
    if r + 1 < n {
      RemainderOf(r + 1, n, 0, r + 1);
      RemainderOf(x + 1, n, q, r + 1);
    } else {
      assert n * (q + 1) == n * q + n;
      RemainderOf(r + 1, n, 1, 0);
      RemainderOf(x + 1, n, q + 1, 0);
    }
  }

  // Every position is probed within one round.
  lemma ProbeReaches(h: nat, n: nat, p: nat) returns (d: nat)
    requires p < n
    ensures d < n && Probe(h, d, n) == p
  {
    Division(h, n);
    var q, r := h / n, h % n;
    if r <= p {
      d := p - r;
      RemainderOf(h + d, n, q, p);
    } else {
      d := n + p - r;
      assert n * (q + 1) == n * q + n;
      RemainderOf(h + d, n, q + 1, p);
    }
  }

  ghost function Used(slots: seq<Slot>): nat {
    if slots == [] then 0
    else Used(slots[..|slots| - 1]) + (if slots[|slots| - 1].indexPlusOne != 0 then 1 else 0)
  }

  lemma {:induction false} UsedAll(slots: seq<Slot>)
    requires forall p | 0 <= p < |slots| :: slots[p].indexPlusOne != 0
    ensures Used(slots) == |slots|
  {
    if slots == [] {
    } else {
      UsedAll(slots[..|slots| - 1]);
    }
  }

  lemma {:induction false} UsedNone(slots: seq<Slot>)
    requires forall p | 0 <= p < |slots| :: slots[p].indexPlusOne == 0
    ensures Used(slots) == 0
  {
    if slots == [] {
    } else {
      UsedNone(slots[..|slots| - 1]);
    }
  }

  lemma {:induction false} UsedOneMore(slots: seq<Slot>, p: nat, x: Slot)
    requires p < |slots| && slots[p].indexPlusOne == 0 && x.indexPlusOne != 0
    ensures Used(slots[p := x]) == Used(slots) + 1
  {
    var n := |slots| - 1;
    if p == n {
      assert slots[p := x][..n] == slots[..n];
    } else {
      assert slots[p := x][..n] == slots[..n][p := x];
      UsedOneMore(slots[..n], p, x);
    }
  }

  // ---- The index ----

  class Index {
    const hash: string -> nat
    const capacity: nat
    const slots: array<Slot>
    ghost var names: seq<string>
    ghost var distance: seq<nat>  // how far from its home each name was placed

    // Name i sits at the end of its own probe path, and the path before it is occupied.
    ghost predicate Placed(i: nat)
      requires 0 < capacity == slots.Length && |distance| == |names| && i < |names|
      reads this, slots
    {
      && distance[i] < capacity
      && slots[Probe(hash(names[i]), distance[i], capacity)] == Slot(hash(names[i]), i + 1)
      && forall d | 0 <= d < distance[i] :: slots[Probe(hash(names[i]), d, capacity)].indexPlusOne != 0
    }

    ghost predicate Valid()
      reads this, slots
    {
      && 0 < capacity == slots.Length && IsPowerOfTwo(capacity)
      && |distance| == |names| && Used(slots[..]) == |names|
      && (forall i | 0 <= i < |names| :: Placed(i))
      && (forall p | 0 <= p < capacity :: slots[p].indexPlusOne <= |names|)
    }

    constructor (hash: string -> nat, capacity: nat)
      requires capacity > 0 && IsPowerOfTwo(capacity)
      ensures Valid() && names == [] && this.capacity == capacity && fresh(slots)
    {
      this.hash, this.capacity := hash, capacity;
      slots := new Slot[capacity](_ => Slot(0, 0));
      names, distance := [], [];
      new;
      UsedNone(slots[..]);
    }

    // earlier holds the names of the bindings before this one.
    method Insert(name: string, index: nat, earlier: seq<string>) returns (ok: bool)
      requires Valid() && earlier == names && index == |names| && |names| < capacity
      modifies this`names, this`distance, slots
      ensures Valid()
      ensures ok <==> name !in old(names)
      ensures names == if ok then old(names) + [name] else old(names)
    {
      hide IsPowerOfTwo, And, Used, Probe, Placed;
      var h := hash(name);
      ghost var empty := EmptyProbe(h);
      ProbeNext(h, 0, capacity);
      var slot := And(h, capacity - 1);
      var step := 0;
      while step < capacity
        invariant unchanged(this) && unchanged(slots)
        invariant step <= empty && slot == Probe(h, step, capacity)
        invariant forall d | 0 <= d < step :: Passed(slots[Probe(h, d, capacity)], name)
      {
        var candidate := slots[slot];
        if candidate.indexPlusOne == 0 {
          NotStored(name, step);
          Put(name, index, step);
          return true;
        }
        if candidate.hash == h && earlier[candidate.indexPlusOne - 1] == name { return false; }
        ProbeNext(h, step, capacity);
        slot := And(slot + 1, capacity - 1);
        step := step + 1;
      }
      assert false;  // an empty slot is met within one round
    }

    // An occupied slot that holds another name.
    ghost predicate Passed(s: Slot, name: string)
      reads this
    {
      && 0 < s.indexPlusOne <= |names|
      && (s.hash != hash(name) || names[s.indexPlusOne - 1] != name)
    }

    // A probe that met an empty slot without meeting the name shows that the name is not stored.
    lemma NotStored(name: string, step: nat)
      requires Valid() && step < capacity && slots[Probe(hash(name), step, capacity)].indexPlusOne == 0
      requires forall d | 0 <= d < step :: Passed(slots[Probe(hash(name), d, capacity)], name)
      ensures name !in names
    {
      hide IsPowerOfTwo, Used, Probe;
      forall i | 0 <= i < |names| ensures names[i] != name {
        assert Placed(i);
        var reached := Probe(hash(name), distance[i], capacity);
      }
    }

    // The table is never full: it has more slots than names.
    lemma EmptyProbe(h: nat) returns (d: nat)
      requires Valid() && |names| < capacity
      ensures d < capacity && slots[Probe(h, d, capacity)].indexPlusOne == 0
    {
      hide IsPowerOfTwo, Used, Probe, Placed;
      if forall p | 0 <= p < |slots[..]| :: slots[..][p].indexPlusOne != 0 { UsedAll(slots[..]); }
      var p :| 0 <= p < capacity && slots[p].indexPlusOne == 0;
      d := ProbeReaches(h, capacity, p);
    }

    // Stores the name at the empty slot the probe has reached.
    method Put(name: string, index: nat, step: nat)
      requires Valid() && step < capacity && index == |names|
      requires slots[Probe(hash(name), step, capacity)].indexPlusOne == 0
      requires forall d | 0 <= d < step :: Passed(slots[Probe(hash(name), d, capacity)], name)
      modifies this`names, this`distance, slots
      ensures Valid() && names == old(names) + [name]
    {
      hide IsPowerOfTwo, Used, Probe;
      var p := Probe(hash(name), step, capacity);
      var entry := Slot(hash(name), index + 1);
      ghost var before := slots[..];
      UsedOneMore(before, p, entry);
      slots[p] := entry;
      assert slots[..] == before[p := entry];
      names, distance := names + [name], distance + [step];
      forall i | 0 <= i < |names| ensures Placed(i) {
        if i < |names| - 1 { assert old(Placed(i)); }
      }
    }
  }

  // ---- The index stage of plan build and plan import ----

  ghost predicate NoRepeats(names: seq<string>) {
    forall i, j | 0 <= i < j < |names| :: names[i] != names[j]
  }

  /** The names of all bindings can be indexed exactly when no name occurs twice. */
  method IndexAll(names: seq<string>, hash: string -> nat, capacity: nat) returns (ok: bool)
    requires |names| < capacity && IsPowerOfTwo(capacity)
    ensures ok <==> NoRepeats(names)
  {
    hide IsPowerOfTwo;
    var index := new Index(hash, capacity);
    for i := 0 to |names|
      invariant index.Valid() && fresh(index) && fresh(index.slots) && index.capacity == capacity
      invariant index.names == names[..i] && NoRepeats(names[..i])
    {
      ok := index.Insert(names[i], i, names[..i]);
      assert names[..i + 1] == names[..i] + [names[i]];
      if !ok {
        var j :| 0 <= j < i && names[..i][j] == names[i];
        assert names[j] == names[i];
        return;
      }
    }
    assert names[..|names|] == names;
    ok := true;
  }
}
