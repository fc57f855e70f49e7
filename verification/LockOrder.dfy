/**
 The order in which the QA runner takes resource locks (tools/qa.py, resource_locks): the resource
 names of a test, sorted as strings, without the shareable ones.
 */
module LockOrder {

  // ---- Python's order on strings ----

  predicate Less(a: string, b: string) {
    if b == "" then false
    else if a == "" then true
    else a[0] < b[0] || (a[0] == b[0] && Less(a[1..], b[1..]))
  }

  lemma {:induction false} LessTransitive(a: string, b: string, c: string)
    requires Less(a, b) && Less(b, c)
    ensures Less(a, c)
  {
    if a == "" {
    } else if a[0] == b[0] == c[0] {
      LessTransitive(a[1..], b[1..], c[1..]);
    }
  }

  lemma {:induction false} LessIrreflexive(a: string)
    ensures !Less(a, a)
  {
    if a == "" {
    } else {
      LessIrreflexive(a[1..]);
    }
  }

  lemma {:induction false} LessTotal(a: string, b: string)
    ensures a == b || Less(a, b) || Less(b, a)
  {
    if a == "" || b == "" {
    } else {
      LessTotal(a[1..], b[1..]);
      assert a == [a[0]] + a[1..] && b == [b[0]] + b[1..];
    }
  }

  ghost predicate Ascending(names: seq<string>) {
    forall i, j | 0 <= i < j < |names| :: Less(names[i], names[j])
  }

  ghost predicate Distinct(names: seq<string>) {
    forall i, j | 0 <= i < j < |names| :: names[i] != names[j]
  }

  // ---- Sorting and filtering ----

  function Insert(x: string, names: seq<string>): seq<string> {
    if names == [] then [x]
    else if Less(names[0], x) then [names[0]] + Insert(x, names[1..])
    else [x] + names
  }

  function Sorted(names: seq<string>): seq<string> {
    if names == [] then [] else Insert(names[0], Sorted(names[1..]))
  }

  function Filter(names: seq<string>, exclusive: set<string>): seq<string> {
    if names == [] then []
    else if names[0] in exclusive then [names[0]] + Filter(names[1..], exclusive)
    else Filter(names[1..], exclusive)
  }

  // The locks taken for a list of resources, in the order they are taken.
  function LockPlan(resources: seq<string>, exclusive: set<string>): seq<string> {
    Filter(Sorted(resources), exclusive)
  }

  lemma {:induction false} InsertAscending(x: string, names: seq<string>)
    requires Ascending(names) && x !in names
    ensures Ascending(Insert(x, names))
    ensures forall y :: y in Insert(x, names) <==> y == x || y in names
  {
    if names == [] {
    } else {
      assert names == [names[0]] + names[1..];
      if Less(names[0], x) {
        InsertAscending(x, names[1..]);
        var rest := Insert(x, names[1..]);
        forall j | 0 <= j < |rest| ensures Less(names[0], rest[j]) { assert rest[j] in rest; }
      } else {
        LessTotal(x, names[0]);
        forall j | 0 <= j < |names| ensures Less(x, names[j]) {
          if j > 0 { LessTransitive(x, names[0], names[j]); }
        }
      }
    }
  }

  lemma {:induction false} SortedAscending(names: seq<string>)
    requires Distinct(names)
    ensures Ascending(Sorted(names)) && forall y :: y in Sorted(names) <==> y in names
  {
    if names == [] {
    } else {
      assert names == [names[0]] + names[1..];
      SortedAscending(names[1..]);
      InsertAscending(names[0], Sorted(names[1..]));
    }
  }

  lemma {:induction false} FilterAscending(names: seq<string>, exclusive: set<string>)
    requires Ascending(names)
    ensures Ascending(Filter(names, exclusive))
    ensures forall y :: y in Filter(names, exclusive) <==> y in names && y in exclusive
  {
    if names == [] {
    } else {
      assert names == [names[0]] + names[1..];
      FilterAscending(names[1..], exclusive);
      var rest := Filter(names[1..], exclusive);
      forall j | 0 <= j < |rest| ensures Less(names[0], rest[j]) { assert rest[j] in rest; }
    }
  }

  /** A list without repeats is locked in strictly ascending order, exactly its exclusive names. */
  lemma PlanAscends(resources: seq<string>, exclusive: set<string>)
    requires Distinct(resources)
    ensures var plan := LockPlan(resources, exclusive);
            Ascending(plan) && forall y :: y in plan <==> y in resources && y in exclusive
  {
    SortedAscending(resources);
    FilterAscending(Sorted(resources), exclusive);
  }

  // ---- Lists with repeats ----

  // No name comes before an earlier one.
  ghost predicate Weakly(names: seq<string>) {
    forall i, j | 0 <= i < j < |names| :: !Less(names[j], names[i])
  }

  lemma NotLess(a: string, b: string, c: string)
    requires !Less(b, a) && !Less(c, b)
    ensures !Less(c, a)
  {
    LessTotal(a, b);
    LessTotal(b, c);
    LessIrreflexive(a);
    if Less(c, a) {
      if Less(a, b) { LessTransitive(c, a, b); }
    }
  }

  lemma NotBack(a: string, b: string)
    requires Less(a, b)
    ensures !Less(b, a)
  {
    if Less(b, a) {
      LessTransitive(a, b, a);
      LessIrreflexive(a);
    }
  }

  lemma {:induction false} InsertKeeps(x: string, names: seq<string>)
    ensures multiset(Insert(x, names)) == multiset(names) + multiset{x}
  {
    hide Less;
    if names == [] {
    } else {
      assert names == [names[0]] + names[1..];
      InsertKeeps(x, names[1..]);
    }
  }

  lemma {:induction false} InsertWeakly(x: string, names: seq<string>)
    requires Weakly(names)
    ensures Weakly(Insert(x, names))
  {
    hide Less;
    if names == [] {
    } else if Less(names[0], x) {
      InsertWeakly(x, names[1..]);
      InsertKeeps(x, names[1..]);
      var rest := Insert(x, names[1..]);
      NotBack(names[0], x);
      forall j | 0 <= j < |rest| ensures !Less(rest[j], names[0]) {
        assert rest[j] in multiset(rest);
        assert rest[j] != x ==> rest[j] in names[1..];
      }
    } else {
      forall j | 0 <= j < |names| ensures !Less(names[j], x) {
        if j > 0 { NotLess(x, names[0], names[j]); }
      }
    }
  }

  lemma {:induction false} SortedWeakly(names: seq<string>)
    ensures Weakly(Sorted(names)) && multiset(Sorted(names)) == multiset(names)
  {
    if names == [] {
    } else {
      assert names == [names[0]] + names[1..];
      SortedWeakly(names[1..]);
      InsertWeakly(names[0], Sorted(names[1..]));
      InsertKeeps(names[0], Sorted(names[1..]));
    }
  }

  lemma {:induction false} FilterWeakly(names: seq<string>, exclusive: set<string>)
    requires Weakly(names)
    ensures Weakly(Filter(names, exclusive))
    ensures forall x :: multiset(Filter(names, exclusive))[x] == if x in exclusive then multiset(names)[x] else 0
  {
    if names == [] {
    } else {
      assert names == [names[0]] + names[1..];
      FilterWeakly(names[1..], exclusive);
      var rest := Filter(names[1..], exclusive);
      forall j | 0 <= j < |rest| ensures !Less(rest[j], names[0]) {
        assert rest[j] in multiset(rest);
        assert rest[j] in multiset(names[1..]);
      }
    }
  }

  lemma {:induction false} DistinctCounts(names: seq<string>)
    ensures Distinct(names) <==> forall x :: multiset(names)[x] <= 1
  {
    if names == [] {
    } else {
      var first, rest := names[0], names[1..];
      assert names == [first] + rest;
      DistinctCounts(rest);
      assert first in rest <==> multiset(rest)[first] >= 1;
      assert Distinct(names) <==> Distinct(rest) && first !in rest by { DistinctFirst(names); }
      if multiset(rest)[first] >= 1 {
        assert multiset(names)[first] >= 2;
      }
      if x :| multiset(rest)[x] > 1 {
        assert multiset(names)[x] > 1;
      }
    }
  }

  lemma DistinctFirst(names: seq<string>)
    requires names != []
    ensures Distinct(names) <==> Distinct(names[1..]) && names[0] !in names[1..]
  {
    var rest := names[1..];
    assert forall i | 0 <= i < |rest| :: rest[i] == names[i + 1];
    if Distinct(rest) && names[0] !in rest {
      forall i, j | 0 <= i < j < |names| ensures names[i] != names[j] {
        assert names[j] == rest[j - 1] && (i > 0 ==> names[i] == rest[i - 1]);
      }
    }
  }

  /** Any list is locked in order; a lock is asked for twice exactly when an exclusive resource is listed twice. */
  lemma PlanRepeats(resources: seq<string>, exclusive: set<string>)
    ensures Weakly(LockPlan(resources, exclusive))
    ensures Distinct(LockPlan(resources, exclusive)) <==> forall x | x in exclusive :: multiset(resources)[x] <= 1
  {
    SortedWeakly(resources);
    FilterWeakly(Sorted(resources), exclusive);
    DistinctCounts(LockPlan(resources, exclusive));
  }
}
