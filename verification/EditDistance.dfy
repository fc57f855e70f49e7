/**
 The edit distance behind the "did you mean" hint (src/cli/main.c): a table filled row by row in
 two arrays. The table entry is shown to be the least number of single-character insertions,
 deletions and replacements, and that number to be a metric.
 */
module EditDistance {
  import opened Common

  const TEXT_CAP: nat := 256
  const SIZE_MAX: nat := 0xFFFF_FFFF_FFFF_FFFF

  // ---- Edits ----

  datatype Edit = Insert(at: nat, c: char) | Delete(at: nat) | Replace(at: nat, c: char)

  ghost predicate Fits(s: string, e: Edit) {
    match e
    case Insert(at, _) => at <= |s|
    case Delete(at) => at < |s|
    case Replace(at, _) => at < |s|
  }

  ghost function Apply(s: string, e: Edit): string
    requires Fits(s, e)
  {
    match e
    case Insert(at, c) => s[..at] + [c] + s[at..]
    case Delete(at) => s[..at] + s[at + 1..]
    case Replace(at, c) => s[..at] + [c] + s[at + 1..]
  }

  ghost predicate Leads(s: string, script: seq<Edit>, t: string)
    decreases |script|
  {
    if script == [] then s == t
    else Fits(s, script[0]) && Leads(Apply(s, script[0]), script[1..], t)
  }

  // d edits suffice, and no fewer do.
  ghost predicate IsLeast(a: string, b: string, d: nat) {
    && (exists script :: |script| == d && Leads(a, script, b))
    && (forall script :: Leads(a, script, b) ==> d <= |script|)
  }

  // ---- The table ----

  function Cost(c: char, d: char): nat {
    if c == d then 0 else 1
  }

  // The entry for the first i characters of a and the first j characters of b.
  function Entry(a: string, b: string, i: nat, j: nat): nat
    requires i <= |a| && j <= |b|
  {
    if i == 0 then j
    else if j == 0 then i
    else
      Min(Min(Entry(a, b, i, j - 1) + 1, Entry(a, b, i - 1, j) + 1),
          Entry(a, b, i - 1, j - 1) + Cost(a[i - 1], b[j - 1]))
  }

  function Distance(a: string, b: string): nat {
    Entry(a, b, |a|, |b|)
  }

  // One entry from its neighbours.
  lemma EntryFrom(a: string, b: string, i: nat, j: nat)
    requires i <= |a| && j <= |b|
    ensures i == 0 ==> Entry(a, b, i, j) == j
    ensures j == 0 ==> Entry(a, b, i, j) == i
    ensures i > 0 && j > 0 ==>
              Entry(a, b, i, j) ==
              Min(Min(Entry(a, b, i, j - 1) + 1, Entry(a, b, i - 1, j) + 1),
                  Entry(a, b, i - 1, j - 1) + Cost(a[i - 1], b[j - 1]))
  {
  }

  lemma Steps(a: string, b: string, i: nat, j: nat)
    requires i <= |a| && j <= |b|
    ensures i > 0 ==> Entry(a, b, i, j) <= Entry(a, b, i - 1, j) + 1
    ensures j > 0 ==> Entry(a, b, i, j) <= Entry(a, b, i, j - 1) + 1
    ensures i > 0 && j > 0 ==>
              Entry(a, b, i, j) <= Entry(a, b, i - 1, j - 1) + Cost(a[i - 1], b[j - 1])
  {
    hide Entry;
    EntryFrom(a, b, i, j);
    if i > 0 { EntryFrom(a, b, i - 1, j); }
    if j > 0 { EntryFrom(a, b, i, j - 1); }
  }

  // ---- Symmetry, identity, triangle ----

  lemma {:induction false} EntrySymmetric(a: string, b: string, i: nat, j: nat)
    requires i <= |a| && j <= |b|
    ensures Entry(a, b, i, j) == Entry(b, a, j, i)
    decreases i + j
  {
    hide Entry;
    EntryFrom(a, b, i, j);
    EntryFrom(b, a, j, i);
    if i == 0 || j == 0 {
    } else {
      EntrySymmetric(a, b, i, j - 1);
      EntrySymmetric(a, b, i - 1, j);
      EntrySymmetric(a, b, i - 1, j - 1);
    }
  }

  lemma {:induction false} EntrySpread(a: string, b: string, i: nat, j: nat)
    requires i <= |a| && j <= |b|
    ensures j <= i + Entry(a, b, i, j) && i <= j + Entry(a, b, i, j)
    decreases i + j
  {
    hide Entry;
    EntryFrom(a, b, i, j);
    if i == 0 || j == 0 {
    } else {
      EntrySpread(a, b, i, j - 1);
      EntrySpread(a, b, i - 1, j);
      EntrySpread(a, b, i - 1, j - 1);
    }
  }

  lemma {:induction false} EntryZero(a: string, b: string, i: nat)
    requires i <= |a| && i <= |b|
    ensures Entry(a, b, i, i) == 0 <==> a[..i] == b[..i]
  {
    hide Entry;
    EntryFrom(a, b, i, i);
    if i == 0 {
    } else {
      EntryZero(a, b, i - 1);
      EntrySpread(a, b, i, i - 1);
      EntrySpread(a, b, i - 1, i);
      assert a[..i] == a[..i - 1] + [a[i - 1]];
      assert b[..i] == b[..i - 1] + [b[i - 1]];
    }
  }

  lemma {:induction false} EntryTriangle(a: string, b: string, c: string, i: nat, j: nat, k: nat)
    requires i <= |a| && j <= |b| && k <= |c|
    ensures Entry(a, c, i, k) <= Entry(a, b, i, j) + Entry(b, c, j, k)
    decreases i + j + k
  {
    hide Entry;
    EntryFrom(a, b, i, j);
    EntryFrom(b, c, j, k);
    Steps(a, c, i, k);
    if j == 0 || i == 0 || k == 0 {
      EntrySpread(a, b, i, j);
      EntrySpread(b, c, j, k);
      EntryAtMostSum(a, c, i, k);
    } else if Entry(a, b, i, j) == Entry(a, b, i - 1, j) + 1 {
      EntryTriangle(a, b, c, i - 1, j, k);
    } else if Entry(b, c, j, k) == Entry(b, c, j, k - 1) + 1 {
      EntryTriangle(a, b, c, i, j, k - 1);
    } else if Entry(a, b, i, j) == Entry(a, b, i, j - 1) + 1 {
      if Entry(b, c, j, k) == Entry(b, c, j - 1, k) + 1 {
        EntryTriangle(a, b, c, i, j - 1, k);
      } else {
        EntryTriangle(a, b, c, i, j - 1, k - 1);
      }
    } else if Entry(b, c, j, k) == Entry(b, c, j - 1, k) + 1 {
      EntryTriangle(a, b, c, i - 1, j - 1, k);
    } else {
      EntryTriangle(a, b, c, i - 1, j - 1, k - 1);
    }
  }

  lemma {:induction false} EntryAtMostSum(a: string, b: string, i: nat, j: nat)
    requires i <= |a| && j <= |b|
    ensures Entry(a, b, i, j) <= i + j
    decreases i + j
  {
    hide Entry;
    EntryFrom(a, b, i, j);
    if i == 0 || j == 0 {
    } else {
      EntryAtMostSum(a, b, i, j - 1);
    }
  }

  /** The distance is a metric. */
  lemma Metric(a: string, b: string, c: string)
    ensures Distance(a, b) == 0 <==> a == b
    ensures Distance(a, b) == Distance(b, a)
    ensures Distance(a, c) <= Distance(a, b) + Distance(b, c)
  {
    hide Entry;
    if |a| == |b| {
      EntryZero(a, b, |a|);
      assert a[..|a|] == a && b[..|a|] == b;
    } else {
      EntrySpread(a, b, |a|, |b|);
    }
    EntrySymmetric(a, b, |a|, |b|);
    EntryTriangle(a, b, c, |a|, |b|, |c|);
  }

  // ---- No script is shorter than the distance ----

  // Equal characters add nothing.
  lemma {:induction false} SameTail(a: string, b: string, i: nat, j: nat)
    requires i <= |a| && j <= |b| && a[i..] == b[j..]
    ensures Distance(a, b) <= Entry(a, b, i, j)
    decreases |a| - i
  {
    hide Entry;
    if i < |a| {
      assert a[i] == a[i..][0] == b[j..][0] == b[j];
      assert a[i + 1..] == a[i..][1..] == b[j..][1..] == b[j + 1..];
      SameTail(a, b, i + 1, j + 1);
      Steps(a, b, i + 1, j + 1);
    } else {
      assert j == |b| by { assert |b[j..]| == 0; }
    }
  }

  lemma OneEdit(a: string, e: Edit)
    requires Fits(a, e)
    ensures Distance(a, Apply(a, e)) <= 1
  {
    hide Entry;
    var b, at := Apply(a, e), e.at;
    assert a[..at] == b[..at];
    EntryZero(a, b, at);
    match e {
      case Insert(_, _) =>
        Steps(a, b, at, at + 1);
        assert a[at..] == b[at + 1..];
        SameTail(a, b, at, at + 1);
      case Delete(_) =>
        Steps(a, b, at + 1, at);
        assert a[at + 1..] == b[at..];
        SameTail(a, b, at + 1, at);
      case Replace(_, _) =>
        Steps(a, b, at + 1, at + 1);
        assert a[at + 1..] == b[at + 1..];
        SameTail(a, b, at + 1, at + 1);
    }
  }

  lemma {:induction false} NoShorterScript(a: string, script: seq<Edit>, b: string)
    requires Leads(a, script, b)
    ensures Distance(a, b) <= |script|
    decreases |script|
  {
    if script == [] {
      Metric(a, b, b);
    } else {
      var next := Apply(a, script[0]);
      OneEdit(a, script[0]);
      NoShorterScript(next, script[1..], b);
      Metric(a, next, b);
    }
  }

  // ---- A script of that length ----

  // From the first i characters of a to the first j of b, both followed by the same tail.
  lemma {:induction false} ShortestScript(a: string, b: string, i: nat, j: nat, tail: string)
    returns (script: seq<Edit>)
    requires i <= |a| && j <= |b|
    ensures |script| == Entry(a, b, i, j)
    ensures Leads(a[..i] + tail, script, b[..j] + tail)
    decreases i + j
  {
    hide Entry, Leads, Apply, Fits;
    EntryFrom(a, b, i, j);
    if i == 0 && j == 0 {
      NoEdits(a, b, tail);
      script := [];
    } else if j > 0 && (i == 0 || Entry(a, b, i, j) == Entry(a, b, i, j - 1) + 1) {
      var rest := ShortestScript(a, b, i, j - 1, [b[j - 1]] + tail);
      InsertFirst(a[..i], b, j, tail, rest);
      EntryFrom(a, b, i, j - 1);
      script := [Insert(i, b[j - 1])] + rest;
    } else if j == 0 || Entry(a, b, i, j) == Entry(a, b, i - 1, j) + 1 {
      var rest := ShortestScript(a, b, i - 1, j, tail);
      DeleteFirst(a, i, b[..j] + tail, tail, rest);
      EntryFrom(a, b, i - 1, j);
      script := [Delete(i - 1)] + rest;
    } else {
      var rest := ShortestScript(a, b, i - 1, j - 1, [b[j - 1]] + tail);
      Shift(b, j, tail);
      if a[i - 1] == b[j - 1] {
        Shift(a, i, tail);
        script := rest;
      } else {
        ReplaceFirst(a, i, b[j - 1], b[..j] + tail, tail, rest);
        script := [Replace(i - 1, b[j - 1])] + rest;
      }
    }
  }

  lemma NoEdits(a: string, b: string, tail: string)
    ensures Leads(a[..0] + tail, [], b[..0] + tail)
  {
    assert a[..0] == b[..0];
  }

  lemma Shift(a: string, i: nat, tail: string)
    requires 0 < i <= |a|
    ensures a[..i - 1] + ([a[i - 1]] + tail) == a[..i] + tail
  {
  }

  lemma First(s: string, e: Edit, rest: seq<Edit>, t: string)
    requires Fits(s, e) && Leads(Apply(s, e), rest, t)
    ensures Leads(s, [e] + rest, t)
  {
    hide Apply, Fits;
    var script := [e] + rest;
    assert script[0] == e && script[1..] == rest;
  }

  lemma Inserted(x: string, c: char, tail: string)
    ensures Fits(x + tail, Insert(|x|, c)) && Apply(x + tail, Insert(|x|, c)) == x + ([c] + tail)
  {
  }

  lemma InsertFirst(x: string, b: string, j: nat, tail: string, rest: seq<Edit>)
    requires 0 < j <= |b|
    requires Leads(x + ([b[j - 1]] + tail), rest, b[..j - 1] + ([b[j - 1]] + tail))
    ensures Leads(x + tail, [Insert(|x|, b[j - 1])] + rest, b[..j] + tail)
  {
    hide Leads, Apply, Fits;
    Inserted(x, b[j - 1], tail);
    Shift(b, j, tail);
    First(x + tail, Insert(|x|, b[j - 1]), rest, b[..j] + tail);
  }

  lemma Deleted(a: string, i: nat, tail: string)
    requires 0 < i <= |a|
    ensures Fits(a[..i] + tail, Delete(i - 1)) && Apply(a[..i] + tail, Delete(i - 1)) == a[..i - 1] + tail
  {
  }

  lemma DeleteFirst(a: string, i: nat, t: string, tail: string, rest: seq<Edit>)
    requires 0 < i <= |a| && Leads(a[..i - 1] + tail, rest, t)
    ensures Leads(a[..i] + tail, [Delete(i - 1)] + rest, t)
  {
    hide Leads, Apply, Fits;
    Deleted(a, i, tail);
    First(a[..i] + tail, Delete(i - 1), rest, t);
  }

  lemma Replaced(a: string, i: nat, c: char, tail: string)
    requires 0 < i <= |a|
    ensures Fits(a[..i] + tail, Replace(i - 1, c))
    ensures Apply(a[..i] + tail, Replace(i - 1, c)) == a[..i - 1] + ([c] + tail)
  {
  }

  lemma ReplaceFirst(a: string, i: nat, c: char, t: string, tail: string, rest: seq<Edit>)
    requires 0 < i <= |a| && Leads(a[..i - 1] + ([c] + tail), rest, t)
    ensures Leads(a[..i] + tail, [Replace(i - 1, c)] + rest, t)
  {
    hide Leads, Apply, Fits;
    Replaced(a, i, c, tail);
    First(a[..i] + tail, Replace(i - 1, c), rest, t);
  }

  /** The distance is the least number of edits. */
  lemma DistanceIsLeast(a: string, b: string)
    ensures IsLeast(a, b, Distance(a, b))
  {
    var script := ShortestScript(a, b, |a|, |b|, "");
    assert a[..|a|] + "" == a && b[..|b|] + "" == b;
    forall other | Leads(a, other, b) ensures Distance(a, b) <= |other| {
      NoShorterScript(a, other, b);
    }
  }

  // ---- The two-row loop ----

  method CommandDistance(left: string, right: string) returns (distance: nat)
    ensures |left| >= TEXT_CAP || |right| >= TEXT_CAP ==> distance == SIZE_MAX
    ensures |left| < TEXT_CAP && |right| < TEXT_CAP ==>
              distance == Distance(left, right) && IsLeast(left, right, distance)
  {
    hide Entry;
    if |left| >= TEXT_CAP || |right| >= TEXT_CAP { return SIZE_MAX; }
    var prior, next := new nat[TEXT_CAP], new nat[TEXT_CAP];
    for column := 0 to |right| + 1
      invariant forall c | 0 <= c < column :: prior[c] == Entry(left, right, 0, c)
    {
      EntryFrom(left, right, 0, column);
      prior[column] := column;
    }
    for row := 1 to |left| + 1
      invariant forall c | 0 <= c <= |right| :: prior[c] == Entry(left, right, row - 1, c)
    {
      FillRow(left, right, row, prior, next);
      forall c | 0 <= c <= |right| {
        prior[c] := next[c];
      }
    }
    DistanceIsLeast(left, right);
    return prior[|right|];
  }

  method FillRow(left: string, right: string, row: nat, prior: array<nat>, next: array<nat>)
    requires 0 < row <= |left| && |right| < prior.Length && |right| < next.Length && prior != next
    requires forall c | 0 <= c <= |right| :: prior[c] == Entry(left, right, row - 1, c)
    modifies next
    ensures forall c | 0 <= c <= |right| :: next[c] == Entry(left, right, row, c)
  {
    hide Entry;
    EntryFrom(left, right, row, 0);
    next[0] := row;
    for column := 1 to |right| + 1
      invariant forall c | 0 <= c < column :: next[c] == Entry(left, right, row, c)
    {
      var insertion := next[column - 1] + 1;
      var deletion := prior[column] + 1;
      var replacement := prior[column - 1] + if left[row - 1] != right[column - 1] then 1 else 0;
      var least := if insertion < deletion then insertion else deletion;
      EntryFrom(left, right, row, column);
      next[column] := if replacement < least then replacement else least;
    }
  }
}
