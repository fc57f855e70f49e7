/**
 Command dispatch: the registry validator of tools/generate_operator_registry.py, the descriptor and
 alias tables it emits, and the longest-prefix search of src/cli/main.c over those tables.

 The search alone finds some owner of a longest matching path. That the owner is unique, and that
 the order of the tables does not matter, holds because of what the validator refuses.
 */
module Dispatch {

  type Words = seq<string>

  datatype Operation = Operation(id: string, path: Words, projected: bool, aliases: seq<Words>)

  // ---- What the validator demands of words ----

  const FORBIDDEN_TOP_LEVEL: set<string> :=
    {"dev", "eval", "evidence", "execute", "graph", "integrate", "quant", "system", "tensor", "tokenizer"}

  predicate IsAlphaNumeric(c: char) {
    'a' <= c <= 'z' || '0' <= c <= '9'
  }

  predicate IsWord(w: string) {
    w != "" && IsAlphaNumeric(w[0]) &&
    forall i | 0 < i < |w| :: IsAlphaNumeric(w[i]) || w[i] == '.' || w[i] == '_' || w[i] == '-'
  }

  predicate IsFlag(w: string) {
    |w| > 2 && w[0] == '-' && w[1] == '-' && IsAlphaNumeric(w[2]) &&
    forall i | 2 < i < |w| :: IsAlphaNumeric(w[i]) || w[i] == '-'
  }

  predicate TopLevelOk(words: Words) {
    words != [] ==> words[0] !in FORBIDDEN_TOP_LEVEL
  }

  predicate PathOk(op: Operation) {
    (forall w | w in op.path :: IsWord(w)) && (op.projected ==> TopLevelOk(op.path))
  }

  predicate AliasOk(words: Words) {
    && TopLevelOk(words)
    && forall w | w in words :: IsWord(w) || (|words| == 1 && (w == "-h" || IsFlag(w)))
  }

  // ---- What the validator demands of the whole registry ----

  ghost predicate NoRepeats(list: seq<Words>) {
    forall a, b | 0 <= a < b < |list| :: list[a] != list[b]
  }

  ghost predicate WordsOk(op: Operation) {
    PathOk(op) && (forall w | w in op.aliases :: AliasOk(w)) && NoRepeats(op.aliases)
  }

  // Two operations in the same registry.
  ghost predicate Apart(p: Operation, q: Operation) {
    && p.id != q.id
    && (p.projected && q.projected ==> p.path != q.path)
    && forall w | w in p.aliases :: w !in q.aliases
  }

  ghost predicate OffPath(p: Operation, q: Operation) {
    q.projected ==> q.path !in p.aliases
  }

  ghost predicate Accepted(ops: seq<Operation>) {
    && (forall i | 0 <= i < |ops| :: WordsOk(ops[i]))
    && (forall i, j | 0 <= i < j < |ops| :: Apart(ops[i], ops[j]))
    && (forall i, j | 0 <= i < |ops| && 0 <= j < |ops| :: OffPath(ops[i], ops[j]))
  }

  // ---- The validator ----

  method CheckAliases(list: seq<Words>, paths: set<Words>, seen: set<Words>)
    returns (ok: bool, all: set<Words>)
    ensures ok <==> (forall w | w in list :: AliasOk(w) && w !in paths && w !in seen) && NoRepeats(list)
    ensures ok ==> all == seen + set w | w in list
  {
    ok, all := false, seen;
    for a := 0 to |list|
      invariant all == seen + set b | 0 <= b < a :: list[b]
      invariant forall b | 0 <= b < a :: AliasOk(list[b]) && list[b] !in paths && list[b] !in seen
      invariant forall b, c | 0 <= b < c < a :: list[b] != list[c]
    {
      assert list[a] in list;
      if !AliasOk(list[a]) || list[a] in paths || list[a] in all { return; }
      all := all + {list[a]};
    }
    ok := true;
  }

  datatype Tables = Tables(ids: set<string>, paths: set<Words>, aliases: set<Words>)

  ghost predicate HasId(ops: seq<Operation>, n: nat, x: string)
    requires n <= |ops|
  {
    exists i | 0 <= i < n :: ops[i].id == x
  }

  ghost predicate HasPath(ops: seq<Operation>, n: nat, x: Words)
    requires n <= |ops|
  {
    exists i | 0 <= i < n :: ops[i].projected && ops[i].path == x
  }

  ghost predicate HasAlias(ops: seq<Operation>, n: nat, x: Words)
    requires n <= |ops|
  {
    exists i | 0 <= i < n :: x in ops[i].aliases
  }

  // What the tables hold after the first n operations.
  ghost predicate Hold(t: Tables, ops: seq<Operation>, n: nat)
    requires n <= |ops|
  {
    && (forall x :: x in t.ids <==> HasId(ops, n, x))
    && (forall x :: x in t.paths <==> HasPath(ops, n, x))
    && (forall x :: x in t.aliases <==> HasAlias(ops, n, x))
  }

  function Widened(t: Tables, op: Operation): set<Words> {
    if op.projected then t.paths + {op.path} else t.paths
  }

  ghost predicate Addable(t: Tables, op: Operation) {
    && op.id !in t.ids && WordsOk(op) && (op.projected ==> op.path !in t.paths)
    && forall w | w in op.aliases :: w !in Widened(t, op) && w !in t.aliases
  }

  ghost function Added(t: Tables, op: Operation): Tables {
    Tables(t.ids + {op.id}, Widened(t, op), t.aliases + set w | w in op.aliases)
  }

  method AddOperation(t: Tables, op: Operation) returns (ok: bool, next: Tables)
    ensures ok <==> Addable(t, op)
    ensures ok ==> next == Added(t, op)
  {
    ok, next := false, t;
    if op.id in t.ids || !PathOk(op) || (op.projected && op.path in t.paths) { return; }
    var clean, all := CheckAliases(op.aliases, Widened(t, op), t.aliases);
    if !clean { return; }
    ok, next := true, Tables(t.ids + {op.id}, Widened(t, op), all);
  }

  lemma AddedHold(t: Tables, ops: seq<Operation>, n: nat)
    requires n < |ops| && Hold(t, ops, n)
    ensures Hold(Added(t, ops[n]), ops, n + 1)
  {
    var u := Added(t, ops[n]);
    forall x ensures x in u.ids <==> HasId(ops, n + 1, x) {
      if HasId(ops, n, x) { assert HasId(ops, n + 1, x); }
    }
    forall x ensures x in u.paths <==> HasPath(ops, n + 1, x) {
      if HasPath(ops, n, x) { assert HasPath(ops, n + 1, x); }
    }
    forall x ensures x in u.aliases <==> HasAlias(ops, n + 1, x) {
      if HasAlias(ops, n, x) { assert HasAlias(ops, n + 1, x); }
    }
  }

  // What adding the next operation checks, in terms of the operations already there.
  ghost predicate Compatible(ops: seq<Operation>, n: nat)
    requires n < |ops|
  {
    && WordsOk(ops[n])
    && (forall i | 0 <= i < n :: Apart(ops[i], ops[n]))
    && (forall i | 0 <= i <= n :: OffPath(ops[n], ops[i]))
  }

  lemma AddableIsCompatible(t: Tables, ops: seq<Operation>, n: nat)
    requires n < |ops| && Hold(t, ops, n)
    ensures Addable(t, ops[n]) <==> Compatible(ops, n)
  {
    var op := ops[n];
    if Addable(t, op) {
      forall i | 0 <= i < n ensures Apart(ops[i], op) {
        assert HasId(ops, n, ops[i].id);
        assert ops[i].projected ==> HasPath(ops, n, ops[i].path);
        assert forall w | w in ops[i].aliases :: HasAlias(ops, n, w);
      }
      forall i | 0 <= i <= n ensures OffPath(op, ops[i]) {
        assert i < n && ops[i].projected ==> HasPath(ops, n, ops[i].path);
      }
    }
    if Compatible(ops, n) {
      assert OffPath(op, ops[n]);
    }
  }

  method ValidateRegistry(ops: seq<Operation>) returns (ok: bool)
    ensures ok <==> Accepted(ops)
  {
    hide Hold, Addable, Added, WordsOk, Apart;
    ok := false;
    var t := Tables({}, {}, {});
    EmptyHold(ops);
    for n := 0 to |ops|
      invariant Hold(t, ops, n)
      invariant forall i | 0 <= i < n :: Compatible(ops, i)
    {
      AddableIsCompatible(t, ops, n);
      AcceptedIsCompatible(ops, n);
      AddedHold(t, ops, n);
      var added;
      added, t := AddOperation(t, ops[n]);
      if !added { return; }
    }
    for n := 0 to |ops|
      invariant forall i, j | 0 <= i < n && 0 <= j < |ops| :: OffPath(ops[i], ops[j])
    {
      OffPaths(t, ops, n);
      if exists w | w in ops[n].aliases :: w in t.paths { return; }
    }
    forall i, j | 0 <= i < j < |ops| ensures Apart(ops[i], ops[j]) {
      assert Compatible(ops, j);
    }
    forall i | 0 <= i < |ops| ensures WordsOk(ops[i]) {
      assert Compatible(ops, i);
    }
    ok := true;
  }

  lemma AcceptedIsCompatible(ops: seq<Operation>, n: nat)
    requires n < |ops|
    ensures Accepted(ops) ==> Compatible(ops, n)
  {
  }

  lemma EmptyHold(ops: seq<Operation>)
    ensures Hold(Tables({}, {}, {}), ops, 0)
  {
  }

  lemma OffPaths(t: Tables, ops: seq<Operation>, n: nat)
    requires n < |ops| && Hold(t, ops, |ops|)
    ensures (exists w | w in ops[n].aliases :: w in t.paths)
       <==> !(forall j | 0 <= j < |ops| :: OffPath(ops[n], ops[j]))
  {
    forall j | 0 <= j < |ops| && ops[j].projected ensures ops[j].path in t.paths {
      assert HasPath(ops, |ops|, ops[j].path);
    }
  }

  // ---- The alias table ----

  datatype Alias = Alias(words: Words, operation: nat)

  ghost predicate Emitted(ops: seq<Operation>, table: seq<Alias>) {
    && (forall k | 0 <= k < |table| ::
          table[k].operation < |ops| && table[k].words in ops[table[k].operation].aliases)
    && (forall i, w | 0 <= i < |ops| && w in ops[i].aliases :: Alias(w, i) in table)
  }

  method EmitAliases(ops: seq<Operation>) returns (table: seq<Alias>)
    ensures Emitted(ops, table)
  {
    table := [];
    for i := 0 to |ops|
      invariant forall k | 0 <= k < |table| ::
                  table[k].operation < i && table[k].words in ops[table[k].operation].aliases
      invariant forall j, w | 0 <= j < i && w in ops[j].aliases :: Alias(w, j) in table
    {
      ghost var before := table;
      for a := 0 to |ops[i].aliases|
        invariant forall k | 0 <= k < |table| ::
                    table[k].operation <= i && table[k].words in ops[table[k].operation].aliases
        invariant forall x | x in before :: x in table
        invariant forall b | 0 <= b < a :: Alias(ops[i].aliases[b], i) in table
      {
        table := table + [Alias(ops[i].aliases[a], i)];
      }
    }
  }

  // ---- The search ----

  predicate IsOption(word: string) {
    word != "" && word[0] == '-'
  }

  // The operation owns a path of n words that the arguments start with. The empty path stands for
  // no command at all, or for options alone; the empty alias only for no arguments.
  ghost predicate OffersPath(op: Operation, args: Words, n: nat) {
    && op.projected && |op.path| == n && op.path <= args
    && (n == 0 ==> args == [] || IsOption(args[0]))
  }

  ghost predicate OffersAlias(op: Operation, args: Words, n: nat) {
    n <= |args| && args[..n] in op.aliases && (n == 0 ==> args == [])
  }

  ghost predicate Offers(op: Operation, args: Words, n: nat) {
    OffersPath(op, args, n) || OffersAlias(op, args, n)
  }

  datatype Found = NotFound | Found(operation: Operation, consumed: nat)

  // An owner of a longest path.
  ghost predicate IsBest(ops: seq<Operation>, args: Words, r: Found) {
    match r
    case NotFound => forall i, n: nat | 0 <= i < |ops| :: !Offers(ops[i], args, n)
    case Found(op, consumed) =>
      && op in ops && Offers(op, args, consumed)
      && forall i, n: nat | 0 <= i < |ops| && Offers(ops[i], args, n) :: n <= consumed
  }

  // The word-by-word comparison of both loops.
  method Matches(words: Words, args: Words) returns (all: bool)
    requires |words| <= |args|
    ensures all <==> words <= args
  {
    var word := 0;
    while word < |words| && words[word] == args[word]
      invariant word <= |words| && words[..word] == args[..word]
    {
      word := word + 1;
    }
    all := word == |words|;
  }

  // The best path among the first n descriptors.
  ghost predicate BestPath(ops: seq<Operation>, n: nat, args: Words, r: Found)
    requires n <= |ops|
  {
    && (r.Found? ==> r.operation in ops && OffersPath(r.operation, args, r.consumed))
    && forall i, m: nat | 0 <= i < n && OffersPath(ops[i], args, m) :: r.Found? && m <= r.consumed
  }

  method FindPath(ops: seq<Operation>, args: Words) returns (r: Found)
    ensures BestPath(ops, |ops|, args, r)
  {
    r := NotFound;
    for index := 0 to |ops|
      invariant BestPath(ops, index, args, r)
    {
      var candidate := ops[index];
      if !candidate.projected || |candidate.path| > |args| { continue; }
      if |candidate.path| == 0 {
        if r.NotFound? && (args == [] || IsOption(args[0])) { r := Found(candidate, 0); }
        continue;
      }
      var all := Matches(candidate.path, args);
      if all && |candidate.path| > (if r.Found? then r.consumed else 0) {
        r := Found(candidate, |candidate.path|);
      }
    }
  }

  // The best path, or the best alias among the first n that is longer.
  ghost predicate BestOf(ops: seq<Operation>, table: seq<Alias>, n: nat, args: Words, r: Found)
    requires Emitted(ops, table) && n <= |table|
  {
    && (r.Found? ==> r.operation in ops && Offers(r.operation, args, r.consumed))
    && (forall i, m: nat | 0 <= i < |ops| && OffersPath(ops[i], args, m) :: r.Found? && m <= r.consumed)
    && (forall k | 0 <= k < n && OffersEntry(table[k], args) :: r.Found? && |table[k].words| <= r.consumed)
  }

  ghost predicate OffersEntry(alias: Alias, args: Words) {
    alias.words <= args && (alias.words == [] ==> args == [])
  }

  method DescriptorFind(ops: seq<Operation>, table: seq<Alias>, args: Words) returns (r: Found)
    requires Emitted(ops, table)
    ensures IsBest(ops, args, r)
  {
    hide Emitted;
    r := FindPath(ops, args);
    for index := 0 to |table|
      invariant BestOf(ops, table, index, args, r)
    {
      var alias := table[index];
      var count := if r.Found? then r.consumed else 0;
      if |alias.words| == 0 && args != [] { continue; }
      if |alias.words| > |args| || |alias.words| < count { continue; }
      var all := Matches(alias.words, args);
      EntryOffers(ops, table, index, args);
      if all && (|alias.words| > count || (|alias.words| == 0 && r.NotFound?)) {
        r := Found(ops[alias.operation], |alias.words|);
      }
    }
    BestOfAll(ops, table, args, r);
  }

  lemma EntryOffers(ops: seq<Operation>, table: seq<Alias>, k: nat, args: Words)
    requires Emitted(ops, table) && k < |table|
    ensures table[k].operation < |ops|
    ensures OffersEntry(table[k], args) ==> OffersAlias(ops[table[k].operation], args, |table[k].words|)
  {
    var words := table[k].words;
    assert words <= args ==> args[..|words|] == words;
  }

  lemma BestOfAll(ops: seq<Operation>, table: seq<Alias>, args: Words, r: Found)
    requires Emitted(ops, table) && BestOf(ops, table, |table|, args, r)
    ensures IsBest(ops, args, r)
  {
    forall i, n: nat | 0 <= i < |ops| && Offers(ops[i], args, n) ensures r.Found? && n <= r.consumed {
      if OffersAlias(ops[i], args, n) {
        var k :| 0 <= k < |table| && table[k] == Alias(args[..n], i);
        assert OffersEntry(table[k], args);
      }
    }
  }

  // ---- Uniqueness ----

  // In an accepted registry a path of n words has one owner.
  lemma OneOwner(ops: seq<Operation>, args: Words, p: Operation, q: Operation, n: nat)
    requires Accepted(ops) && p in ops && q in ops
    requires Offers(p, args, n) && Offers(q, args, n)
    ensures p == q
  {
    assert OffPath(p, q) && OffPath(q, p);
    assert OffersPath(p, args, n) ==> p.path == args[..n];
    assert OffersPath(q, args, n) ==> q.path == args[..n];
    assert p == q || Apart(p, q) || Apart(q, p);
  }

  lemma FoundTransfers(ops: seq<Operation>, sorted: seq<Operation>, args: Words, r: Found, r': Found)
    requires forall op :: op in ops ==> op in sorted
    requires IsBest(ops, args, r) && IsBest(sorted, args, r')
    ensures r.Found? ==> r'.Found? && r.consumed <= r'.consumed
  {
    if r.Found? {
      var k :| 0 <= k < |sorted| && sorted[k] == r.operation;
      assert Offers(sorted[k], args, r.consumed);
    }
  }

  /** The answer does not depend on the order of the descriptor and alias tables. */
  lemma OrderIrrelevant(ops: seq<Operation>, sorted: seq<Operation>, args: Words, r: Found, r': Found)
    requires Accepted(ops) && (forall op :: op in ops <==> op in sorted)
    requires IsBest(ops, args, r) && IsBest(sorted, args, r')
    ensures r == r'
  {
    FoundTransfers(ops, sorted, args, r, r');
    FoundTransfers(sorted, ops, args, r', r);
    if r.Found? {
      assert r'.operation in ops;
      OneOwner(ops, args, r.operation, r'.operation, r.consumed);
    }
  }

  /** In an accepted registry every visible command answers to its own path and to its aliases. */
  lemma OwnPathFound(ops: seq<Operation>, op: Operation, words: Words, r: Found)
    requires Accepted(ops) && op in ops && words != []
    requires (op.projected && words == op.path) || words in op.aliases
    requires IsBest(ops, words, r)
    ensures r == Found(op, |words|)
  {
    assert words[..|words|] == words;
    assert Offers(op, words, |words|);
    OneOwner(ops, words, op, r.operation, |words|);
  }
}
