/**
 The "did you mean" hint of src/cli/main.c: the words typed before the first option are joined
 into a bounded buffer, and the single nearest visible command is offered.
 */
module Nearest {
  import opened EditDistance
  import opened Dispatch

  const HINT_LIMIT: nat := 3

  // ---- The text that was typed ----

  function AddWord(text: string, word: string): string {
    if text == "" then word else text + " " + word
  }

  // The first n words, with one space between two words unless nothing came before.
  ghost function Joined(args: seq<string>, n: nat): string
    requires n <= |args|
  {
    if n == 0 then "" else AddWord(Joined(args, n - 1), args[n - 1])
  }

  ghost predicate IsLeading(args: seq<string>, n: nat) {
    n <= |args| && (forall i | 0 <= i < n :: !IsOption(args[i])) && (n == |args| || IsOption(args[n]))
  }

  lemma {:induction false} JoinedGrows(args: seq<string>, m: nat, n: nat)
    requires m <= n <= |args|
    ensures |Joined(args, m)| <= |Joined(args, n)|
  {
    if m == n {
    } else {
      JoinedGrows(args, m, n - 1);
    }
  }

  lemma JoinedStep(args: seq<string>, n: nat)
    requires n <= |args|
    ensures Joined(args, n) == if n == 0 then "" else AddWord(Joined(args, n - 1), args[n - 1])
  {
  }

  // Copies one word to the buffer and terminates it.
  method Append(output: array<char>, count: nat, word: string)
    requires count + |word| < output.Length
    modifies output
    ensures output[..count + |word|] == old(output[..count]) + word && output[count + |word|] == '\0'
  {
    forall k | 0 <= k < |word| {
      output[count + k] := word[k];
    }
    output[count + |word|] := '\0';
  }

  // Copies the leading words into the buffer.
  method CommandText(args: seq<string>, output: array<char>) returns (ok: bool, count: nat, ghost n: nat)
    requires output.Length == TEXT_CAP
    modifies output
    ensures IsLeading(args, n)
    ensures ok <==> 0 < |Joined(args, n)| < TEXT_CAP
    ensures ok ==> count == |Joined(args, n)| && output[..count] == Joined(args, n) && output[count] == '\0'
  {
    hide Joined;
    n := LeadingCount(args);
    count := 0;
    JoinedStep(args, 0);
    output[0] := '\0';
    var index := 0;
    while index < |args| && !IsOption(args[index])
      invariant index <= n && count < TEXT_CAP
      invariant output[..count] == Joined(args, index) && output[count] == '\0'
    {
      JoinedGrows(args, index + 1, n);
      JoinedStep(args, index + 1);
      if count != 0 && count + 1 >= TEXT_CAP { return false, count, n; }
      if count != 0 {
        Append(output, count, " ");
        count := count + 1;
      }
      if |args[index]| >= TEXT_CAP - count { return false, count, n; }
      Append(output, count, args[index]);
      count := count + |args[index]|;
      index := index + 1;
    }
    ok := count != 0;
  }

  lemma {:induction false} LeadingCount(args: seq<string>) returns (n: nat)
    ensures IsLeading(args, n)
  {
    if args == [] || IsOption(args[0]) {
      n := 0;
    } else {
      var m := LeadingCount(args[1..]);
      n := m + 1;
    }
  }

  // ---- The nearest command ----

  datatype Command = Command(path: string, projected: bool, removed: bool)

  predicate Visible(c: Command) {
    c.projected && c.path != "" && !c.removed
  }

  // What CommandDistance returns.
  function Measured(a: string, b: string): nat {
    if |a| >= TEXT_CAP || |b| >= TEXT_CAP then SIZE_MAX else Distance(a, b)
  }

  ghost predicate Beats(commands: seq<Command>, input: string, i: nat, j: nat)
    requires i < |commands| && j < |commands|
  {
    j != i && Visible(commands[j]) ==> Measured(input, commands[i].path) < Measured(input, commands[j].path)
  }

  // The only visible command at the least distance, near enough to be worth a hint.
  ghost predicate IsHint(commands: seq<Command>, input: string, i: nat) {
    && i < |commands| && Visible(commands[i])
    && Measured(input, commands[i].path) <= HINT_LIMIT
    && forall j | 0 <= j < |commands| :: Beats(commands, input, i, j)
  }

  datatype Hint = NoHint | Hint(path: string)

  // The scan over the commands.
  method NearestTo(commands: seq<Command>, input: string) returns (hint: Hint, ghost at: nat)
    ensures hint.Hint? ==> IsHint(commands, input, at) && hint.path == commands[at].path
    ensures hint.NoHint? ==> forall i: nat :: !IsHint(commands, input, i)
  {
    hide Measured;
    hint, at := NoHint, 0;
    var best, tied := SIZE_MAX, false;
    ghost var rival := 0;
    for index := 0 to |commands|
      invariant hint.NoHint? ==> best == SIZE_MAX
      invariant forall j | 0 <= j < index && Visible(commands[j]) :: best <= Measured(input, commands[j].path)
      invariant hint.Hint? ==>
                  && at < index && Visible(commands[at])
                  && hint.path == commands[at].path && best == Measured(input, hint.path)
      invariant hint.Hint? && tied ==>
                  && rival < index && rival != at && Visible(commands[rival])
                  && Measured(input, commands[rival].path) == best
      invariant hint.Hint? && !tied ==> forall j | 0 <= j < index :: Beats(commands, input, at, j)
    {
      if !Visible(commands[index]) { continue; }
      var distance := CommandDistance(input, commands[index].path);
      MeasuredIs(input, commands[index].path);
      if distance < best {
        best, hint, at, tied := distance, Hint(commands[index].path), index, false;
      } else if distance == best {
        tied, rival := true, index;
      }
    }
    if tied || best > HINT_LIMIT {
      forall i: nat ensures !IsHint(commands, input, i) {
        if i < |commands| && hint.Hint? {
          var first := Beats(commands, input, i, at);
          if tied { var second := Beats(commands, input, i, rival); }
        }
      }
      hint := NoHint;
    }
  }

  lemma MeasuredIs(a: string, b: string)
    ensures |a| >= TEXT_CAP || |b| >= TEXT_CAP ==> Measured(a, b) == SIZE_MAX
    ensures |a| < TEXT_CAP && |b| < TEXT_CAP ==> Measured(a, b) == Distance(a, b)
  {
  }

  // The target is within k edits, and the other visible commands are more than 2k away from it.
  ghost predicate Recoverable(commands: seq<Command>, input: string, target: nat, k: nat) {
    && k <= HINT_LIMIT && |input| < TEXT_CAP
    && target < |commands| && Visible(commands[target]) && |commands[target].path| < TEXT_CAP
    && Distance(input, commands[target].path) <= k
    && forall j | 0 <= j < |commands| && j != target && Visible(commands[j]) ::
         Distance(commands[target].path, commands[j].path) > 2 * k
  }

  /** When the visible commands are more than 2k apart, k typing errors leave the target the only hint. */
  lemma HintRecovers(commands: seq<Command>, input: string, target: nat, k: nat)
    requires Recoverable(commands, input, target, k)
    ensures IsHint(commands, input, target)
  {
    hide Distance;
    var p := commands[target].path;
    forall j | 0 <= j < |commands| ensures Beats(commands, input, target, j) {
      if j != target && Visible(commands[j]) {
        var q := commands[j].path;
        Metric(p, input, q);
        Metric(input, p, p);
      }
    }
  }

  lemma OneHint(commands: seq<Command>, input: string, i: nat, j: nat)
    requires IsHint(commands, input, i) && IsHint(commands, input, j)
    ensures i == j
  {
    hide Measured;
    assert Beats(commands, input, i, j) && Beats(commands, input, j, i);
  }

  /**
   The hint for an argument list: there is one exactly when the words before the first option make a text
   that fits and have a single nearest command, and then it is that command's path. So k typing errors in
   a command that is more than 2k away from the others are always recovered.
   */
  method NearestCommand(commands: seq<Command>, args: seq<string>, output: array<char>)
    returns (hint: Hint, ghost n: nat)
    requires output.Length == TEXT_CAP
    modifies output
    ensures IsLeading(args, n)
    ensures hint.NoHint? <==> !(0 < |Joined(args, n)| < TEXT_CAP) || forall i: nat :: !IsHint(commands, Joined(args, n), i)
    ensures forall i: nat :: 0 < |Joined(args, n)| < TEXT_CAP && IsHint(commands, Joined(args, n), i) ==>
              hint == Hint(commands[i].path)
    ensures forall target: nat, k: nat :: Joined(args, n) != "" && Recoverable(commands, Joined(args, n), target, k) ==>
              hint == Hint(commands[target].path)
  {
    hide IsHint, IsLeading, Joined;
    hint := NoHint;
    var ok, count;
    ok, count, n := CommandText(args, output);
    if !ok {
      return;
    }
    var input := output[..count];
    ghost var at;
    hint, at := NearestTo(commands, input);
    forall i: nat | IsHint(commands, input, i)
      ensures i < |commands| && hint == Hint(commands[i].path)
    {
      HintInside(commands, input, i);
      if hint.Hint? { OneHint(commands, input, i, at); }
    }
    forall target: nat, k: nat | Recoverable(commands, input, target, k)
      ensures IsHint(commands, input, target)
    {
      HintRecovers(commands, input, target, k);
    }
  }

  lemma HintInside(commands: seq<Command>, input: string, i: nat)
    requires IsHint(commands, input, i)
    ensures i < |commands|
  {
  }
}
