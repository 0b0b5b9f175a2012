/** Day 10, part 1: a CPU with one register `x` running `noop` (one cycle)
    and `addx v` (two cycles, then `x` grows by `v`); the signal strength
    adds cycle number times `x` during cycles 20, 60, ..., 220. */
module Day10Part1 {
  import opened Common

  datatype Instruction = AddX(argument: int) | Noop

  // ---------------------------------------------------------------------------
  // `get_next_instruction`.

  /** The `i64` of `sscanf!`: an optional sign and at least one digit, and
      nothing else. */
  function ParseInteger(s: string): (r: Option<int>)
    ensures r.Some? ==> |s| > 0 && forall i | 0 <= i < |s| :: s[i] != ' '
  {
    var signed := |s| > 0 && (s[0] == '-' || s[0] == '+');
    var body := if signed then s[1..] else s;
    if |body| == 0 || DigitSpan(body) != |body| then None
    else
      assert forall i | 0 <= i < |body| :: body[i] == s[i + (if signed then 1 else 0)];
      var v: int := DecimalValue(body);
      Some(if signed && s[0] == '-' then -v else v)
  }

  /** The position of the last space of a line. */
  function LastSpace(s: string): (r: Option<nat>)
    ensures r.Some? ==> r.value < |s| && s[r.value] == ' '
    ensures r.Some? ==> forall i | r.value < i < |s| :: s[i] != ' '
    ensures r.None? ==> forall i | 0 <= i < |s| :: s[i] != ' '
  {
    if s == [] then None
    else if s[|s| - 1] == ' ' then Some(|s| - 1)
    else LastSpace(s[..|s| - 1])
  }

  /** `noop` is `Noop`; a line matching `{} {}` with a `String` and an `i64`
      is `AddX`; any other line makes the program panic (`None`). The
      integer holds no space, so the separating space is the last one. */
  function ParseInstruction(line: string): Option<Instruction>
  {
    if line == "noop" then Some(Noop)
    else
      match LastSpace(line)
      case Some(k) =>
        if k >= 1 && ParseInteger(line[k + 1..]).Some? then Some(AddX(ParseInteger(line[k + 1..]).value)) else None
      case None => None
  }

  lemma {:induction false} LastSpaceOf(word: string, number: string)
    requires forall i | 0 <= i < |number| :: number[i] != ' '
    ensures LastSpace(word + " " + number) == Some(|word|)
  {
    if number != [] {
      var s := word + " " + number;
      assert s[..|s| - 1] == word + " " + number[..|number| - 1];
      LastSpaceOf(word, number[..|number| - 1]);
    }
  }

  /** `noop` reads as `Noop`, and a word, a space and an integer read as
      `AddX` of that integer. */
  lemma ParseInstructionLines(word: string, number: string)
    requires |word| > 0 && ParseInteger(number).Some?
    ensures ParseInstruction("noop") == Some(Noop)
    ensures ParseInstruction(word + " " + number) == Some(AddX(ParseInteger(number).value))
  {
    var s := word + " " + number;
    LastSpaceOf(word, number);
    assert s[|word|] == ' ';
    assert "noop"[0] == 'n' && "noop"[1] == 'o' && "noop"[2] == 'o' && "noop"[3] == 'p';
    assert s != "noop";
    assert s[|word| + 1..] == number;
  }

  /** The instructions the program reads before the first line it cannot
      parse. */
  function ValidPrefix(lines: seq<string>): (r: seq<Instruction>)
    ensures |r| <= |lines|
    ensures forall i | 0 <= i < |r| :: ParseInstruction(lines[i]) == Some(r[i])
    ensures |r| < |lines| ==> ParseInstruction(lines[|r|]).None?
  {
    if lines == [] then []
    else
      var first := ParseInstruction(lines[0]);
      if first.None? then []
      else
        var rest := ValidPrefix(lines[1..]);
        assert forall i | 1 <= i <= |rest| :: lines[i] == lines[1..][i - 1];
        [first.value] + rest
  }

  // ---------------------------------------------------------------------------
  // The value of `x` during every cycle.

  function Cycles(i: Instruction): nat
  {
    if i.AddX? then 2 else 1
  }

  function Delta(i: Instruction): int
  {
    if i.AddX? then i.argument else 0
  }

  /** `x` after a list of instructions has run from 1. */
  function FinalX(instrs: seq<Instruction>): int
  {
    if instrs == [] then 1 else FinalX(instrs[..|instrs| - 1]) + Delta(instrs[|instrs| - 1])
  }

  /** `x` during each cycle of a list of instructions: each instruction
      occupies its cycles with the value left by the ones before it. */
  function Trace(instrs: seq<Instruction>): seq<int>
  {
    if instrs == [] then []
    else
      var prefix := instrs[..|instrs| - 1];
      Trace(prefix) + seq(Cycles(instrs[|instrs| - 1]), _ => FinalX(prefix))
  }

  /** The cycles the program runs: every instruction's, and one more in
      which it finds the input exhausted. */
  function Run(instrs: seq<Instruction>): (xs: seq<int>)
    ensures |xs| >= 1
  {
    Trace(instrs) + [FinalX(instrs)]
  }

  /** The program panics when it fetches a line it cannot parse within
      the first `limit` cycles. */
  predicate Panics(lines: seq<string>, limit: nat)
  {
    var instrs := ValidPrefix(lines);
    |instrs| < |lines| && |Trace(instrs)| < limit
  }

  lemma {:induction false} TraceLength(instrs: seq<Instruction>)
    ensures |Trace(instrs)| == Sum(seq(|instrs|, i requires 0 <= i < |instrs| => Cycles(instrs[i])))
  {
    if instrs != [] {
      var n := |instrs|;
      var prefix := instrs[..n - 1];
      var all := seq(n, i requires 0 <= i < n => Cycles(instrs[i]));
      TraceLength(prefix);
      assert all[..n - 1] == seq(n - 1, i requires 0 <= i < n - 1 => Cycles(prefix[i]));
      assert all == all[..n - 1] + [Cycles(instrs[n - 1])];
      SumAppend(all[..n - 1], [Cycles(instrs[n - 1])]);
      assert Sum([Cycles(instrs[n - 1])]) == Cycles(instrs[n - 1]);
    }
  }

  /** `x` is 1 during the first cycle. */
  lemma StartsAtOne(instrs: seq<Instruction>)
    ensures Run(instrs)[0] == 1
  {
    if instrs == [] {
      assert Run(instrs) == [1];
    } else {
      assert instrs[..1][..0] == instrs[..0] == [];
      CycleValue(instrs, 0, 0);
    }
  }

  /** `noop` takes one cycle and keeps `x`. */
  lemma NoopTiming(instrs: seq<Instruction>)
    ensures Run(instrs + [Noop]) == Trace(instrs) + [FinalX(instrs), FinalX(instrs)]
  {
    var s := instrs + [Noop];
    assert s[..|s| - 1] == instrs;
    assert seq(1, _ => FinalX(instrs)) == [FinalX(instrs)];
  }

  /** `addx v` takes two cycles with `x` unchanged and adds `v` after the
      second. */
  lemma AddXTiming(instrs: seq<Instruction>, v: int)
    ensures Run(instrs + [AddX(v)]) == Trace(instrs) + [FinalX(instrs), FinalX(instrs), FinalX(instrs) + v]
  {
    var s := instrs + [AddX(v)];
    assert s[..|s| - 1] == instrs;
    assert seq(2, _ => FinalX(instrs)) == [FinalX(instrs), FinalX(instrs)];
  }

  lemma {:induction false} TracePrefix(instrs: seq<Instruction>, p: nat, q: nat)
    requires p <= q <= |instrs|
    ensures Trace(instrs[..p]) <= Trace(instrs[..q])
    decreases q
  {
    if p < q {
      TracePrefix(instrs, p, q - 1);
      assert instrs[..q][..q - 1] == instrs[..q - 1];
    }
  }

  /** During the cycles of instruction `p`, `x` is the value the
      instructions before it leave; after all of them, it is the final
      value. */
  lemma CycleValue(instrs: seq<Instruction>, p: nat, k: nat)
    requires p <= |instrs|
    requires p < |instrs| ==> |Trace(instrs[..p])| <= k < |Trace(instrs[..p + 1])|
    requires p == |instrs| ==> k == |Trace(instrs)|
    ensures k < |Run(instrs)| && Run(instrs)[k] == FinalX(instrs[..p])
  {
    assert instrs[..|instrs|] == instrs;
    if p < |instrs| {
      TracePrefix(instrs, p + 1, |instrs|);
      var q := instrs[..p + 1];
      assert q[..p] == instrs[..p] && q[p] == instrs[p];
      assert Trace(q) == Trace(instrs[..p]) + seq(Cycles(instrs[p]), _ => FinalX(instrs[..p]));
      assert Trace(q)[k] == FinalX(instrs[..p]);
    } else {
      assert instrs[..p] == instrs;
    }
  }

  // ---------------------------------------------------------------------------
  // The signal strength.

  const Checkpoints: seq<nat> := [20, 60, 100, 140, 180, 220]

  /** Cycle number times `x` during that cycle, added over the
      checkpoints among the first `n` cycles. */
  function Strength(xs: seq<int>, n: nat, checkpoints: seq<nat>): int
    requires n <= |xs|
  {
    if checkpoints == [] then 0
    else
      var c := checkpoints[0];
      (if 1 <= c <= n then c * xs[c - 1] else 0) + Strength(xs, n, checkpoints[1..])
  }

  /** One more cycle adds its own term when it is a checkpoint. */
  lemma {:induction false} StrengthStep(xs: seq<int>, n: nat, checkpoints: seq<nat>)
    requires 1 <= n <= |xs|
    requires forall i, j | 0 <= i < j < |checkpoints| :: checkpoints[i] != checkpoints[j]
    ensures Strength(xs, n, checkpoints) == Strength(xs, n - 1, checkpoints) + (if n in checkpoints then n * xs[n - 1] else 0)
  {
    if checkpoints != [] {
      StrengthStep(xs, n, checkpoints[1..]);
      assert n in checkpoints <==> n == checkpoints[0] || n in checkpoints[1..];
    }
  }

  /** Before any cycle, nothing is added. */
  lemma {:induction false} StrengthOfNone(xs: seq<int>, checkpoints: seq<nat>)
    ensures Strength(xs, 0, checkpoints) == 0
  {
    if checkpoints != [] {
      StrengthOfNone(xs, checkpoints[1..]);
    }
  }

  /** Over all of the 220 cycles, the strength is the sum of the six
      products. */
  lemma StrengthOfAll(xs: seq<int>)
    requires |xs| >= 220
    ensures Strength(xs, 220, Checkpoints) == 20 * xs[19] + 60 * xs[59] + 100 * xs[99] + 140 * xs[139] + 180 * xs[179] + 220 * xs[219]
  {
    assert Strength(xs, 220, Checkpoints[6..]) == 0;
    assert Strength(xs, 220, Checkpoints[5..]) == 220 * xs[219];
    assert Strength(xs, 220, Checkpoints[4..]) == 180 * xs[179] + 220 * xs[219];
    assert Strength(xs, 220, Checkpoints[3..]) == 140 * xs[139] + 180 * xs[179] + 220 * xs[219];
    assert Strength(xs, 220, Checkpoints[2..]) == 100 * xs[99] + 140 * xs[139] + 180 * xs[179] + 220 * xs[219];
    assert Strength(xs, 220, Checkpoints[1..]) == 60 * xs[59] + 100 * xs[99] + 140 * xs[139] + 180 * xs[179] + 220 * xs[219];
  }

  /** The state of the loop at the start of a cycle, after `done` cycles:
      either all `pos` instructions read so far have completed, or the last
      one is an `addx` with one cycle to go. */
  ghost predicate MachineAt(instrs: seq<Instruction>, done: nat, pos: nat, pending: Option<int>, x: int)
  {
    pos <= |instrs| &&
    match pending
    case None => done == |Trace(instrs[..pos])| && x == FinalX(instrs[..pos])
    case Some(v) => pos >= 1 && instrs[pos - 1] == AddX(v) && done == |Trace(instrs[..pos - 1])| + 1 && x == FinalX(instrs[..pos - 1])
  }

  /** In that state `x` is the value of the current cycle. */
  lemma MachineValue(instrs: seq<Instruction>, done: nat, pos: nat, pending: Option<int>, x: int)
    requires MachineAt(instrs, done, pos, pending, x)
    ensures done < |Run(instrs)| && Run(instrs)[done] == x
  {
    assert instrs[..|instrs|] == instrs;
    if pending.None? {
      if pos < |instrs| {
        assert instrs[..pos + 1][..pos] == instrs[..pos];
      }
      CycleValue(instrs, pos, done);
    } else {
      assert instrs[..pos][..pos - 1] == instrs[..pos - 1];
      CycleValue(instrs, pos - 1, done);
    }
  }

  /** Finishing a pending `addx`. */
  lemma FinishAddX(instrs: seq<Instruction>, done: nat, pos: nat, v: int, x: int)
    requires MachineAt(instrs, done, pos, Some(v), x)
    ensures MachineAt(instrs, done + 1, pos, None, x + v)
  {
    assert instrs[..pos][..pos - 1] == instrs[..pos - 1];
  }

  /** Reading the next instruction with none pending. */
  lemma Fetch(instrs: seq<Instruction>, done: nat, pos: nat, x: int)
    requires MachineAt(instrs, done, pos, None, x) && pos < |instrs|
    ensures instrs[pos].Noop? ==> MachineAt(instrs, done + 1, pos + 1, None, x)
    ensures instrs[pos].AddX? ==> MachineAt(instrs, done + 1, pos + 1, Some(instrs[pos].argument), x)
  {
    assert instrs[..pos + 1][..pos] == instrs[..pos];
  }

  /** Once the machine has run `done` cycles, there are at least that many
      instruction cycles. */
  lemma MachineBound(instrs: seq<Instruction>, done: nat, pos: nat, pending: Option<int>, x: int)
    requires MachineAt(instrs, done, pos, pending, x)
    ensures done <= |Trace(instrs)|
    ensures pending.Some? ==> done < |Trace(instrs)|
  {
    assert instrs[..|instrs|] == instrs;
    TracePrefix(instrs, pos, |instrs|);
    if pending.Some? {
      var q := instrs[..pos];
      assert q[..pos - 1] == instrs[..pos - 1] && q[pos - 1] == instrs[pos - 1];
      assert |Trace(q)| == |Trace(instrs[..pos - 1])| + 2;
    }
  }

  /** Reading line `pos` with no instruction pending: the program panics
      when it cannot parse it, and otherwise reads the next instruction. */
  lemma FetchLine(lines: seq<string>, done: nat, pos: nat, x: int)
    requires MachineAt(ValidPrefix(lines), done, pos, None, x) && pos < |lines|
    ensures ParseInstruction(lines[pos]).None? ==> Panics(lines, done + 1)
    ensures ParseInstruction(lines[pos]).Some? ==>
              pos < |ValidPrefix(lines)| && ParseInstruction(lines[pos]).value == ValidPrefix(lines)[pos]
  {
    var instrs := ValidPrefix(lines);
    assert instrs[..|instrs|] == instrs;
  }

  /** Reaching the end of the input with no instruction pending: the cycle
      being run is the last one, and no line failed to parse. */
  lemma FinishInput(lines: seq<string>, done: nat, pos: nat, x: int)
    requires MachineAt(ValidPrefix(lines), done, pos, None, x) && pos == |lines|
    ensures |ValidPrefix(lines)| == |lines| && |Run(ValidPrefix(lines))| == done + 1
  {
    var instrs := ValidPrefix(lines);
    assert instrs[..|instrs|] == instrs;
  }

  // ---------------------------------------------------------------------------
  // `main`.

  /** The checkpoint test at the top of a cycle. */
  method AddStrength(signalStrength: int, cycle: nat, x: int, ghost xs: seq<int>) returns (r: int)
    requires 1 <= cycle <= |xs| && xs[cycle - 1] == x
    requires signalStrength == Strength(xs, cycle - 1, Checkpoints)
    ensures r == Strength(xs, cycle, Checkpoints)
  {
    StrengthStep(xs, cycle, Checkpoints);
    r := signalStrength;
    if cycle in Checkpoints {
      var newStrength := cycle * x;
      r := r + newStrength;
    }
  }

  /** The signal strength over the first 220 cycles, or over the cycles run
      before the input ends; `None` when the program panics on a line it
      cannot parse. */
  /** What the second half of a cycle leads to. */
  datatype Outcome = Continue | EndOfInput | Panic

  /** The second half of a cycle: a pending `addx` completes, and otherwise
      the next line is read, which ends the loop when the input is
      exhausted and panics when the line cannot be parsed. */
  method Execute(lines: seq<string>, ghost done: nat, x: int, pending: Option<int>, pos: nat)
    returns (x': int, pending': Option<int>, pos': nat, outcome: Outcome)
    requires MachineAt(ValidPrefix(lines), done, pos, pending, x)
    ensures outcome == Continue ==> MachineAt(ValidPrefix(lines), done + 1, pos', pending', x')
    ensures outcome == EndOfInput ==> |ValidPrefix(lines)| == |lines| && |Run(ValidPrefix(lines))| == done + 1
    ensures outcome == Panic ==> Panics(lines, done + 1)
  {
    ghost var instrs := ValidPrefix(lines);
    x', pending', pos', outcome := x, pending, pos, Continue;
    if pending.Some? {
      FinishAddX(instrs, done, pos, pending.value, x);
      x' := x + pending.value;
      pending' := None;
      return;
    }
    if pos < |lines| {
      var instruction := ParseInstruction(lines[pos]);
      FetchLine(lines, done, pos, x);
      if instruction.None? {
        return x, pending, pos, Panic;
      }
      Fetch(instrs, done, pos, x);
      match instruction.value {
        case AddX(argument) =>
          pending' := Some(argument);
        case Noop =>
      }
      pos' := pos + 1;
    } else {
      FinishInput(lines, done, pos, x);
      outcome := EndOfInput;
    }
  }

  /** The signal strength over the first 220 cycles, or over the cycles run
      before the input ends; `None` when the program panics on a line it
      cannot parse. */
  method SignalStrength(lines: seq<string>) returns (r: Option<int>)
    ensures r.None? <==> Panics(lines, 220)
    ensures r.Some? ==> var xs := Run(ValidPrefix(lines));
                        r.value == Strength(xs, Min(|xs|, 220), Checkpoints)
  {
    ghost var instrs := ValidPrefix(lines);
    var x := 1;
    var pending: Option<int> := None;
    var signalStrength := 0;
    var pos := 0;
    var cycle := 1;
    assert instrs[..0] == [];
    StrengthOfNone(Run(instrs), Checkpoints);
    while cycle <= 220
      invariant 1 <= cycle <= 221
      invariant MachineAt(instrs, cycle - 1, pos, pending, x)
      invariant cycle - 1 <= |Run(instrs)| && signalStrength == Strength(Run(instrs), cycle - 1, Checkpoints)
    {
      MachineValue(instrs, cycle - 1, pos, pending, x);
      signalStrength := AddStrength(signalStrength, cycle, x, Run(instrs));
      var outcome;
      x, pending, pos, outcome := Execute(lines, cycle - 1, x, pending, pos);
      match outcome {
        case Panic =>
          return None;
        case EndOfInput =>
          return Some(signalStrength);
        case Continue =>
      }
      cycle := cycle + 1;
    }
    assert cycle == 221;
    MachineBound(instrs, cycle - 1, pos, pending, x);
    assert Min(|Run(instrs)|, 220) == cycle - 1;
    r := Some(signalStrength);
  }
}
