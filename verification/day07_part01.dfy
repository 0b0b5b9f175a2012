/** Day 7, part 1: directory sizes from a terminal session (`$ cd`, `$ ls`
    and the listing lines), with a stack of the sizes of the directories
    currently open; the answer is the total of the sizes of at most 100000
    of the directories left with `$ cd ..`. */
module Day07Part01 {
  import opened Common

  // ---------------------------------------------------------------------------
  // The lines of the session.

  /** What a line does. `Ls` and `Dir` are only told apart by the debug
      version of part 2; the others treat those lines as `Other`. */
  datatype Command = CdUp | Cd(name: string) | File(size: int, name: string) | Ls | Dir(name: string) | Other

  /** The pattern `{i64} {String}`: an optionally signed run of digits, a
      space and a non-empty name. */
  function ParseFileLine(line: string): (r: Option<(int, string)>)
    ensures r.Some? ==> |r.value.1| > 0
  {
    var negative := |line| > 0 && line[0] == '-';
    var body := if negative then line[1..] else line;
    var n := DigitSpan(body);
    if n == 0 || n + 1 >= |body| || body[n] != ' ' then None
    else
      var v: int := DecimalValue(body[..n]);
      Some((if negative then -v else v, body[n + 1..]))
  }

  /** The dispatch of the loop: `$ cd ..` is tested before the pattern
      `$ cd {}`, which is tested before the pattern of a file line. */
  function Classify(line: string): Command
  {
    if line == "$ cd .." then CdUp
    else if |line| > 5 && line[..5] == "$ cd " then Cd(line[5..])
    else
      var f := ParseFileLine(line);
      if f.Some? then File(f.value.0, f.value.1) else Other
  }

  /** `$ cd ..` would also match `$ cd {}`, but leaves the directory; `$ ls`
      and `dir` lines match no pattern and are ignored. */
  lemma ClassifyPrecedence(name: string)
    ensures Classify("$ cd ..") == CdUp
    ensures |name| > 0 ==> Classify("$ cd " + name) == (if "$ cd " + name == "$ cd .." then CdUp else Cd(name))
    ensures Classify("$ ls") == Other && Classify("dir " + name) == Other
  {
    var l := "$ cd " + name;
    assert l[..5] == "$ cd " && l[5..] == name;
    assert ("dir " + name)[0] == 'd';
  }

  /** A file line is read back into its size and name. */
  lemma ClassifyFile(size: nat, digits: string, name: string)
    requires |digits| > 0 && (forall i | 0 <= i < |digits| :: IsDigit(digits[i]))
    requires DecimalValue(digits) == size && |name| > 0
    ensures Classify(digits + " " + name) == File(size, name)
  {
    var l := digits + " " + name;
    assert l[0] == digits[0] && l[0] != '$' && l[0] != '-';
    assert l != "$ cd ..";
    assert !(|l| > 5 && l[..5] == "$ cd ");
    ParseDigits(digits, name);
  }

  lemma ParseDigits(digits: string, name: string)
    requires |digits| > 0 && (forall i | 0 <= i < |digits| :: IsDigit(digits[i]))
    requires |name| > 0
    ensures ParseFileLine(digits + " " + name) == Some((DecimalValue(digits) as int, name))
  {
    var l := digits + (" " + name);
    assert l[0] == digits[0];
    DigitSpanOf(digits, " " + name);
    assert l[..|digits|] == digits;
    assert l[|digits| + 1..] == name;
    assert digits + " " + name == l;
  }

  lemma {:induction false} DigitSpanOf(digits: string, rest: string)
    requires (forall i | 0 <= i < |digits| :: IsDigit(digits[i]))
    requires rest == [] || !IsDigit(rest[0])
    ensures DigitSpan(digits + rest) == |digits|
  {
    if digits != [] {
      assert (digits + rest)[1..] == digits[1..] + rest;
      DigitSpanOf(digits[1..], rest);
    } else {
      assert digits + rest == rest;
    }
  }

  // ---------------------------------------------------------------------------
  // The stack of open directory sizes.

  datatype State = State(levels: seq<int>, sum: int)

  /** The session never leaves the outermost level: each `$ cd ..` finds at
      least two levels (otherwise `last_mut().unwrap()` panics). */
  predicate StaysInside(cmds: seq<Command>, depth: nat)
  {
    cmds == []
    || (match cmds[0]
        case CdUp => depth >= 2 && StaysInside(cmds[1..], depth - 1)
        case Cd(_) => StaysInside(cmds[1..], depth + 1)
        case _ => StaysInside(cmds[1..], depth))
  }

  /** One line of the loop. */
  function Step(s: State, c: Command): State
    requires |s.levels| >= 1 && (c.CdUp? ==> |s.levels| >= 2)
  {
    var n := |s.levels|;
    match c
    case CdUp =>
      var size := s.levels[n - 1];
      var popped := s.levels[..n - 1];
      var sum := if size <= 100000 then s.sum + size else s.sum;
      State(popped[n - 2 := popped[n - 2] + size], sum)
    case Cd(_) => State(s.levels + [0], s.sum)
    case File(size, _) => State(s.levels[n - 1 := s.levels[n - 1] + size], s.sum)
    case _ => s
  }

  /** `$ cd X` pushes 0; a file adds its size to the top level only;
      `$ cd ..` pops a size, adds it to `sum` when it is at most 100000,
      and adds it to the new top; other lines change nothing. */
  lemma StepMeaning(s: State, c: Command)
    requires |s.levels| >= 1 && (c.CdUp? ==> |s.levels| >= 2)
    ensures var r := Step(s, c);
            && (c.Cd? ==> r == State(s.levels + [0], s.sum))
            && (c.File? ==> r.sum == s.sum && |r.levels| == |s.levels|
                            && r.levels[..|r.levels| - 1] == s.levels[..|s.levels| - 1]
                            && r.levels[|r.levels| - 1] == s.levels[|s.levels| - 1] + c.size)
            && (c.CdUp? ==> var n := |s.levels|; var size := s.levels[n - 1];
                            && r.sum == s.sum + (if size <= 100000 then size else 0)
                            && r.levels == s.levels[..n - 2] + [s.levels[n - 2] + size])
            && (!c.Cd? && !c.File? && !c.CdUp? ==> r == s)
  {
  }

  function Depth(c: Command, depth: nat): nat
  {
    match c
    case CdUp => if depth >= 1 then depth - 1 else 0
    case Cd(_) => depth + 1
    case _ => depth
  }

  /** The state after a list of lines. */
  function Run(s: State, cmds: seq<Command>): (r: State)
    requires |s.levels| >= 1 && StaysInside(cmds, |s.levels|)
    ensures |r.levels| >= 1
    decreases |cmds|
  {
    if cmds == [] then s else Run(Step(s, cmds[0]), cmds[1..])
  }

  function Commands(lines: seq<string>): (cmds: seq<Command>)
    ensures |cmds| == |lines| && forall i | 0 <= i < |lines| :: cmds[i] == Classify(lines[i])
  {
    if lines == [] then [] else [Classify(lines[0])] + Commands(lines[1..])
  }

  lemma {:induction false} RunAppend(s: State, cmds: seq<Command>, c: Command)
    requires |s.levels| >= 1 && StaysInside(cmds + [c], |s.levels|)
    ensures StaysInside(cmds, |s.levels|)
    ensures var t := Run(s, cmds); |t.levels| >= 1 && (c.CdUp? ==> |t.levels| >= 2)
    ensures Run(s, cmds + [c]) == Step(Run(s, cmds), c)
    decreases |cmds|
  {
    if cmds == [] {
      assert [c][1..] == [];
    } else {
      assert (cmds + [c])[1..] == cmds[1..] + [c];
      RunAppend(Step(s, cmds[0]), cmds[1..], c);
    }
  }

  /** The loop of `main`: the stack starts as `[0]` and every line is
      applied in turn; the answer is `sum`. */
  method SumOfSmallDirectories(lines: seq<string>) returns (sum: int)
    requires StaysInside(Commands(lines), 1)
    ensures sum == Run(State([0], 0), Commands(lines)).sum
  {
    ghost var cmds := Commands(lines);
    var levels := [0];
    sum := 0;
    for i := 0 to |lines|
      invariant |levels| >= 1 && StaysInside(cmds[..i], 1)
      invariant State(levels, sum) == Run(State([0], 0), cmds[..i])
    {
      RunPrefix(cmds, i);
      levels, sum := ApplyLine(levels, sum, lines[i]);
    }
    assert cmds[..|lines|] == cmds;
  }

  /** The body of the loop for one line. */
  method ApplyLine(levels: seq<int>, sum: int, line: string) returns (levels': seq<int>, sum': int)
    requires |levels| >= 1 && (Classify(line).CdUp? ==> |levels| >= 2)
    ensures State(levels', sum') == Step(State(levels, sum), Classify(line))
  {
    levels', sum' := levels, sum;
    match Classify(line)
    case CdUp =>
      var size := levels'[|levels'| - 1];
      levels' := levels'[..|levels'| - 1];
      if size <= 100000 {
        sum' := sum' + size;
      }
      levels' := levels'[|levels'| - 1 := levels'[|levels'| - 1] + size];
    case Cd(_) =>
      levels' := levels' + [0];
    case File(size, _) =>
      levels' := levels'[|levels'| - 1 := levels'[|levels'| - 1] + size];
    case _ =>
  }

  /** The state after one more line of a session that stays inside. */
  lemma RunPrefix(cmds: seq<Command>, i: nat)
    requires i < |cmds| && StaysInside(cmds, 1)
    ensures StaysInside(cmds[..i], 1) && StaysInside(cmds[..i + 1], 1)
    ensures var t := Run(State([0], 0), cmds[..i]);
            (cmds[i].CdUp? ==> |t.levels| >= 2)
            && Run(State([0], 0), cmds[..i + 1]) == Step(t, cmds[i])
  {
    assert cmds[..i + 1] + cmds[i + 1..] == cmds;
    StaysInsidePrefix(cmds[..i + 1], cmds[i + 1..], 1);
    assert cmds[..i + 1] == cmds[..i] + [cmds[i]];
    RunAppend(State([0], 0), cmds[..i], cmds[i]);
  }

  lemma {:induction false} StaysInsidePrefix(a: seq<Command>, b: seq<Command>, depth: nat)
    requires StaysInside(a + b, depth)
    ensures StaysInside(a, depth)
    decreases |a|
  {
    if a != [] {
      assert (a + b)[1..] == a[1..] + b;
      StaysInsidePrefix(a[1..], b, Depth(a[0], depth));
    }
  }

  // ---------------------------------------------------------------------------
  // What the stack holds.

  /** The total size of the files listed. */
  function FileTotal(cmds: seq<Command>): int
  {
    if cmds == [] then 0 else (if cmds[0].File? then cmds[0].size else 0) + FileTotal(cmds[1..])
  }

  lemma {:induction false} FileTotalAppend(a: seq<Command>, b: seq<Command>)
    ensures FileTotal(a + b) == FileTotal(a) + FileTotal(b)
  {
    if a == [] {
      assert a + b == b;
    } else {
      assert (a + b)[1..] == a[1..] + b;
      FileTotalAppend(a[1..], b);
    }
  }

  /** Every file size is counted exactly once in the stack: the levels add
      up to the sizes listed so far. */
  lemma {:induction false} RunConservesSizes(s: State, cmds: seq<Command>)
    requires |s.levels| >= 1 && StaysInside(cmds, |s.levels|)
    ensures Sum(Run(s, cmds).levels) == Sum(s.levels) + FileTotal(cmds)
    decreases |cmds|
  {
    if cmds != [] {
      var t := Step(s, cmds[0]);
      StepConservesSizes(s, cmds[0]);
      RunConservesSizes(t, cmds[1..]);
    }
  }

  lemma StepConservesSizes(s: State, c: Command)
    requires |s.levels| >= 1 && (c.CdUp? ==> |s.levels| >= 2)
    ensures Sum(Step(s, c).levels) == Sum(s.levels) + (if c.File? then c.size else 0)
  {
    var n := |s.levels|;
    var l := s.levels;
    var r := Step(s, c).levels;
    StepMeaning(s, c);
    if c.CdUp? {
      assert l == l[..n - 2] + [l[n - 2], l[n - 1]];
      assert Sum([l[n - 2], l[n - 1]]) == l[n - 2] + l[n - 1] by {
        assert [l[n - 2], l[n - 1]][1..] == [l[n - 1]];
        assert Sum([l[n - 1]]) == l[n - 1] + Sum([]);
      }
      SumAppend(l[..n - 2], [l[n - 2], l[n - 1]]);
      SumAppend(l[..n - 2], [l[n - 2] + l[n - 1]]);
    } else if c.Cd? {
      SumAppend(l, [0]);
    } else if c.File? {
      assert l == l[..n - 1] + [l[n - 1]];
      assert r == l[..n - 1] + [r[n - 1]];
      SumAppend(l[..n - 1], [l[n - 1]]);
      SumAppend(l[..n - 1], [r[n - 1]]);
    }
  }

  predicate NonNegative(levels: seq<int>)
  {
    forall i | 0 <= i < |levels| :: levels[i] >= 0
  }

  predicate SizesNonNegative(cmds: seq<Command>)
  {
    forall i | 0 <= i < |cmds| :: cmds[i].File? ==> cmds[i].size >= 0
  }

  lemma StepBounds(s: State, c: Command)
    requires |s.levels| >= 1 && (c.CdUp? ==> |s.levels| >= 2)
    requires NonNegative(s.levels) && (c.File? ==> c.size >= 0)
    ensures var t := Step(s, c);
            NonNegative(t.levels) && s.sum <= t.sum <= s.sum + (if c.CdUp? then 100000 else 0)
  {
    var t := Step(s, c);
    var n := |s.levels|;
    StepMeaning(s, c);
    if c.CdUp? {
      assert t.levels == s.levels[..n - 2] + [s.levels[n - 2] + s.levels[n - 1]];
    } else if c.File? {
      assert t.levels == s.levels[..n - 1] + [t.levels[n - 1]];
    } else if c.Cd? {
      assert t.levels == s.levels + [0];
    }
  }

  /** The answer only grows, and with non-negative sizes it never counts more
      than 100000 for each `$ cd ..`. */
  lemma {:induction false} RunSumBounds(s: State, cmds: seq<Command>)
    requires |s.levels| >= 1 && StaysInside(cmds, |s.levels|)
    requires NonNegative(s.levels) && SizesNonNegative(cmds)
    ensures s.sum <= Run(s, cmds).sum <= s.sum + 100000 * CountCdUp(cmds)
    ensures NonNegative(Run(s, cmds).levels)
    decreases |cmds|
  {
    if cmds != [] {
      StepBounds(s, cmds[0]);
      assert SizesNonNegative(cmds[1..]) by {
        forall i | 0 <= i < |cmds| - 1 ensures cmds[1..][i].File? ==> cmds[1..][i].size >= 0 {
          assert cmds[1..][i] == cmds[i + 1];
        }
      }
      RunSumBounds(Step(s, cmds[0]), cmds[1..]);
    }
  }

  function CountCdUp(cmds: seq<Command>): nat
  {
    if cmds == [] then 0 else (if cmds[0].CdUp? then 1 else 0) + CountCdUp(cmds[1..])
  }
}
