/** Day 7, part 2, the tracing variant: the same computation as part 2,
    with `$ ls` and `dir` lines recognised (and only echoed) rather than
    falling through every pattern. */
module Day07Part02Debug {
  import opened Common
  import P1 = Day07Part01
  import opened Day07Part02

  /** The dispatch of the tracing loop: `$ cd ..`, `$ ls`, `$ cd {}`,
      `dir {}`, then a file line. */
  function ClassifyDebug(line: string): P1.Command
  {
    if line == "$ cd .." then P1.CdUp
    else if line == "$ ls" then P1.Ls
    else if |line| > 5 && line[..5] == "$ cd " then P1.Cd(line[5..])
    else if |line| > 4 && line[..4] == "dir " then P1.Dir(line[4..])
    else
      var f := P1.ParseFileLine(line);
      if f.Some? then P1.File(f.value.0, f.value.1) else P1.Other
  }

  /** The tracing dispatch agrees with part 2's on every line, except that
      the lines part 2 ignores may be recognised as `$ ls` or `dir`. */
  lemma ClassifyDebugAgrees(line: string)
    ensures ClassifyDebug(line) == P1.Classify(line)
            || ((ClassifyDebug(line).Ls? || ClassifyDebug(line).Dir?) && P1.Classify(line) == P1.Other)
  {
    if line == "$ ls" {
      assert P1.ParseFileLine(line) == None by {
        assert DigitSpan(line) == 0;
      }
    } else if line != "$ cd .." && !(|line| > 5 && line[..5] == "$ cd ") && |line| > 4 && line[..4] == "dir " {
      assert line[0] == 'd';
      assert P1.ParseFileLine(line) == None by {
        assert DigitSpan(line) == 0;
      }
    }
  }

  /** A recognised `$ ls` or `dir` line changes nothing, so both dispatches
      step the same way. */
  lemma StepAgrees(s: Session, line: string)
    ensures CanStep(s, ClassifyDebug(line)) <==> CanStep(s, P1.Classify(line))
    ensures CanStep(s, P1.Classify(line)) ==> Step(s, ClassifyDebug(line)) == Step(s, P1.Classify(line))
  {
    ClassifyDebugAgrees(line);
  }

  function CommandsDebug(lines: seq<string>): (cmds: seq<P1.Command>)
    ensures |cmds| == |lines|
    ensures forall i | 0 <= i < |lines| :: cmds[i] == ClassifyDebug(lines[i])
  {
    seq(|lines|, i requires 0 <= i < |lines| => ClassifyDebug(lines[i]))
  }

  /** The tracing loop can read exactly the sessions part 2 can, and ends in
      the same map and path. */
  lemma {:induction false} RunAgrees(s: Session, lines: seq<string>)
    ensures Feasible(s, CommandsDebug(lines)) <==> Feasible(s, P1.Commands(lines))
    ensures Feasible(s, P1.Commands(lines)) ==> Run(s, CommandsDebug(lines)) == Run(s, P1.Commands(lines))
    decreases |lines|
  {
    if lines != [] {
      StepAgrees(s, lines[0]);
      assert CommandsDebug(lines)[1..] == CommandsDebug(lines[1..]);
      assert P1.Commands(lines)[1..] == P1.Commands(lines[1..]);
      if CanStep(s, P1.Classify(lines[0])) {
        RunAgrees(Step(s, P1.Classify(lines[0])), lines[1..]);
      }
    }
  }

  /** The body of the tracing loop for one line, leaving out the echo. */
  method ApplyLineDebug(directories: map<string, int>, path: seq<string>, line: string)
    returns (directories': map<string, int>, path': seq<string>)
    requires CanStep(Session(directories, path), ClassifyDebug(line))
    ensures Session(directories', path') == Step(Session(directories, path), ClassifyDebug(line))
  {
    directories', path' := directories, path;
    if line == "$ cd .." {
      var size := directories'[Join(path')];
      path' := path'[..|path'| - 1];
      directories' := directories'[Join(path') := directories'[Join(path')] + size];
    } else if line == "$ ls" {
    } else if |line| > 5 && line[..5] == "$ cd " {
      path' := path' + [line[5..]];
      directories' := directories'[Join(path') := 0];
    } else if |line| > 4 && line[..4] == "dir " {
    } else {
      var f := P1.ParseFileLine(line);
      if f.Some? {
        directories' := directories'[Join(path') := directories'[Join(path')] + f.value.0];
      }
    }
  }

  method ReadSessionDebug(lines: seq<string>) returns (directories: map<string, int>, path: seq<string>)
    requires Feasible(Start, P1.Commands(lines))
    ensures Session(directories, path) == Run(Start, P1.Commands(lines))
  {
    ghost var cmds := CommandsDebug(lines);
    RunAgrees(Start, lines);
    directories, path := map[], [];
    for i := 0 to |lines|
      invariant Feasible(Start, cmds[..i])
      invariant Session(directories, path) == Run(Start, cmds[..i])
    {
      RunPrefix(cmds, i);
      directories, path := ApplyLineDebug(directories, path, lines[i]);
    }
    assert cmds[..|lines|] == cmds;
  }

  /** The tracing program computes part 2's answer: the smallest directory
      size above the space to free, over the same directories. */
  method SolveDebug(lines: seq<string>) returns (r: int)
    requires Feasible(Start, P1.Commands(lines))
    requires |Run(Start, P1.Commands(lines)).path| >= 1 && CanUnwind(Run(Start, P1.Commands(lines)))
    requires var u := Unwound(Run(Start, P1.Commands(lines)));
             "/" in u.directories
             && exists k | k in u.directories :: u.directories[k] > SpaceToFree(u.directories["/"])
    ensures var u := Unwound(Run(Start, P1.Commands(lines)));
            && r in u.directories.Values && r > SpaceToFree(u.directories["/"])
            && forall k | k in u.directories :: u.directories[k] > SpaceToFree(u.directories["/"]) ==> r <= u.directories[k]
  {
    var directories, path := ReadSessionDebug(lines);
    directories, path := Unwind(directories, path);
    var total := directories["/"];
    var sizes := Values(directories);
    r := SmallestAbove(sizes, SpaceToFree(total));
    var i :| 0 <= i < |sizes| && sizes[i] == r;
  }
}
