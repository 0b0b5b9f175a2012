/** Day 7, part 2: the sizes of all directories, keyed by their path joined
    with `/`; after the session the open directories are closed, and the
    answer is the size of the smallest directory whose deletion frees
    enough space. The lines are read as in part 1. */
module Day07Part02 {
  import opened Common
  import opened Day07Part01

  // ---------------------------------------------------------------------------
  // Paths.

  /** `path.join("/")`. */
  function Join(path: seq<string>): string
  {
    if |path| == 0 then ""
    else if |path| == 1 then path[0]
    else Join(path[..|path| - 1]) + "/" + path[|path| - 1]
  }

  predicate NamesNonEmpty(path: seq<string>)
  {
    forall i | 0 <= i < |path| :: |path[i]| > 0
  }

  /** A longer prefix of a path of non-empty names joins to a longer key, so
      the keys of the directories on the path are pairwise different. */
  lemma {:induction false} JoinPrefixLonger(path: seq<string>, k: nat, j: nat)
    requires NamesNonEmpty(path) && k < j <= |path|
    ensures |Join(path[..k])| < |Join(path[..j])|
    decreases j
  {
    var p := path[..j];
    if j == 1 {
      assert path[..k] == [];
    } else {
      assert p[..j - 1] == path[..j - 1];
      if k < j - 1 {
        JoinPrefixLonger(path, k, j - 1);
      }
    }
  }

  // ---------------------------------------------------------------------------
  // The loop over the lines.

  datatype Session = Session(directories: map<string, int>, path: seq<string>)

  /** What the loop needs not to panic on a line: the current directory has
      an entry for `$ cd ..` and for a file line, and so has its parent for
      `$ cd ..`. */
  predicate CanStep(s: Session, c: Command)
  {
    match c
    case CdUp => |s.path| >= 1 && Join(s.path) in s.directories && Join(s.path[..|s.path| - 1]) in s.directories
    case File(_, _) => Join(s.path) in s.directories
    case _ => true
  }

  function Step(s: Session, c: Command): Session
    requires CanStep(s, c)
  {
    match c
    case CdUp =>
      var size := s.directories[Join(s.path)];
      var parent := s.path[..|s.path| - 1];
      Session(s.directories[Join(parent) := s.directories[Join(parent)] + size], parent)
    case Cd(name) =>
      var path := s.path + [name];
      Session(s.directories[Join(path) := 0], path)
    case File(size, _) =>
      Session(s.directories[Join(s.path) := s.directories[Join(s.path)] + size], s.path)
    case _ => s
  }

  /** `$ cd X` pushes X and sets its entry to 0; a file line adds its size to
      the current directory's entry only; `$ cd ..` adds the directory's
      size to its parent's entry, then pops; other lines change nothing. */
  lemma StepMeaning(s: Session, c: Command)
    requires CanStep(s, c)
    ensures var r := Step(s, c);
            && (c.Cd? ==> r.path == s.path + [c.name] && r.directories == s.directories[Join(r.path) := 0])
            && (c.File? ==> r.path == s.path && Join(s.path) in r.directories
                            && r.directories[Join(s.path)] == s.directories[Join(s.path)] + c.size
                            && forall k | k in s.directories && k != Join(s.path) :: k in r.directories && r.directories[k] == s.directories[k])
            && (c.CdUp? ==> var parent := s.path[..|s.path| - 1];
                            && r.path == parent
                            && r.directories == s.directories[Join(parent) := s.directories[Join(parent)] + s.directories[Join(s.path)]])
            && (!c.Cd? && !c.File? && !c.CdUp? ==> r == s)
  {
  }

  predicate Feasible(s: Session, cmds: seq<Command>)
    decreases |cmds|
  {
    cmds == [] || (CanStep(s, cmds[0]) && Feasible(Step(s, cmds[0]), cmds[1..]))
  }

  function Run(s: Session, cmds: seq<Command>): Session
    requires Feasible(s, cmds)
    decreases |cmds|
  {
    if cmds == [] then s else Run(Step(s, cmds[0]), cmds[1..])
  }

  lemma {:induction false} RunAppend(s: Session, cmds: seq<Command>, c: Command)
    requires Feasible(s, cmds + [c])
    ensures Feasible(s, cmds) && CanStep(Run(s, cmds), c)
    ensures Run(s, cmds + [c]) == Step(Run(s, cmds), c)
    decreases |cmds|
  {
    if cmds == [] {
      assert [c][1..] == [];
    } else {
      assert (cmds + [c])[1..] == cmds[1..] + [c];
      RunAppend(Step(s, cmds[0]), cmds[1..], c);
    }
  }

  lemma {:induction false} FeasiblePrefix(s: Session, a: seq<Command>, b: seq<Command>)
    requires Feasible(s, a + b)
    ensures Feasible(s, a)
    decreases |a|
  {
    if a != [] {
      assert (a + b)[1..] == a[1..] + b;
      FeasiblePrefix(Step(s, a[0]), a[1..], b);
    }
  }

  const Start := Session(map[], [])

  /** The state after one more line of a feasible session. */
  lemma RunPrefix(cmds: seq<Command>, i: nat)
    requires i < |cmds| && Feasible(Start, cmds)
    ensures Feasible(Start, cmds[..i]) && Feasible(Start, cmds[..i + 1])
    ensures CanStep(Run(Start, cmds[..i]), cmds[i])
    ensures Run(Start, cmds[..i + 1]) == Step(Run(Start, cmds[..i]), cmds[i])
  {
    var a, c, b := cmds[..i], cmds[i], cmds[i + 1..];
    assert a + [c] == cmds[..i + 1];
    assert (a + [c]) + b == cmds;
    FeasiblePrefix(Start, a + [c], b);
    RunAppend(Start, a, c);
  }

  /** The body of the loop for one line. */
  method ApplyLine(directories: map<string, int>, path: seq<string>, line: string)
    returns (directories': map<string, int>, path': seq<string>)
    requires CanStep(Session(directories, path), Classify(line))
    ensures Session(directories', path') == Step(Session(directories, path), Classify(line))
  {
    directories', path' := directories, path;
    match Classify(line)
    case CdUp =>
      var size := directories'[Join(path')];
      path' := path'[..|path'| - 1];
      directories' := directories'[Join(path') := directories'[Join(path')] + size];
    case Cd(name) =>
      path' := path' + [name];
      directories' := directories'[Join(path') := 0];
    case File(size, _) =>
      directories' := directories'[Join(path') := directories'[Join(path')] + size];
    case _ =>
  }

  /** The loop over the lines, from an empty map and an empty path. */
  method ReadSession(lines: seq<string>) returns (directories: map<string, int>, path: seq<string>)
    requires Feasible(Start, Commands(lines))
    ensures Session(directories, path) == Run(Start, Commands(lines))
  {
    ghost var cmds := Commands(lines);
    directories, path := map[], [];
    for i := 0 to |lines|
      invariant Feasible(Start, cmds[..i])
      invariant Session(directories, path) == Run(Start, cmds[..i])
    {
      RunPrefix(cmds, i);
      directories, path := ApplyLine(directories, path, lines[i]);
    }
    assert cmds[..|lines|] == cmds;
  }

  // ---------------------------------------------------------------------------
  // Closing the open directories.

  /** Closing the open directories one `$ cd ..` at a time, down to the
      outermost one, is possible. */
  predicate CanUnwind(s: Session)
    decreases |s.path|
  {
    |s.path| <= 1 || (CanStep(s, CdUp) && CanUnwind(Step(s, CdUp)))
  }

  function Unwound(s: Session): (r: Session)
    requires CanUnwind(s)
    ensures |s.path| >= 1 ==> |r.path| == 1
    ensures |s.path| <= 1 ==> r == s
    decreases |s.path|
  {
    if |s.path| <= 1 then s else Unwound(Step(s, CdUp))
  }

  /** The loop `for _ in 0..path.len() - 1`: the same step as `$ cd ..`,
      once for every open directory but the outermost. */
  method Unwind(directories: map<string, int>, path: seq<string>)
    returns (directories': map<string, int>, path': seq<string>)
    requires |path| >= 1 && CanUnwind(Session(directories, path))
    ensures Session(directories', path') == Unwound(Session(directories, path))
  {
    directories', path' := directories, path;
    for i := 0 to |path| - 1
      invariant |path'| == |path| - i && CanUnwind(Session(directories', path'))
      invariant Unwound(Session(directories', path')) == Unwound(Session(directories, path))
    {
      var size := directories'[Join(path')];
      path' := path'[..|path'| - 1];
      directories' := directories'[Join(path') := directories'[Join(path')] + size];
    }
  }

  // ---------------------------------------------------------------------------
  // Every file is counted in the outermost directory.

  function Get(m: map<string, int>, k: string): int
  {
    if k in m then m[k] else 0
  }

  /** The entries of the directories open on `path`, from the outermost
      one to the `k`-th. */
  function PathSum(m: map<string, int>, path: seq<string>, k: nat): int
    requires k <= |path|
  {
    if k == 0 then 0 else PathSum(m, path, k - 1) + Get(m, Join(path[..k]))
  }

  /** The path sum only reads the entries of the path's directories. */
  lemma {:induction false} PathSumFrame(m: map<string, int>, m': map<string, int>, path: seq<string>, k: nat)
    requires k <= |path|
    requires forall j | 1 <= j <= k :: Get(m', Join(path[..j])) == Get(m, Join(path[..j]))
    ensures PathSum(m', path, k) == PathSum(m, path, k)
  {
    if k > 0 {
      PathSumFrame(m, m', path, k - 1);
    }
  }

  /** The path sum over a prefix of a path is the path sum of the prefix. */
  lemma {:induction false} PathSumPrefix(m: map<string, int>, path: seq<string>, n: nat, k: nat)
    requires k <= n <= |path|
    ensures PathSum(m, path[..n], k) == PathSum(m, path, k)
  {
    if k > 0 {
      PathSumPrefix(m, path, n, k - 1);
      assert path[..n][..k] == path[..k];
    }
  }

  /** A state reached by the loop: the names on the path are non-empty and
      the empty key is never stored. */
  ghost predicate Reachable(s: Session)
  {
    NamesNonEmpty(s.path) && "" !in s.directories
  }

  lemma StepReachable(s: Session, c: Command)
    requires Reachable(s) && CanStep(s, c) && (c.Cd? ==> |c.name| > 0)
    ensures Reachable(Step(s, c))
  {
    if c.Cd? {
      var path := s.path + [c.name];
      assert NamesNonEmpty(path);
      JoinPrefixLonger(path, 0, |path|);
    }
  }

  lemma CdConservesSizes(s: Session, name: string)
    requires Reachable(s) && |name| > 0
    ensures var r := Step(s, Cd(name));
            PathSum(r.directories, r.path, |r.path|) == PathSum(s.directories, s.path, |s.path|)
  {
    var m, p := s.directories, s.path;
    var n := |p|;
    var r := Step(s, Cd(name));
    var p' := p + [name];
    assert NamesNonEmpty(p');
    assert p'[..n + 1] == p';
    forall j | 1 <= j <= n ensures Get(r.directories, Join(p'[..j])) == Get(m, Join(p'[..j])) {
      JoinPrefixLonger(p', j, n + 1);
    }
    PathSumFrame(m, r.directories, p', n);
    PathSumPrefix(m, p', n, n);
    assert p'[..n] == p;
  }

  lemma FileConservesSizes(s: Session, size: int, name: string)
    requires Reachable(s) && CanStep(s, File(size, name))
    ensures var r := Step(s, File(size, name));
            PathSum(r.directories, r.path, |r.path|) == PathSum(s.directories, s.path, |s.path|) + size
  {
    var m, p := s.directories, s.path;
    var n := |p|;
    var r := Step(s, File(size, name));
    assert p[..n] == p;
    assert n > 0;
    forall j | 1 <= j < n ensures Get(r.directories, Join(p[..j])) == Get(m, Join(p[..j])) {
      JoinPrefixLonger(p, j, n);
    }
    PathSumFrame(m, r.directories, p, n - 1);
  }

  lemma CdUpConservesSizes(s: Session)
    requires Reachable(s) && CanStep(s, CdUp)
    ensures var r := Step(s, CdUp);
            PathSum(r.directories, r.path, |r.path|) == PathSum(s.directories, s.path, |s.path|)
  {
    var m, p := s.directories, s.path;
    var n := |p|;
    var r := Step(s, CdUp);
    assert n >= 2;
    assert p[..n] == p;
    forall j | 1 <= j < n - 1 ensures Get(r.directories, Join(p[..j])) == Get(m, Join(p[..j])) {
      JoinPrefixLonger(p, j, n - 1);
    }
    PathSumFrame(m, r.directories, p, n - 2);
    PathSumPrefix(r.directories, p, n - 1, n - 2);
    PathSumPrefix(r.directories, p, n - 1, n - 1);
    JoinPrefixLonger(p, n - 1, n);
  }

  /** A step keeps every file counted on the path exactly once: the path
      sum grows by the size of a file line and is otherwise unchanged. */
  lemma StepConservesSizes(s: Session, c: Command)
    requires Reachable(s) && CanStep(s, c) && (c.Cd? ==> |c.name| > 0)
    ensures PathSum(Step(s, c).directories, Step(s, c).path, |Step(s, c).path|)
            == PathSum(s.directories, s.path, |s.path|) + (if c.File? then c.size else 0)
  {
    match c
    case Cd(name) => CdConservesSizes(s, name);
    case File(size, name) => FileConservesSizes(s, size, name);
    case CdUp => CdUpConservesSizes(s);
    case _ =>
  }

  /** The names of the directories entered are non-empty. */
  predicate CdNamesNonEmpty(cmds: seq<Command>)
  {
    forall i | 0 <= i < |cmds| :: cmds[i].Cd? ==> |cmds[i].name| > 0
  }

  lemma {:induction false} RunConservesSizes(s: Session, cmds: seq<Command>)
    requires Reachable(s) && Feasible(s, cmds) && CdNamesNonEmpty(cmds)
    ensures Reachable(Run(s, cmds))
    ensures PathSum(Run(s, cmds).directories, Run(s, cmds).path, |Run(s, cmds).path|)
            == PathSum(s.directories, s.path, |s.path|) + FileTotal(cmds)
    decreases |cmds|
  {
    if cmds != [] {
      StepReachable(s, cmds[0]);
      StepConservesSizes(s, cmds[0]);
      assert CdNamesNonEmpty(cmds[1..]) by {
        forall i | 0 <= i < |cmds| - 1 ensures cmds[1..][i].Cd? ==> |cmds[1..][i].name| > 0 {
          assert cmds[1..][i] == cmds[i + 1];
        }
      }
      RunConservesSizes(Step(s, cmds[0]), cmds[1..]);
    }
  }

  lemma {:induction false} UnwoundConservesSizes(s: Session)
    requires Reachable(s) && CanUnwind(s)
    ensures Reachable(Unwound(s))
    ensures PathSum(Unwound(s).directories, Unwound(s).path, |Unwound(s).path|)
            == PathSum(s.directories, s.path, |s.path|)
    decreases |s.path|
  {
    if |s.path| > 1 {
      StepReachable(s, CdUp);
      StepConservesSizes(s, CdUp);
      UnwoundConservesSizes(Step(s, CdUp));
    }
  }

  /** The lines produced by the classifier enter only directories with
      non-empty names. */
  lemma CommandsNamesNonEmpty(lines: seq<string>)
    ensures CdNamesNonEmpty(Commands(lines))
  {
  }

  /** After the session and the closing of the open directories, the
      outermost directory's entry is the total size of all files listed. */
  lemma OutermostHoldsAllFiles(lines: seq<string>)
    requires Feasible(Start, Commands(lines))
    requires |Run(Start, Commands(lines)).path| >= 1 && CanUnwind(Run(Start, Commands(lines)))
    ensures var u := Unwound(Run(Start, Commands(lines)));
            |u.path| == 1 && Get(u.directories, u.path[0]) == FileTotal(Commands(lines))
  {
    var cmds := Commands(lines);
    CommandsNamesNonEmpty(lines);
    RunConservesSizes(Start, cmds);
    var s := Run(Start, cmds);
    UnwoundConservesSizes(s);
    var u := Unwound(s);
    assert u.path[..1] == u.path;
  }

  // ---------------------------------------------------------------------------
  // The directory to delete.

  /** `sizes.sort()` then `find(|x| x > space_to_free)`: the first size
      above the threshold in ascending order. */
  method SmallestAbove(sizes: seq<int>, threshold: int) returns (r: int)
    requires exists i | 0 <= i < |sizes| :: sizes[i] > threshold
    ensures r in sizes && r > threshold
    ensures forall i | 0 <= i < |sizes| :: sizes[i] > threshold ==> r <= sizes[i]
  {
    var sorted := Sort(sizes, IntLe);
    SortInts(sizes);
    var k :| 0 <= k < |sizes| && sizes[k] > threshold;
    assert sizes[k] in sorted;
    var i := 0;
    while sorted[i] <= threshold
      invariant 0 <= i < |sorted|
      invariant forall j | 0 <= j < i :: sorted[j] <= threshold
      invariant exists j | i <= j < |sorted| :: sorted[j] > threshold
      decreases |sorted| - i
    {
      i := i + 1;
    }
    r := sorted[i];
    forall k | 0 <= k < |sizes| && sizes[k] > threshold ensures r <= sizes[k] {
      assert sizes[k] in sorted;
      var j :| 0 <= j < |sorted| && sorted[j] == sizes[k];
      assert j >= i;
    }
  }

  /** `directories.values().collect()`: the sizes in some order (the
      iteration order of a `HashMap` is not fixed). */
  method Values(directories: map<string, int>) returns (sizes: seq<int>)
    ensures forall k | k in directories :: directories[k] in sizes
    ensures forall i | 0 <= i < |sizes| :: sizes[i] in directories.Values
  {
    sizes := [];
    var keys := directories.Keys;
    while keys != {}
      invariant keys <= directories.Keys
      invariant forall k | k in directories && k !in keys :: directories[k] in sizes
      invariant forall i | 0 <= i < |sizes| :: sizes[i] in directories.Values
      decreases keys
    {
      var k :| k in keys;
      sizes := sizes + [directories[k]];
      keys := keys - {k};
    }
  }

  /** The space to free: the update needs 30000000 of a 70000000 disk. */
  function SpaceToFree(total: int): int
  {
    30000000 - (70000000 - total)
  }

  /** The whole program: read the session, close the open directories, and
      pick the smallest directory whose size exceeds the space to free. */
  method Solve(lines: seq<string>) returns (r: int)
    requires Feasible(Start, Commands(lines))
    requires |Run(Start, Commands(lines)).path| >= 1 && CanUnwind(Run(Start, Commands(lines)))
    requires var u := Unwound(Run(Start, Commands(lines)));
             "/" in u.directories
             && exists k | k in u.directories :: u.directories[k] > SpaceToFree(u.directories["/"])
    ensures var u := Unwound(Run(Start, Commands(lines)));
            && r in u.directories.Values && r > SpaceToFree(u.directories["/"])
            && forall k | k in u.directories :: u.directories[k] > SpaceToFree(u.directories["/"]) ==> r <= u.directories[k]
  {
    var directories, path := ReadSession(lines);
    directories, path := Unwind(directories, path);
    var total := directories["/"];
    var sizes := Values(directories);
    r := SmallestAbove(sizes, SpaceToFree(total));
    var i :| 0 <= i < |sizes| && sizes[i] == r;
  }
}
