/** Day 14, part 1: rock paths are drawn into a grid, then grains of sand
    fall one at a time from (500, 0). A grain moves down, else down-left,
    else down-right, into the first free cell; with none free it comes to
    rest. The answer is the number of grains at rest when a grain first
    leaves the grid. */
module Day14Part1 {
  import opened Common

  /** A position `(x, y)`; `y` grows downwards. */
  type Pos = (int, int)

  /** Where every grain enters. */
  const Spawn: Pos := (500, 0)

  /** Down, down-left, down-right, in the order they are tried. */
  const Directions: seq<Pos> := [(0, 1), (-1, 1), (1, 1)]

  // ---------------------------------------------------------------------------
  // Rock paths.

  /** `p` lies on the line drawn between consecutive points `a` and `b`: a
      vertical line when they share `x`, otherwise a horizontal line on the
      row of `a`; both ends included, in either order. */
  predicate OnSegment(a: Pos, b: Pos, p: Pos)
  {
    if a.0 == b.0 then p.0 == a.0 && Min(a.1, b.1) <= p.1 <= Max(a.1, b.1)
    else p.1 == a.1 && Min(a.0, b.0) <= p.0 <= Max(a.0, b.0)
  }

  /** `p` lies on one of the first `n` segments of `path`. */
  ghost predicate OnPath(path: seq<Pos>, p: Pos, n: nat)
  {
    exists j | 0 <= j < n && j + 1 < |path| :: OnSegment(path[j], path[j + 1], p)
  }

  /** `p` lies on one of the first `n` paths. */
  ghost predicate OnPaths(paths: seq<seq<Pos>>, p: Pos, n: nat)
    requires n <= |paths|
  {
    exists k | 0 <= k < n :: OnPath(paths[k], p, |paths[k]|)
  }

  /** `p` is rock. */
  ghost predicate Rock(paths: seq<seq<Pos>>, p: Pos)
  {
    OnPaths(paths, p, |paths|)
  }

  /** Every point of every path, in order. */
  function Points(paths: seq<seq<Pos>>): (r: seq<Pos>)
    ensures forall k, p | 0 <= k < |paths| && p in paths[k] :: p in r
    ensures forall p | p in r :: exists k | 0 <= k < |paths| :: p in paths[k]
  {
    if |paths| == 0 then []
    else
      var rest := Points(paths[1..]);
      assert forall k | 1 <= k < |paths| :: paths[k] == paths[1..][k - 1];
      paths[0] + rest
  }

  /** The least x of the points. */
  function MinX(points: seq<Pos>): (r: int)
    requires |points| > 0
    ensures (exists p | p in points :: p.0 == r) && forall p | p in points :: r <= p.0
  {
    if |points| == 1 then points[0].0
    else
      var rest := MinX(points[1..]);
      assert forall p | p in points[1..] :: p in points;
      assert forall p | p in points && p != points[0] :: p in points[1..];
      Min(points[0].0, rest)
  }

  /** The greatest x of the points. */
  function MaxX(points: seq<Pos>): (r: int)
    requires |points| > 0
    ensures (exists p | p in points :: p.0 == r) && forall p | p in points :: p.0 <= r
  {
    if |points| == 1 then points[0].0
    else
      var rest := MaxX(points[1..]);
      assert forall p | p in points[1..] :: p in points;
      assert forall p | p in points && p != points[0] :: p in points[1..];
      Max(points[0].0, rest)
  }

  /** The greatest y of the points. */
  function MaxY(points: seq<Pos>): (r: int)
    requires |points| > 0
    ensures (exists p | p in points :: p.1 == r) && forall p | p in points :: p.1 <= r
  {
    if |points| == 1 then points[0].1
    else
      var rest := MaxY(points[1..]);
      assert forall p | p in points[1..] :: p in points;
      assert forall p | p in points && p != points[0] :: p in points[1..];
      Max(points[0].1, rest)
  }

  // ---------------------------------------------------------------------------
  // The grid.

  /** The grid covers x from `minX` to `maxX` and y from 0 to `maxY`. */
  datatype Bounds = Bounds(minX: int, maxX: int, maxY: int)

  /** The bounds of the rock, or `None` when there is no point at all (the
      program panics there). */
  function BoundsOf(paths: seq<seq<Pos>>): (r: Option<Bounds>)
    ensures r.None? <==> forall k | 0 <= k < |paths| :: |paths[k]| == 0
    ensures r.Some? ==> forall k, p | 0 <= k < |paths| && p in paths[k] ::
                          r.value.minX <= p.0 <= r.value.maxX && p.1 <= r.value.maxY
  {
    var points := Points(paths);
    if |points| == 0 then
      assert forall k | 0 <= k < |paths| && |paths[k]| > 0 :: paths[k][0] in points;
      None
    else
      Some(Bounds(MinX(points), MaxX(points), MaxY(points)))
  }

  function Width(b: Bounds): int
  {
    b.maxX - b.minX + 1
  }

  /** `p` is a cell of the grid. */
  predicate InGrid(b: Bounds, p: Pos)
  {
    b.minX <= p.0 <= b.maxX && 0 <= p.1 <= b.maxY
  }

  /** The bound check as the program writes it: the x offset is compared
      with `maxX` itself rather than with the width. */
  predicate InBoundAsWritten(b: Bounds, p: Pos)
  {
    0 <= p.0 - b.minX <= b.maxX && 0 <= p.1 <= b.maxY
  }

  /** The grid as values: `maxY + 1` rows of `Width(b)` cells. */
  type Grid = seq<seq<char>>

  predicate Sized(g: Grid, b: Bounds)
  {
    |g| == b.maxY + 1 && forall y | 0 <= y < |g| :: |g[y]| == Width(b)
  }

  function Cell(g: Grid, b: Bounds, p: Pos): char
    requires Sized(g, b) && InGrid(b, p)
  {
    g[p.1][p.0 - b.minX]
  }

  /** The grid with the cell at `p` set to `c`. */
  function Put(g: Grid, b: Bounds, p: Pos, c: char): (r: Grid)
    requires Sized(g, b) && InGrid(b, p)
    ensures Sized(r, b) && Cell(r, b, p) == c
    ensures forall q | InGrid(b, q) && q != p :: Cell(r, b, q) == Cell(g, b, q)
  {
    g[p.1 := g[p.1][p.0 - b.minX := c]]
  }

  /** The array holds the grid `g`. */
  ghost predicate Shows(cave: array2<char>, b: Bounds, g: Grid)
    reads cave
  {
    Fits(cave, b) && Sized(g, b) &&
    forall y, x | 0 <= y < cave.Length0 && 0 <= x < cave.Length1 :: cave[y, x] == g[y][x]
  }

  /** The array has the grid's shape. */
  predicate Fits(cave: array2<char>, b: Bounds)
  {
    cave.Length0 == b.maxY + 1 && cave.Length1 == Width(b)
  }

  /** The grid of the rock paths: `#` on rock and `.` elsewhere. */
  ghost function RockGrid(paths: seq<seq<Pos>>, b: Bounds): (g: Grid)
    requires b.maxY >= 0 && Width(b) >= 1
    ensures Sized(g, b)
    ensures forall y, x | 0 <= y < |g| && 0 <= x < Width(b) :: g[y][x] == if Rock(paths, (x + b.minX, y)) then '#' else '.'
  {
    seq(b.maxY + 1, y => seq(Width(b), x => if Rock(paths, (x + b.minX, y)) then '#' else '.'))
  }

  /** Writes `c` at `p`. */
  method Write(cave: array2<char>, b: Bounds, p: Pos, c: char, ghost g: Grid)
    requires Shows(cave, b, g) && InGrid(b, p)
    modifies cave
    ensures Shows(cave, b, Put(g, b, p, c))
  {
    cave[p.1, p.0 - b.minX] := c;
  }

  /** A fresh grid with every cell `.`. */
  method NewMap(b: Bounds) returns (cave: array2<char>)
    requires b.maxY >= 0 && Width(b) >= 1
    ensures fresh(cave) && Fits(cave, b)
    ensures forall y, x | 0 <= y < cave.Length0 && 0 <= x < cave.Length1 :: cave[y, x] == '.'
  {
    cave := new char[b.maxY + 1, Width(b)]((_, _) => ' ');
    var y := 0;
    while y < cave.Length0
      invariant 0 <= y <= cave.Length0
      invariant forall r, c | 0 <= r < cave.Length0 && 0 <= c < cave.Length1 :: cave[r, c] == if r < y then '.' else ' '
    {
      var x := 0;
      while x < cave.Length1
        invariant 0 <= x <= cave.Length1
        invariant forall r, c | 0 <= r < cave.Length0 && 0 <= c < cave.Length1 ::
                    cave[r, c] == if r < y || (r == y && c < x) then '.' else ' '
      {
        cave[y, x] := '.';
        x := x + 1;
      }
      y := y + 1;
    }
  }

  /** Draws the segment from `a` to `b` as `#`. */
  method DrawSegment(cave: array2<char>, bounds: Bounds, a: Pos, b: Pos)
    requires Fits(cave, bounds) && InGrid(bounds, a) && InGrid(bounds, b)
    modifies cave
    ensures forall y, x | 0 <= y < cave.Length0 && 0 <= x < cave.Length1 ::
              cave[y, x] == if OnSegment(a, b, (x + bounds.minX, y)) then '#' else old(cave[y, x])
  {
    if a.0 == b.0 {
      var y1, y2 := Min(a.1, b.1), Max(a.1, b.1);
      var y := y1;
      while y <= y2
        invariant y1 <= y <= y2 + 1
        invariant forall r, c | 0 <= r < cave.Length0 && 0 <= c < cave.Length1 ::
                    cave[r, c] == if c + bounds.minX == a.0 && y1 <= r < y then '#' else old(cave[r, c])
      {
        cave[y, a.0 - bounds.minX] := '#';
        y := y + 1;
      }
    } else {
      var x1, x2 := Min(a.0, b.0), Max(a.0, b.0);
      var x := x1;
      while x <= x2
        invariant x1 <= x <= x2 + 1
        invariant forall r, c | 0 <= r < cave.Length0 && 0 <= c < cave.Length1 ::
                    cave[r, c] == if r == a.1 && x1 <= c + bounds.minX < x then '#' else old(cave[r, c])
      {
        cave[a.1, x - bounds.minX] := '#';
        x := x + 1;
      }
    }
  }

  /** Draws every segment between consecutive points of `path`. */
  method DrawPath(cave: array2<char>, b: Bounds, path: seq<Pos>)
    requires Fits(cave, b) && forall p | p in path :: InGrid(b, p)
    modifies cave
    ensures forall y, x | 0 <= y < cave.Length0 && 0 <= x < cave.Length1 ::
              cave[y, x] == if OnPath(path, (x + b.minX, y), |path|) then '#' else old(cave[y, x])
  {
    var i := 0;
    while i + 1 < |path|
      invariant 0 <= i <= |path|
      invariant forall y, x | 0 <= y < cave.Length0 && 0 <= x < cave.Length1 ::
                  cave[y, x] == if OnPath(path, (x + b.minX, y), i) then '#' else old(cave[y, x])
    {
      DrawSegment(cave, b, path[i], path[i + 1]);
      i := i + 1;
    }
    forall y, x | 0 <= y < cave.Length0 && 0 <= x < cave.Length1
      ensures cave[y, x] == if OnPath(path, (x + b.minX, y), |path|) then '#' else old(cave[y, x])
    {
      assert OnPath(path, (x + b.minX, y), i) == OnPath(path, (x + b.minX, y), |path|);
    }
  }

  /** Draws every path. */
  method DrawPaths(cave: array2<char>, b: Bounds, paths: seq<seq<Pos>>)
    requires Fits(cave, b) && forall k, p | 0 <= k < |paths| && p in paths[k] :: InGrid(b, p)
    modifies cave
    ensures forall y, x | 0 <= y < cave.Length0 && 0 <= x < cave.Length1 ::
              cave[y, x] == if Rock(paths, (x + b.minX, y)) then '#' else old(cave[y, x])
  {
    for k := 0 to |paths|
      invariant forall y, x | 0 <= y < cave.Length0 && 0 <= x < cave.Length1 ::
                  cave[y, x] == if OnPaths(paths, (x + b.minX, y), k) then '#' else old(cave[y, x])
    {
      DrawPath(cave, b, paths[k]);
    }
  }

  // ---------------------------------------------------------------------------
  // Falling sand.

  /** The neighbour of `p` in direction `i`. */
  function Next(p: Pos, i: nat): Pos
    requires i < 3
  {
    (p.0 + Directions[i].0, p.1 + Directions[i].1)
  }

  /** `p` is on the grid and not free. */
  predicate Blocked(g: Grid, b: Bounds, p: Pos)
    requires Sized(g, b)
  {
    InGrid(b, p) && Cell(g, b, p) != '.'
  }

  /** Where the grain at `sand` goes, trying directions from `i` on: the
      first neighbour that is off the grid or free, or `None` when every
      one is blocked. */
  function TargetFrom(g: Grid, b: Bounds, sand: Pos, i: nat): (r: Option<Pos>)
    requires Sized(g, b) && i <= 3
    ensures r.None? <==> forall k | i <= k < 3 :: Blocked(g, b, Next(sand, k))
    ensures forall j | i <= j < 3 ::
              r == Some(Next(sand, j)) <==>
                !Blocked(g, b, Next(sand, j)) && forall k | i <= k < j :: Blocked(g, b, Next(sand, k))
    decreases 3 - i
  {
    if i == 3 then None
    else
      var p := Next(sand, i);
      if !InGrid(b, p) || Cell(g, b, p) == '.' then Some(p)
      else TargetFrom(g, b, sand, i + 1)
  }

  function Target(g: Grid, b: Bounds, sand: Pos): Option<Pos>
    requires Sized(g, b)
  {
    TargetFrom(g, b, sand, 0)
  }

  /** The program's state between iterations of its loop. */
  datatype Sim =
    | Running(grid: Grid, falling: Option<Pos>, count: nat)
    | Finished(count: nat)
    | Panicked

  predicate Ok(b: Bounds, s: Sim)
  {
    s.Running? ==> Sized(s.grid, b)
  }

  /** One iteration of the loop. With no grain falling a new one appears at
      the spawn point; otherwise the grain leaves the grid (and the program
      answers), moves, or comes to rest. Writing to a cell off the grid
      panics. */
  function Tick(b: Bounds, s: Sim): (r: Sim)
    requires s.Running? && Ok(b, s)
    ensures Ok(b, r)
  {
    match s.falling
    case None => Running(s.grid, Some(Spawn), s.count)
    case Some(sand) =>
      match Target(s.grid, b, sand)
      case Some(pos) =>
        if !InGrid(b, pos) then Finished(s.count)
        else if !InGrid(b, sand) then Panicked
        else Running(Put(Put(s.grid, b, sand, '.'), b, pos, '+'), Some(pos), s.count)
      case None =>
        if !InGrid(b, sand) then Panicked
        else Running(Put(s.grid, b, sand, 'o'), None, s.count + 1)
  }

  /** At most `fuel` iterations of the loop. */
  function Run(b: Bounds, s: Sim, fuel: nat): (r: Sim)
    requires Ok(b, s)
    ensures Ok(b, r)
    decreases fuel
  {
    if fuel == 0 || !s.Running? then s else Run(b, Tick(b, s), fuel - 1)
  }

  lemma RunStep(b: Bounds, s: Sim, fuel: nat)
    requires s.Running? && Ok(b, s) && fuel > 0
    ensures Run(b, s, fuel) == Run(b, Tick(b, s), fuel - 1)
    ensures !Tick(b, s).Running? ==> Run(b, s, fuel) == Tick(b, s)
  {
  }

  function Answer(s: Sim): Option<nat>
  {
    if s.Finished? then Some(s.count) else None
  }

  /** The answer for the rock paths, when the program gives one within
      `fuel` iterations of its loop. */
  ghost function Part1(paths: seq<seq<Pos>>, fuel: nat): Option<nat>
    requires forall k, p | 0 <= k < |paths| && p in paths[k] :: p.1 >= 0
  {
    match BoundsOf(paths)
    case None => None
    case Some(b) =>
      BoundsHoldPoints(paths);
      Answer(Run(b, Running(RockGrid(paths, b), None, 0), fuel))
  }

  /** The `find_map` over the directions. */
  method FindTarget(cave: array2<char>, b: Bounds, sand: Pos, ghost g: Grid) returns (r: Option<Pos>)
    requires Shows(cave, b, g)
    ensures r == Target(g, b, sand)
  {
    var i := 0;
    while i < 3
      invariant 0 <= i <= 3
      invariant TargetFrom(g, b, sand, i) == Target(g, b, sand)
    {
      var p := Next(sand, i);
      if !InGrid(b, p) {
        return Some(p);
      }
      if cave[p.1, p.0 - b.minX] == '.' {
        return Some(p);
      }
      i := i + 1;
    }
    return None;
  }

  /** One iteration of the loop on the grid `g`: `done` when the program
      stops there, with its answer in `result`; otherwise the next grain
      and count, and the array holds the new grid. */
  method Iterate(cave: array2<char>, b: Bounds, falling: Option<Pos>, count: nat, ghost g: Grid)
    returns (done: bool, result: Option<nat>, next: Option<Pos>, count': nat, ghost g': Grid)
    requires Shows(cave, b, g)
    modifies cave
    ensures var t := Tick(b, Running(g, falling, count));
            if done then !t.Running? && result == Answer(t)
            else t == Running(g', next, count') && Shows(cave, b, g')
  {
    if falling.None? {
      return false, None, Some(Spawn), count, g;
    }
    var sand := falling.value;
    var target := FindTarget(cave, b, sand, g);
    if target.Some? {
      var pos := target.value;
      if !InGrid(b, pos) {
        return true, Some(count), None, count, g;
      }
      if !InGrid(b, sand) {
        return true, None, None, count, g;
      }
      Write(cave, b, sand, '.', g);
      Write(cave, b, pos, '+', Put(g, b, sand, '.'));
      return false, None, Some(pos), count, Put(Put(g, b, sand, '.'), b, pos, '+');
    } else {
      if !InGrid(b, sand) {
        return true, None, None, count, g;
      }
      Write(cave, b, sand, 'o', g);
      return false, None, None, count + 1, Put(g, b, sand, 'o');
    }
  }

  /** The loop of `main`, run for at most `fuel` iterations on the grid `g`
      held in `cave`. */
  method Simulate(cave: array2<char>, b: Bounds, fuel: nat, ghost g: Grid) returns (result: Option<nat>)
    requires Shows(cave, b, g)
    modifies cave
    ensures result == Answer(Run(b, Running(g, None, 0), fuel))
  {
    ghost var cur := Running(g, None, 0);
    var falling: Option<Pos> := None;
    var count: nat := 0;
    var steps: nat := 0;
    while steps < fuel
      invariant steps <= fuel && cur.Running? && Shows(cave, b, cur.grid)
      invariant cur.falling == falling && cur.count == count
      invariant Run(b, Running(g, None, 0), fuel) == Run(b, cur, fuel - steps)
    {
      RunStep(b, cur, fuel - steps);
      var done, answer;
      ghost var grid;
      done, answer, falling, count, grid := Iterate(cave, b, falling, count, cur.grid);
      if done {
        return answer;
      }
      cur := Running(grid, falling, count);
      steps := steps + 1;
    }
    return None;
  }

  /** With no negative y, the bounds make a grid of at least one cell that
      holds every point. */
  lemma BoundsHoldPoints(paths: seq<seq<Pos>>)
    requires forall k, p | 0 <= k < |paths| && p in paths[k] :: p.1 >= 0
    requires BoundsOf(paths).Some?
    ensures var b := BoundsOf(paths).value;
            b.maxY >= 0 && Width(b) >= 1 && forall k, p | 0 <= k < |paths| && p in paths[k] :: InGrid(b, p)
  {
    assert exists k, p | 0 <= k < |paths| && p in paths[k] :: true;
  }

  /** The grid with the rock drawn in. */
  method RockMap(paths: seq<seq<Pos>>, b: Bounds) returns (cave: array2<char>)
    requires b.maxY >= 0 && Width(b) >= 1
    requires forall k, p | 0 <= k < |paths| && p in paths[k] :: InGrid(b, p)
    ensures fresh(cave) && Shows(cave, b, RockGrid(paths, b))
  {
    cave := NewMap(b);
    DrawPaths(cave, b, paths);
  }

  /** `main`: bounds, grid, rock, then the sand, for at most `fuel`
      iterations of the loop. */
  method Solve(paths: seq<seq<Pos>>, fuel: nat) returns (result: Option<nat>)
    requires forall k, p | 0 <= k < |paths| && p in paths[k] :: p.1 >= 0
    ensures result == Part1(paths, fuel)
  {
    var bounds := BoundsOf(paths);
    if bounds.None? {
      return None;
    }
    BoundsHoldPoints(paths);
    var cave := RockMap(paths, bounds.value);
    result := Simulate(cave, bounds.value, fuel, RockGrid(paths, bounds.value));
  }

  // ---------------------------------------------------------------------------
  // Properties of the simulation.

  /** Once the loop has stopped, more fuel changes nothing. */
  lemma {:induction false} RunSettled(b: Bounds, s: Sim, fuel: nat, more: nat)
    requires Ok(b, s) && !Run(b, s, fuel).Running?
    ensures Run(b, s, fuel + more) == Run(b, s, fuel)
    decreases fuel
  {
    if fuel > 0 && s.Running? {
      RunSettled(b, Tick(b, s), fuel - 1, more);
    }
  }

  /** The falling grain sits on a `+` cell, except at the spawn point where
      it starts on whatever is there. */
  predicate Marked(b: Bounds, s: Sim)
  {
    s.Running? && Sized(s.grid, b) &&
    (s.falling.Some? && s.falling.value != Spawn ==>
       InGrid(b, s.falling.value) && Cell(s.grid, b, s.falling.value) == '+')
  }

  /** A tick keeps the grain marked, and leaves every rock cell other than
      the spawn point rock. */
  lemma TickKeepsRock(b: Bounds, s: Sim)
    requires Marked(b, s)
    ensures Tick(b, s).Running? ==> Marked(b, Tick(b, s))
    ensures Tick(b, s).Running? ==>
              forall p | InGrid(b, p) && p != Spawn && Cell(s.grid, b, p) == '#' :: Cell(Tick(b, s).grid, b, p) == '#'
  {
    if s.falling.Some? {
      var sand := s.falling.value;
      var t := Target(s.grid, b, sand);
      if t.Some? && InGrid(b, t.value) && InGrid(b, sand) {
        assert t.value == Next(sand, 0) || t.value == Next(sand, 1) || t.value == Next(sand, 2);
        assert t.value.1 == sand.1 + 1;
      }
    }
  }

  /** However long the sand falls, rock other than at the spawn point stays
      rock. */
  lemma {:induction false} RunKeepsRock(b: Bounds, s: Sim, fuel: nat, p: Pos)
    requires Marked(b, s) && InGrid(b, p) && p != Spawn && Cell(s.grid, b, p) == '#'
    ensures Run(b, s, fuel).Running? ==> Marked(b, Run(b, s, fuel)) && Cell(Run(b, s, fuel).grid, b, p) == '#'
    decreases fuel
  {
    if fuel > 0 {
      TickKeepsRock(b, s);
      if Tick(b, s).Running? {
        RunKeepsRock(b, Tick(b, s), fuel - 1, p);
      }
    }
  }

  /** A grain that moves clears its old cell, marks the cell it moves to,
      and leaves every other cell alone; a grain that comes to rest becomes
      `o` and adds one to the count. */
  lemma TickCells(b: Bounds, s: Sim)
    requires Marked(b, s) && s.falling.Some? && Tick(b, s).Running?
    ensures var sand, r := s.falling.value, Tick(b, s);
            InGrid(b, sand) &&
            match r.falling
            case Some(pos) =>
              pos == Target(s.grid, b, sand).value && pos.1 == sand.1 + 1 &&
              Cell(r.grid, b, sand) == '.' && Cell(r.grid, b, pos) == '+' && r.count == s.count &&
              forall q | InGrid(b, q) && q != sand && q != pos :: Cell(r.grid, b, q) == Cell(s.grid, b, q)
            case None =>
              (forall k | 0 <= k < 3 :: Blocked(s.grid, b, Next(sand, k))) &&
              Cell(r.grid, b, sand) == 'o' && r.count == s.count + 1 &&
              forall q | InGrid(b, q) && q != sand :: Cell(r.grid, b, q) == Cell(s.grid, b, q)
  {
    var sand := s.falling.value;
    var t := Target(s.grid, b, sand);
    if t.Some? {
      assert t.value == Next(sand, 0) || t.value == Next(sand, 1) || t.value == Next(sand, 2);
    }
  }

  // ---------------------------------------------------------------------------
  // The bound check as written.

  /** One rock path: a wall at x = 499 from y = 0 to 2, then a step to
      (500, 2). */
  const WallPaths: seq<seq<Pos>> := [[(499, 0), (499, 2), (500, 2)]]

  const WallBounds := Bounds(499, 500, 2)

  /** The rock cells near the first grain's path. */
  lemma WallRock()
    ensures Rock(WallPaths, (500, 2)) && Rock(WallPaths, (499, 2)) && !Rock(WallPaths, (500, 1))
  {
    var path := WallPaths[0];
    assert path[1] == (499, 2) && path[2] == (500, 2);
    assert OnSegment(path[1], path[2], (500, 2)) && OnSegment(path[1], path[2], (499, 2));
    assert OnPath(path, (500, 2), 3) && OnPath(path, (499, 2), 3);
  }

  lemma WallBoundsOf()
    ensures BoundsOf(WallPaths) == Some(WallBounds)
  {
    assert Points(WallPaths) == WallPaths[0] by {
      assert WallPaths[1..] == [];
    }
  }

  /** The wall's grid near the first grain's path. */
  lemma WallCells()
    ensures var g := RockGrid(WallPaths, WallBounds);
            Cell(g, WallBounds, (500, 1)) == '.' && Cell(g, WallBounds, (500, 2)) == '#' && Cell(g, WallBounds, (499, 2)) == '#'
  {
    var g := RockGrid(WallPaths, WallBounds);
    WallRock();
    assert g[2][1] == if Rock(WallPaths, (1 + 499, 2)) then '#' else '.';
    assert g[2][0] == if Rock(WallPaths, (0 + 499, 2)) then '#' else '.';
    assert g[1][1] == if Rock(WallPaths, (1 + 499, 1)) then '#' else '.';
  }

  /** From the spawn point the grain falls straight down onto free air. */
  lemma WallFirstMove(g: Grid)
    requires Sized(g, WallBounds) && Cell(g, WallBounds, (500, 1)) == '.'
    ensures Target(g, WallBounds, Spawn) == Some((500, 1))
  {
  }

  /** From (500, 1), down and down-left are rock, and down-right is off the
      grid. */
  lemma WallSecondMove(g: Grid)
    requires Sized(g, WallBounds) && Cell(g, WallBounds, (500, 2)) == '#' && Cell(g, WallBounds, (499, 2)) == '#'
    ensures Target(g, WallBounds, (500, 1)) == Some((501, 2))
  {
  }

  /** The loop on the wall's grid: spawn, fall one cell, leave the grid. */
  lemma WallRun(g: Grid)
    requires Sized(g, WallBounds)
    requires Cell(g, WallBounds, (500, 1)) == '.' && Cell(g, WallBounds, (500, 2)) == '#' && Cell(g, WallBounds, (499, 2)) == '#'
    ensures Run(WallBounds, Running(g, None, 0), 3) == Finished(0)
  {
    var b := WallBounds;
    var s1 := Running(g, Some(Spawn), 0);
    RunStep(b, Running(g, None, 0), 3);
    WallFirstMove(g);
    var g2 := Put(Put(g, b, Spawn, '.'), b, (500, 1), '+');
    RunStep(b, s1, 2);
    WallSecondMove(g2);
    RunStep(b, Running(g2, Some((500, 1)), 0), 1);
  }

  /** With the wall, the first grain falls to (500, 1); down and down-left
      are rock, and down-right is (501, 2), off the grid, so the answer is
      0. */
  lemma WallAnswer()
    ensures Part1(WallPaths, 3) == Some(0)
  {
    WallBoundsOf();
    WallCells();
    WallRun(RockGrid(WallPaths, WallBounds));
  }

  /** With the bound check as written, the program reaches the grain at
      (500, 1) whose down-right neighbour (501, 2) passes the check,
      although its column, 2, is past the end of a row only two cells
      wide: the program indexes past the row and panics where the
      corrected check answers 0 (`WallAnswer`). */
  lemma AsWrittenOverrunsRow()
    ensures var g := RockGrid(WallPaths, WallBounds);
            var s := Run(WallBounds, Running(g, None, 0), 2);
            s.Running? && s.falling == Some((500, 1)) &&
            Target(s.grid, WallBounds, (500, 1)) == Some((501, 2)) &&
            InBoundAsWritten(WallBounds, (501, 2)) && 501 - WallBounds.minX >= Width(WallBounds)
  {
    var b := WallBounds;
    var g := RockGrid(WallPaths, b);
    WallCells();
    RunStep(b, Running(g, None, 0), 2);
    WallFirstMove(g);
    var g2 := Put(Put(g, b, Spawn, '.'), b, (500, 1), '+');
    RunStep(b, Running(g, Some(Spawn), 0), 1);
    WallSecondMove(g2);
  }
}
