/** Day 14, part 2: the same rock and the same falling sand, but the cave
    has an endless floor two rows below the lowest rock, and the grid is a
    map from positions to cells in which a missing position is air. The
    answer is the number of grains at rest once a grain comes to rest at
    the spawn point, that grain included. */
module Day14Part2 {
  import opened Common
  import P1 = Day14Part1

  type Pos = P1.Pos

  // ---------------------------------------------------------------------------
  // Rock.

  /** The cells of the segment from `a` to `b`. */
  function SegmentCells(a: Pos, b: Pos): (r: set<Pos>)
    ensures forall p :: p in r <==> P1.OnSegment(a, b, p)
  {
    if a.0 == b.0 then set y | Min(a.1, b.1) <= y <= Max(a.1, b.1) :: (a.0, y)
    else set x | Min(a.0, b.0) <= x <= Max(a.0, b.0) :: (x, a.1)
  }

  /** The cells of the first `n` segments of `path`. */
  function PathCells(path: seq<Pos>, n: nat): (r: set<Pos>)
    ensures forall p :: p in r <==> P1.OnPath(path, p, n)
  {
    if n == 0 || n >= |path| then
      if |path| >= 2 && n >= |path| then PathCells(path, |path| - 1) else {}
    else PathCells(path, n - 1) + SegmentCells(path[n - 1], path[n])
  }

  /** The cells of the first `n` paths. */
  function RockCells(paths: seq<seq<Pos>>, n: nat): (r: set<Pos>)
    requires n <= |paths|
    ensures forall p :: p in r <==> P1.OnPaths(paths, p, n)
  {
    if n == 0 then {} else RockCells(paths, n - 1) + PathCells(paths[n - 1], |paths[n - 1]|)
  }

  /** The map after the rock is drawn: `#` on rock and nothing else. */
  function RockMap(paths: seq<seq<Pos>>): (m: map<Pos, char>)
    ensures forall p :: (p in m <==> P1.Rock(paths, p)) && (p in m ==> m[p] == '#')
  {
    map p | p in RockCells(paths, |paths|) :: '#'
  }

  /** Inserts `#` on every cell of the segment from `a` to `b`. */
  method DrawSegment(m: map<Pos, char>, a: Pos, b: Pos) returns (m': map<Pos, char>)
    ensures forall p :: (p in m' <==> p in m || P1.OnSegment(a, b, p)) &&
                        (p in m' ==> m'[p] == if P1.OnSegment(a, b, p) then '#' else m[p])
  {
    m' := m;
    if a.0 == b.0 {
      var y1, y2 := Min(a.1, b.1), Max(a.1, b.1);
      var y := y1;
      while y <= y2
        invariant y1 <= y <= y2 + 1
        invariant forall p :: (p in m' <==> p in m || (p.0 == a.0 && y1 <= p.1 < y)) &&
                              (p in m' ==> m'[p] == if p.0 == a.0 && y1 <= p.1 < y then '#' else m[p])
      {
        m' := m'[(a.0, y) := '#'];
        y := y + 1;
      }
    } else {
      var x1, x2 := Min(a.0, b.0), Max(a.0, b.0);
      var x := x1;
      while x <= x2
        invariant x1 <= x <= x2 + 1
        invariant forall p :: (p in m' <==> p in m || (p.1 == a.1 && x1 <= p.0 < x)) &&
                              (p in m' ==> m'[p] == if p.1 == a.1 && x1 <= p.0 < x then '#' else m[p])
      {
        m' := m'[(x, a.1) := '#'];
        x := x + 1;
      }
    }
  }

  /** Draws every path into an empty map. */
  method DrawPaths(paths: seq<seq<Pos>>) returns (m: map<Pos, char>)
    ensures m == RockMap(paths)
  {
    m := map[];
    for k := 0 to |paths|
      invariant forall p :: (p in m <==> P1.OnPaths(paths, p, k)) && (p in m ==> m[p] == '#')
    {
      var path := paths[k];
      var i := 0;
      while i + 1 < |path|
        invariant 0 <= i <= |path|
        invariant forall p :: (p in m <==> P1.OnPaths(paths, p, k) || P1.OnPath(path, p, i)) && (p in m ==> m[p] == '#')
      {
        m := DrawSegment(m, path[i], path[i + 1]);
        i := i + 1;
      }
      assert forall p :: P1.OnPath(path, p, i) == P1.OnPath(path, p, |path|);
    }
    assert m.Keys == RockMap(paths).Keys;
  }

  /** The floor: two rows below the lowest rock; `None` when there is no
      point (the program panics there). */
  function Floor(paths: seq<seq<Pos>>): (r: Option<int>)
    ensures r.None? <==> P1.BoundsOf(paths).None?
    ensures r.Some? ==> r.value == P1.BoundsOf(paths).value.maxY + 2
  {
    match P1.BoundsOf(paths)
    case None => None
    case Some(b) => Some(b.maxY + 2)
  }

  // ---------------------------------------------------------------------------
  // Falling sand.

  /** The cell at `p`; a position missing from the map is air. */
  function Get(m: map<Pos, char>, p: Pos): char
  {
    if p in m then m[p] else '.'
  }

  /** `p` is on or below the floor, or not free. */
  predicate Blocked(m: map<Pos, char>, floor: int, p: Pos)
  {
    p.1 >= floor || Get(m, p) != '.'
  }

  /** Where the grain at `sand` goes, trying directions from `i` on: the
      first free neighbour above the floor, or `None` when every one is
      blocked. */
  function TargetFrom(m: map<Pos, char>, floor: int, sand: Pos, i: nat): (r: Option<Pos>)
    requires i <= 3
    ensures r.None? <==> forall k | i <= k < 3 :: Blocked(m, floor, P1.Next(sand, k))
    ensures forall j | i <= j < 3 ::
              r == Some(P1.Next(sand, j)) <==>
                !Blocked(m, floor, P1.Next(sand, j)) && forall k | i <= k < j :: Blocked(m, floor, P1.Next(sand, k))
    decreases 3 - i
  {
    if i == 3 then None
    else
      var p := P1.Next(sand, i);
      if p.1 >= floor then TargetFrom(m, floor, sand, i + 1)
      else if Get(m, p) == '.' then Some(p)
      else TargetFrom(m, floor, sand, i + 1)
  }

  function Target(m: map<Pos, char>, floor: int, sand: Pos): Option<Pos>
  {
    TargetFrom(m, floor, sand, 0)
  }

  /** The program's state between iterations of its loop. */
  datatype Sim =
    | Running(grid: map<Pos, char>, falling: Option<Pos>, count: nat)
    | Finished(grid: map<Pos, char>, count: nat)

  /** One iteration of the loop: a new grain appears, or the grain moves,
      or it comes to rest; the program stops when it rests at the spawn
      point. */
  function Tick(floor: int, s: Sim): Sim
    requires s.Running?
  {
    match s.falling
    case None => Running(s.grid, Some(P1.Spawn), s.count)
    case Some(sand) =>
      match Target(s.grid, floor, sand)
      case Some(pos) => Running(s.grid[sand := '.'][pos := '+'], Some(pos), s.count)
      case None =>
        if sand == P1.Spawn then Finished(s.grid[sand := 'o'], s.count + 1)
        else Running(s.grid[sand := 'o'], None, s.count + 1)
  }

  /** At most `fuel` iterations of the loop. */
  function Run(floor: int, s: Sim, fuel: nat): Sim
    decreases fuel
  {
    if fuel == 0 || !s.Running? then s else Run(floor, Tick(floor, s), fuel - 1)
  }

  lemma RunStep(floor: int, s: Sim, fuel: nat)
    requires s.Running? && fuel > 0
    ensures Run(floor, s, fuel) == Run(floor, Tick(floor, s), fuel - 1)
    ensures !Tick(floor, s).Running? ==> Run(floor, s, fuel) == Tick(floor, s)
  {
  }

  function Answer(s: Sim): Option<nat>
  {
    if s.Finished? then Some(s.count) else None
  }

  /** The answer for the rock paths, when the program gives one within
      `fuel` iterations of its loop. */
  function Part2(paths: seq<seq<Pos>>, fuel: nat): Option<nat>
  {
    match Floor(paths)
    case None => None
    case Some(floor) => Answer(Run(floor, Running(RockMap(paths), None, 0), fuel))
  }

  /** The `find_map` over the directions. */
  method FindTarget(m: map<Pos, char>, floor: int, sand: Pos) returns (r: Option<Pos>)
    ensures r == Target(m, floor, sand)
  {
    var i := 0;
    while i < 3
      invariant 0 <= i <= 3
      invariant TargetFrom(m, floor, sand, i) == Target(m, floor, sand)
    {
      var p := P1.Next(sand, i);
      if p.1 < floor && Get(m, p) == '.' {
        return Some(p);
      }
      i := i + 1;
    }
    return None;
  }

  /** The loop of `main`, run for at most `fuel` iterations from the map
      `rock`. */
  method Simulate(rock: map<Pos, char>, floor: int, fuel: nat) returns (result: Option<nat>)
    ensures result == Answer(Run(floor, Running(rock, None, 0), fuel))
  {
    var grid := rock;
    var falling: Option<Pos> := None;
    var count: nat := 0;
    var steps: nat := 0;
    while steps < fuel
      invariant steps <= fuel
      invariant Run(floor, Running(rock, None, 0), fuel) == Run(floor, Running(grid, falling, count), fuel - steps)
    {
      RunStep(floor, Running(grid, falling, count), fuel - steps);
      if falling.None? {
        falling := Some(P1.Spawn);
      } else {
        var sand := falling.value;
        var target := FindTarget(grid, floor, sand);
        if target.Some? {
          var pos := target.value;
          grid := grid[sand := '.'];
          grid := grid[pos := '+'];
          falling := Some(pos);
        } else {
          grid := grid[sand := 'o'];
          count := count + 1;
          falling := None;
          if sand == P1.Spawn {
            return Some(count);
          }
        }
      }
      steps := steps + 1;
    }
    return None;
  }

  /** `main`: the floor, the rock, then the sand, for at most `fuel`
      iterations of the loop. */
  method Solve(paths: seq<seq<Pos>>, fuel: nat) returns (result: Option<nat>)
    ensures result == Part2(paths, fuel)
  {
    var floor := Floor(paths);
    if floor.None? {
      return None;
    }
    var rock := DrawPaths(paths);
    result := Simulate(rock, floor.value, fuel);
  }

  // ---------------------------------------------------------------------------
  // Properties of the simulation.

  /** The grains at rest on the map. */
  function Resting(m: map<Pos, char>): (r: set<Pos>)
    ensures forall p :: p in r <==> Get(m, p) == 'o'
  {
    set p | p in m && m[p] == 'o'
  }

  /** What holds between iterations: the count is the number of `o` cells,
      the spawn point is not `o` yet, the falling grain sits on a `+` cell
      (or at the spawn point), and no sand is on or below the floor. */
  ghost predicate Inv(floor: int, s: Sim)
  {
    s.Running? && floor > 0 &&
    s.count == |Resting(s.grid)| &&
    Get(s.grid, P1.Spawn) != 'o' &&
    (s.falling.Some? ==> s.falling.value.1 < floor &&
                         (s.falling.value != P1.Spawn ==> Get(s.grid, s.falling.value) == '+')) &&
    forall p | p in s.grid && s.grid[p] in "+o" :: p.1 < floor
  }

  /** What holds once the program stops: the answer is the number of `o`
      cells, the last grain rests at the spawn point, and no sand is on or
      below the floor. */
  ghost predicate Done(floor: int, s: Sim)
  {
    s.Finished? && s.count == |Resting(s.grid)| && Get(s.grid, P1.Spawn) == 'o' &&
    forall p | p in s.grid && s.grid[p] in "+o" :: p.1 < floor
  }

  /** A grain that moves keeps the set of `o` cells. */
  lemma MoveKeepsResting(m: map<Pos, char>, sand: Pos, pos: Pos)
    requires Get(m, sand) != 'o' && Get(m, pos) != 'o'
    ensures Resting(m[sand := '.'][pos := '+']) == Resting(m)
  {
  }

  /** A grain that comes to rest adds its cell to the set of `o` cells. */
  lemma RestAddsOne(m: map<Pos, char>, sand: Pos)
    requires Get(m, sand) != 'o'
    ensures |Resting(m[sand := 'o'])| == |Resting(m)| + 1
  {
    assert Resting(m[sand := 'o']) == Resting(m) + {sand};
  }

  /** A tick keeps the invariant, or stops in the final state. */
  lemma TickKeepsInv(floor: int, s: Sim)
    requires Inv(floor, s)
    ensures Inv(floor, Tick(floor, s)) || Done(floor, Tick(floor, s))
  {
    if s.falling.Some? {
      var sand := s.falling.value;
      var t := Target(s.grid, floor, sand);
      if t.Some? {
        var pos := t.value;
        assert pos == P1.Next(sand, 0) || pos == P1.Next(sand, 1) || pos == P1.Next(sand, 2);
        assert !Blocked(s.grid, floor, pos);
        MoveKeepsResting(s.grid, sand, pos);
      } else {
        RestAddsOne(s.grid, sand);
      }
    }
  }

  /** However long the loop runs, the invariant holds, or the program has
      stopped with the answer counting exactly the `o` cells. */
  lemma {:induction false} RunKeepsInv(floor: int, s: Sim, fuel: nat)
    requires Inv(floor, s)
    ensures Inv(floor, Run(floor, s, fuel)) || Done(floor, Run(floor, s, fuel))
    decreases fuel
  {
    if fuel > 0 {
      TickKeepsInv(floor, s);
      if Tick(floor, s).Running? {
        RunKeepsInv(floor, Tick(floor, s), fuel - 1);
      }
    }
  }

  /** A map of rock alone satisfies the invariant. */
  lemma StartInv(floor: int, m: map<Pos, char>)
    requires floor > 0 && forall p | p in m :: m[p] == '#'
    ensures Inv(floor, Running(m, None, 0))
  {
    assert Resting(m) == {};
  }

  /** An answer is the number of grains on the map, the last of them at the
      spawn point. */
  lemma AnswerCountsResting(paths: seq<seq<Pos>>, fuel: nat)
    requires Floor(paths).Some? && Floor(paths).value > 0 && Part2(paths, fuel).Some?
    ensures var s := Run(Floor(paths).value, Running(RockMap(paths), None, 0), fuel);
            Done(Floor(paths).value, s) && Part2(paths, fuel) == Some(|Resting(s.grid)|)
  {
    StartInv(Floor(paths).value, RockMap(paths));
    RunKeepsInv(Floor(paths).value, Running(RockMap(paths), None, 0), fuel);
  }

  /** A grain that moves clears its old cell and marks the new one, one
      row down and above the floor; a grain that comes to rest becomes `o`
      and adds one to the count, and the program stops exactly when that
      happens at the spawn point. No other cell changes. */
  lemma TickCells(floor: int, s: Sim)
    requires s.Running? && s.falling.Some?
    ensures var sand, r := s.falling.value, Tick(floor, s);
            match Target(s.grid, floor, sand)
            case Some(pos) =>
              r == Running(r.grid, Some(pos), s.count) && pos.1 == sand.1 + 1 && pos.1 < floor &&
              Get(r.grid, sand) == '.' && Get(r.grid, pos) == '+' &&
              forall q | q != sand && q != pos :: Get(r.grid, q) == Get(s.grid, q)
            case None =>
              (forall k | 0 <= k < 3 :: Blocked(s.grid, floor, P1.Next(sand, k))) &&
              (r.Finished? <==> sand == P1.Spawn) && r.count == s.count + 1 &&
              Get(r.grid, sand) == 'o' && forall q | q != sand :: Get(r.grid, q) == Get(s.grid, q)
  {
    var sand := s.falling.value;
    var t := Target(s.grid, floor, sand);
    if t.Some? {
      assert t.value == P1.Next(sand, 0) || t.value == P1.Next(sand, 1) || t.value == P1.Next(sand, 2);
    }
  }

  /** Once the loop has stopped, more fuel changes nothing. */
  lemma {:induction false} RunSettled(floor: int, s: Sim, fuel: nat, more: nat)
    requires !Run(floor, s, fuel).Running?
    ensures Run(floor, s, fuel + more) == Run(floor, s, fuel)
    decreases fuel
  {
    if fuel > 0 && s.Running? {
      RunSettled(floor, Tick(floor, s), fuel - 1, more);
    }
  }
}
