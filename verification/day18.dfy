/** Day 18: a droplet of lava made of unit cubes. Part 1 counts the cube
    faces that touch no other cube; part 2 fills the air around the droplet
    from a corner of its bounding box and counts the cube faces that touch
    that outside air. */
module Day18 {
  import opened Common

  /** A cube `(x, y, z)`. */
  type Pos = (int, int, int)

  /** What the map holds at a position. */
  datatype Block = Lava | OutsideAir

  /** The six unit steps, in the program's order. */
  const Directions: seq<Pos> := [(0, 1, 0), (0, -1, 0), (1, 0, 0), (-1, 0, 0), (0, 0, 1), (0, 0, -1)]

  function Neighbour(p: Pos, d: int): Pos
    requires 0 <= d < 6
  {
    (p.0 + Directions[d].0, p.1 + Directions[d].1, p.2 + Directions[d].2)
  }

  /** `a` and `b` share a face. */
  predicate Adjacent(a: Pos, b: Pos)
  {
    Abs(a.0 - b.0) + Abs(a.1 - b.1) + Abs(a.2 - b.2) == 1
  }

  /** The neighbours are exactly the positions sharing a face. */
  lemma NeighbourIsAdjacent(p: Pos, d: int)
    requires 0 <= d < 6
    ensures Adjacent(p, Neighbour(p, d))
  {
  }

  /** The direction that leads from `a` to an adjacent `b`. */
  function DirectionOf(a: Pos, b: Pos): (d: int)
    requires Adjacent(a, b)
    ensures 0 <= d < 6 && Neighbour(a, d) == b
  {
    if b.1 == a.1 + 1 then 0
    else if b.1 == a.1 - 1 then 1
    else if b.0 == a.0 + 1 then 2
    else if b.0 == a.0 - 1 then 3
    else if b.2 == a.2 + 1 then 4
    else 5
  }

  // ---------------------------------------------------------------------------
  // Loading the cubes.

  /** Every cube of the input, as lava. */
  function LavaMap(cubes: seq<Pos>): (m: map<Pos, Block>)
    ensures forall p :: p in m <==> p in cubes
    ensures forall p | p in m :: m[p] == Lava
  {
    map p | p in cubes :: Lava
  }

  /** The input loop. */
  method Load(cubes: seq<Pos>) returns (blocks: map<Pos, Block>)
    ensures blocks == LavaMap(cubes)
  {
    blocks := map[];
    for i := 0 to |cubes|
      invariant blocks == LavaMap(cubes[..i])
    {
      assert cubes[..i + 1] == cubes[..i] + [cubes[i]];
      blocks := blocks[cubes[i] := Lava];
    }
    assert cubes[..|cubes|] == cubes;
  }

  // ---------------------------------------------------------------------------
  // Counting faces.

  /** Which faces a count takes: part 1 takes the faces of every key whose
      neighbour is no key; part 2 the faces of lava whose neighbour is
      outside air. */
  datatype Rule = Open | Outside

  predicate Counts(rule: Rule, blocks: map<Pos, Block>, p: Pos, d: int)
    requires 0 <= d < 6
  {
    if rule == Open then Neighbour(p, d) !in blocks
    else p in blocks && blocks[p] == Lava && Neighbour(p, d) in blocks && blocks[Neighbour(p, d)] == OutsideAir
  }

  /** The counted faces of `p` among its first `n` directions. */
  function FaceCount(rule: Rule, blocks: map<Pos, Block>, p: Pos, n: int): (c: nat)
    requires 0 <= n <= 6
    ensures c <= n
  {
    if n == 0 then 0
    else FaceCount(rule, blocks, p, n - 1) + if Counts(rule, blocks, p, n - 1) then 1 else 0
  }

  /** A cube with no counted direction has no counted face. */
  lemma {:induction false} FaceCountNone(rule: Rule, blocks: map<Pos, Block>, p: Pos, n: int)
    requires 0 <= n <= 6
    requires forall d | 0 <= d < n :: !Counts(rule, blocks, p, d)
    ensures FaceCount(rule, blocks, p, n) == 0
  {
    if n > 0 {
      FaceCountNone(rule, blocks, p, n - 1);
    }
  }

  /** Counting under a rule that takes fewer directions gives no more. */
  lemma {:induction false} FaceCountLe(rule: Rule, blocks: map<Pos, Block>, rule': Rule, blocks': map<Pos, Block>, p: Pos, n: int)
    requires 0 <= n <= 6
    requires forall d | 0 <= d < n :: Counts(rule, blocks, p, d) ==> Counts(rule', blocks', p, d)
    ensures FaceCount(rule, blocks, p, n) <= FaceCount(rule', blocks', p, n)
  {
    if n > 0 {
      FaceCountLe(rule, blocks, rule', blocks', p, n - 1);
    }
  }

  /** Some element of a non-empty set. */
  ghost function Pick(cells: set<Pos>): Pos
    requires cells != {}
  {
    var p :| p in cells; p
  }

  /** The counted faces of every cube of `cells`. */
  ghost function Total(rule: Rule, blocks: map<Pos, Block>, cells: set<Pos>): nat
    decreases cells
  {
    if cells == {} then 0
    else
      var p := Pick(cells);
      FaceCount(rule, blocks, p, 6) + Total(rule, blocks, cells - {p})
  }

  /** The total does not depend on the order the cubes are taken in: any
      cube can be taken first. */
  lemma {:induction false} TotalRemove(rule: Rule, blocks: map<Pos, Block>, cells: set<Pos>, x: Pos)
    requires x in cells
    ensures Total(rule, blocks, cells) == FaceCount(rule, blocks, x, 6) + Total(rule, blocks, cells - {x})
    decreases cells
  {
    var p := Pick(cells);
    if p != x {
      TotalRemove(rule, blocks, cells - {p}, x);
      TotalRemove(rule, blocks, cells - {x}, p);
      assert cells - {p} - {x} == cells - {x} - {p};
    }
  }

  /** At most six counted faces per cube. */
  lemma {:induction false} TotalBound(rule: Rule, blocks: map<Pos, Block>, cells: set<Pos>)
    ensures Total(rule, blocks, cells) <= 6 * |cells|
    decreases cells
  {
    if cells != {} {
      TotalBound(rule, blocks, cells - {Pick(cells)});
    }
  }

  /** A cube-by-cube comparison carries over to the totals. */
  lemma {:induction false} TotalLe(rule: Rule, blocks: map<Pos, Block>, rule': Rule, blocks': map<Pos, Block>, cells: set<Pos>)
    requires forall p | p in cells :: FaceCount(rule, blocks, p, 6) <= FaceCount(rule', blocks', p, 6)
    ensures Total(rule, blocks, cells) <= Total(rule', blocks', cells)
    decreases cells
  {
    if cells != {} {
      TotalLe(rule, blocks, rule', blocks', cells - {Pick(cells)});
    }
  }

  /** Cubes without counted faces add nothing. */
  lemma {:induction false} TotalIgnoresZero(rule: Rule, blocks: map<Pos, Block>, cells: set<Pos>, zero: set<Pos>)
    requires cells !! zero
    requires forall z | z in zero :: FaceCount(rule, blocks, z, 6) == 0
    ensures Total(rule, blocks, cells + zero) == Total(rule, blocks, cells)
    decreases zero
  {
    if zero == {} {
      assert cells + zero == cells;
    } else {
      var z := Pick(zero);
      TotalRemove(rule, blocks, cells + zero, z);
      assert (cells + zero) - {z} == cells + (zero - {z});
      TotalIgnoresZero(rule, blocks, cells, zero - {z});
    }
  }

  /** The faces of one cube, counted direction by direction (the inner
      `for dir in directions` loop). */
  method CountAt(rule: Rule, blocks: map<Pos, Block>, p: Pos) returns (count: nat)
    ensures count == FaceCount(rule, blocks, p, 6)
  {
    count := 0;
    for d := 0 to 6
      invariant count == FaceCount(rule, blocks, p, d)
    {
      if Counts(rule, blocks, p, d) {
        count := count + 1;
      }
    }
  }

  /** The count over every key of the map, in whatever order the map
      hands them out. */
  method CountFaces(rule: Rule, blocks: map<Pos, Block>) returns (count: nat)
    ensures count == Total(rule, blocks, blocks.Keys)
  {
    count := 0;
    var todo := blocks.Keys;
    while todo != {}
      invariant todo <= blocks.Keys
      invariant count == Total(rule, blocks, blocks.Keys - todo)
      decreases |todo|
    {
      var p :| p in todo;
      var here := CountAt(rule, blocks, p);
      ghost var done := blocks.Keys - todo;
      TotalRemove(rule, blocks, done + {p}, p);
      assert (done + {p}) - {p} == done;
      count := count + here;
      todo := todo - {p};
      assert blocks.Keys - todo == done + {p};
    }
    assert blocks.Keys - todo == blocks.Keys;
  }

  /** Part 1: the faces that touch no other cube. */
  ghost function Part1(cubes: seq<Pos>): nat
  {
    Total(Open, LavaMap(cubes), LavaMap(cubes).Keys)
  }

  /** At most six faces per distinct cube. */
  lemma Part1Bound(cubes: seq<Pos>)
    ensures Part1(cubes) <= 6 * |LavaMap(cubes).Keys|
  {
    TotalBound(Open, LavaMap(cubes), LavaMap(cubes).Keys);
  }

  // ---------------------------------------------------------------------------
  // The bounding box.

  function Min3(p: Pos): int
  {
    Min(Min(p.0, p.1), p.2)
  }

  function Max3(p: Pos): int
  {
    Max(Max(p.0, p.1), p.2)
  }

  /** The least coordinate of any cube. */
  function Lowest(cubes: seq<Pos>): (r: int)
    requires |cubes| > 0
    ensures forall i | 0 <= i < |cubes| :: r <= Min3(cubes[i])
    ensures exists i | 0 <= i < |cubes| :: r == Min3(cubes[i])
  {
    if |cubes| == 1 then Min3(cubes[0])
    else
      var rest := Lowest(cubes[1..]);
      assert forall i | 1 <= i < |cubes| :: cubes[i] == cubes[1..][i - 1];
      Min(Min3(cubes[0]), rest)
  }

  /** The greatest coordinate of any cube. */
  function Highest(cubes: seq<Pos>): (r: int)
    requires |cubes| > 0
    ensures forall i | 0 <= i < |cubes| :: Max3(cubes[i]) <= r
    ensures exists i | 0 <= i < |cubes| :: r == Max3(cubes[i])
  {
    if |cubes| == 1 then Max3(cubes[0])
    else
      var rest := Highest(cubes[1..]);
      assert forall i | 1 <= i < |cubes| :: cubes[i] == cubes[1..][i - 1];
      Max(Max3(cubes[0]), rest)
  }

  predicate InBox(lo: int, hi: int, p: Pos)
  {
    lo <= p.0 <= hi && lo <= p.1 <= hi && lo <= p.2 <= hi
  }

  function BoxCells(lo: int, hi: int): (s: set<Pos>)
    ensures forall p :: p in s <==> InBox(lo, hi, p)
  {
    set x, y, z | lo <= x <= hi && lo <= y <= hi && lo <= z <= hi :: (x, y, z)
  }

  /** The box one past every coordinate holds every cube strictly inside,
      so its corner is no cube. */
  lemma BoxSurroundsCubes(cubes: seq<Pos>)
    requires |cubes| > 0
    ensures var lo, hi := Lowest(cubes) - 1, Highest(cubes) + 1;
            lo < hi && (lo, lo, lo) !in cubes &&
            forall i | 0 <= i < |cubes| :: InBox(lo + 1, hi - 1, cubes[i])
  {
    assert Min3(cubes[0]) <= Max3(cubes[0]);
  }

  // ---------------------------------------------------------------------------
  // Reaching the outside air.

  /** A walk from the corner `(lo, lo, lo)` through box cells that are not
      keys of `blocks`, one face at a time. */
  ghost predicate Walk(blocks: map<Pos, Block>, lo: int, hi: int, path: seq<Pos>)
  {
    |path| > 0 && path[0] == (lo, lo, lo) &&
    (forall i | 0 <= i < |path| :: InBox(lo, hi, path[i]) && path[i] !in blocks) &&
    (forall i | 0 <= i < |path| - 1 :: Adjacent(path[i], path[i + 1]))
  }

  ghost predicate Reachable(blocks: map<Pos, Block>, lo: int, hi: int, p: Pos)
  {
    exists path :: Walk(blocks, lo, hi, path) && path[|path| - 1] == p
  }

  /** One more step of a walk. */
  lemma ExtendWalk(blocks: map<Pos, Block>, lo: int, hi: int, p: Pos, q: Pos)
    requires Reachable(blocks, lo, hi, p) && Adjacent(p, q) && InBox(lo, hi, q) && q !in blocks
    ensures Reachable(blocks, lo, hi, q)
  {
    var path :| Walk(blocks, lo, hi, path) && path[|path| - 1] == p;
    assert Walk(blocks, lo, hi, path + [q]);
  }

  /** The outside air: the box cells the corner reaches without passing
      through lava. */
  ghost function AirCells(blocks: map<Pos, Block>, lo: int, hi: int): set<Pos>
  {
    set x, y, z | lo <= x <= hi && lo <= y <= hi && lo <= z <= hi && Reachable(blocks, lo, hi, (x, y, z)) :: (x, y, z)
  }

  /** The map after the flood fill: the keys kept, the outside air added. */
  ghost function ExteriorMap(blocks: map<Pos, Block>, lo: int, hi: int): map<Pos, Block>
  {
    map p | p in blocks.Keys + AirCells(blocks, lo, hi) :: if p in blocks then blocks[p] else OutsideAir
  }

  /** The cells a step of the fill pushes, from direction `d` on: each
      neighbour in the box that is not yet a key. */
  function Pushed(filled: map<Pos, Block>, pos: Pos, lo: int, hi: int, d: int): (r: seq<Pos>)
    requires 0 <= d <= 6
    ensures forall i | 0 <= i < |r| :: InBox(lo, hi, r[i]) && r[i] !in filled && Adjacent(pos, r[i])
    ensures forall e | d <= e < 6 :: InBox(lo, hi, Neighbour(pos, e)) && Neighbour(pos, e) !in filled ==> Neighbour(pos, e) in r
    decreases 6 - d
  {
    if d == 6 then []
    else
      var adj := Neighbour(pos, d);
      var rest := Pushed(filled, pos, lo, hi, d + 1);
      if InBox(lo, hi, adj) && adj !in filled then [adj] + rest else rest
  }

  /** The inner loop of the fill: push every neighbour of `pos` inside the
      box that is not yet a key. */
  method PushNeighbours(filled: map<Pos, Block>, pos: Pos, lo: int, hi: int, queue: seq<Pos>) returns (queue': seq<Pos>)
    ensures queue' == queue + Pushed(filled, pos, lo, hi, 0)
  {
    queue' := queue;
    for d := 0 to 6
      invariant queue' + Pushed(filled, pos, lo, hi, d) == queue + Pushed(filled, pos, lo, hi, 0)
    {
      var adj := Neighbour(pos, d);
      if !(adj.0 < lo || adj.0 > hi || adj.1 < lo || adj.1 > hi || adj.2 < lo || adj.2 > hi) && adj !in filled {
        assert queue' + Pushed(filled, pos, lo, hi, d) == (queue' + [adj]) + Pushed(filled, pos, lo, hi, d + 1);
        queue' := queue' + [adj];
      }
    }
  }

  /** Keys are never overwritten. */
  ghost predicate KeepsBlocks(blocks: map<Pos, Block>, filled: map<Pos, Block>)
  {
    forall p | p in blocks :: p in filled && filled[p] == blocks[p]
  }

  /** Every added key is outside air in the box that the corner reaches. */
  ghost predicate AddsAir(blocks: map<Pos, Block>, lo: int, hi: int, filled: map<Pos, Block>)
  {
    forall p | p in filled && p !in blocks :: InBox(lo, hi, p) && filled[p] == OutsideAir && Reachable(blocks, lo, hi, p)
  }

  /** Only box cells are queued, and a queued cell that is no key is
      reachable. */
  ghost predicate QueuesBox(blocks: map<Pos, Block>, lo: int, hi: int, queue: seq<Pos>)
  {
    forall i | 0 <= i < |queue| :: InBox(lo, hi, queue[i]) && (queue[i] !in blocks ==> Reachable(blocks, lo, hi, queue[i]))
  }

  /** Every in-box neighbour of added air is a key or queued. */
  ghost predicate Spreads(blocks: map<Pos, Block>, lo: int, hi: int, filled: map<Pos, Block>, queue: seq<Pos>)
  {
    forall p, d | p in filled && p !in blocks && 0 <= d < 6 && InBox(lo, hi, Neighbour(p, d)) :: Neighbour(p, d) in filled || Neighbour(p, d) in queue
  }

  /** What the fill keeps true. */
  ghost predicate FillInv(blocks: map<Pos, Block>, lo: int, hi: int, filled: map<Pos, Block>, queue: seq<Pos>)
  {
    KeepsBlocks(blocks, filled) && AddsAir(blocks, lo, hi, filled) && QueuesBox(blocks, lo, hi, queue) &&
    Spreads(blocks, lo, hi, filled, queue) && ((lo, lo, lo) in filled || (lo, lo, lo) in queue)
  }

  /** Popping the last cell keeps every other queued cell queued. */
  lemma PopKeeps(queue: seq<Pos>, pushed: seq<Pos>)
    requires |queue| > 0
    ensures forall q | q in queue && q != queue[|queue| - 1] :: q in queue[..|queue| - 1] + pushed
  {
    forall q | q in queue && q != queue[|queue| - 1]
      ensures q in queue[..|queue| - 1] + pushed
    {
      var i :| 0 <= i < |queue| && queue[i] == q;
      assert (queue[..|queue| - 1] + pushed)[i] == q;
    }
  }

  /** Popping a cell that is already a key keeps the invariant. */
  lemma SkipKeepsInv(blocks: map<Pos, Block>, lo: int, hi: int, filled: map<Pos, Block>, queue: seq<Pos>)
    requires |queue| > 0 && FillInv(blocks, lo, hi, filled, queue) && queue[|queue| - 1] in filled
    ensures FillInv(blocks, lo, hi, filled, queue[..|queue| - 1])
  {
    PopKeeps(queue, []);
    assert queue[..|queue| - 1] + [] == queue[..|queue| - 1];
  }

  /** The pushed cells are queued box cells the corner reaches. */
  lemma PushedQueuesBox(blocks: map<Pos, Block>, lo: int, hi: int, filled': map<Pos, Block>, pos: Pos, prefix: seq<Pos>)
    requires KeepsBlocks(blocks, filled') && QueuesBox(blocks, lo, hi, prefix)
    requires pos !in blocks && Reachable(blocks, lo, hi, pos)
    ensures QueuesBox(blocks, lo, hi, prefix + Pushed(filled', pos, lo, hi, 0))
  {
    var pushed := Pushed(filled', pos, lo, hi, 0);
    forall i | 0 <= i < |pushed|
      ensures Reachable(blocks, lo, hi, pushed[i])
    {
      ExtendWalk(blocks, lo, hi, pos, pushed[i]);
    }
    var queue' := prefix + pushed;
    forall i | 0 <= i < |queue'|
      ensures InBox(lo, hi, queue'[i]) && (queue'[i] !in blocks ==> Reachable(blocks, lo, hi, queue'[i]))
    {
      if i >= |prefix| {
        assert queue'[i] == pushed[i - |prefix|];
      }
    }
  }

  /** After the pass, neighbours of air are still keys or queued. */
  lemma AddSpreads(blocks: map<Pos, Block>, lo: int, hi: int, filled: map<Pos, Block>, queue: seq<Pos>)
    requires |queue| > 0 && Spreads(blocks, lo, hi, filled, queue)
    ensures var pos := queue[|queue| - 1];
            var filled' := filled[pos := OutsideAir];
            Spreads(blocks, lo, hi, filled', queue[..|queue| - 1] + Pushed(filled', pos, lo, hi, 0))
  {
    var pos := queue[|queue| - 1];
    var filled' := filled[pos := OutsideAir];
    var queue' := queue[..|queue| - 1] + Pushed(filled', pos, lo, hi, 0);
    PopKeeps(queue, Pushed(filled', pos, lo, hi, 0));
    forall p, d | p in filled' && p !in blocks && 0 <= d < 6 && InBox(lo, hi, Neighbour(p, d))
      ensures Neighbour(p, d) in filled' || Neighbour(p, d) in queue'
    {
      if p != pos {
        assert Neighbour(p, d) in filled || Neighbour(p, d) in queue;
      }
    }
  }

  /** Popping a new cell, making it air and pushing its free neighbours
      keeps the invariant. */
  lemma AddKeepsInv(blocks: map<Pos, Block>, lo: int, hi: int, filled: map<Pos, Block>, queue: seq<Pos>)
    requires |queue| > 0 && FillInv(blocks, lo, hi, filled, queue) && queue[|queue| - 1] !in filled
    ensures var pos := queue[|queue| - 1];
            var filled' := filled[pos := OutsideAir];
            FillInv(blocks, lo, hi, filled', queue[..|queue| - 1] + Pushed(filled', pos, lo, hi, 0))
  {
    var pos := queue[|queue| - 1];
    var filled' := filled[pos := OutsideAir];
    var prefix := queue[..|queue| - 1];
    assert pos !in blocks && InBox(lo, hi, pos) && Reachable(blocks, lo, hi, pos);
    assert KeepsBlocks(blocks, filled');
    assert AddsAir(blocks, lo, hi, filled');
    assert QueuesBox(blocks, lo, hi, prefix);
    PushedQueuesBox(blocks, lo, hi, filled', pos, prefix);
    AddSpreads(blocks, lo, hi, filled, queue);
    PopKeeps(queue, Pushed(filled', pos, lo, hi, 0));
  }

  /** Adding a new box cell leaves one unfilled box cell fewer. */
  lemma FillShrinksBox(lo: int, hi: int, filled: map<Pos, Block>, pos: Pos)
    requires InBox(lo, hi, pos) && pos !in filled
    ensures |BoxCells(lo, hi) - filled[pos := OutsideAir].Keys| < |BoxCells(lo, hi) - filled.Keys|
  {
    assert BoxCells(lo, hi) - filled[pos := OutsideAir].Keys == (BoxCells(lo, hi) - filled.Keys) - {pos};
  }

  /** One pass of the fill loop: pop the last cell; unless it is already a
      key, make it outside air and push its free neighbours in the box. */
  method FillStep(ghost blocks: map<Pos, Block>, lo: int, hi: int, filled: map<Pos, Block>, queue: seq<Pos>)
    returns (filled': map<Pos, Block>, queue': seq<Pos>)
    requires |queue| > 0 && FillInv(blocks, lo, hi, filled, queue)
    ensures FillInv(blocks, lo, hi, filled', queue')
    ensures |BoxCells(lo, hi) - filled'.Keys| < |BoxCells(lo, hi) - filled.Keys| ||
            (filled' == filled && |queue'| < |queue|)
  {
    var pos := queue[|queue| - 1];
    queue' := queue[..|queue| - 1];
    if pos in filled {
      SkipKeepsInv(blocks, lo, hi, filled, queue);
      return filled, queue';
    }
    AddKeepsInv(blocks, lo, hi, filled, queue);
    filled' := filled[pos := OutsideAir];
    queue' := PushNeighbours(filled', pos, lo, hi, queue');
    FillShrinksBox(lo, hi, filled, pos);
  }

  /** The flood fill from the corner of the box. */
  method FloodFill(blocks: map<Pos, Block>, lo: int, hi: int) returns (filled: map<Pos, Block>)
    requires lo <= hi
    ensures FillInv(blocks, lo, hi, filled, [])
  {
    filled := blocks;
    var queue := [(lo, lo, lo)];
    assert (lo, lo, lo) !in blocks ==> Walk(blocks, lo, hi, [(lo, lo, lo)]);
    while |queue| > 0
      invariant FillInv(blocks, lo, hi, filled, queue)
      decreases |BoxCells(lo, hi) - filled.Keys|, |queue|
    {
      filled, queue := FillStep(blocks, lo, hi, filled, queue);
    }
  }

  /** Every cell of a walk ends up as filled air. */
  lemma {:induction false} WalkIsFilled(blocks: map<Pos, Block>, lo: int, hi: int, filled: map<Pos, Block>, path: seq<Pos>)
    requires FillInv(blocks, lo, hi, filled, []) && Walk(blocks, lo, hi, path)
    ensures path[|path| - 1] in filled
  {
    if |path| > 1 {
      var front := path[..|path| - 1];
      assert Walk(blocks, lo, hi, front);
      WalkIsFilled(blocks, lo, hi, filled, front);
      var a, b := path[|path| - 2], path[|path| - 1];
      assert Adjacent(a, b);
      var d := DirectionOf(a, b);
      assert a in filled && a !in blocks && InBox(lo, hi, Neighbour(a, d));
    }
  }

  /** A finished fill is exactly the exterior map. */
  lemma FillIsExterior(blocks: map<Pos, Block>, lo: int, hi: int, filled: map<Pos, Block>)
    requires FillInv(blocks, lo, hi, filled, [])
    ensures filled == ExteriorMap(blocks, lo, hi)
  {
    var ext := ExteriorMap(blocks, lo, hi);
    forall p | p in filled
      ensures p in ext && ext[p] == filled[p]
    {
      if p !in blocks {
        assert p in AirCells(blocks, lo, hi);
      }
    }
    forall p | p in ext
      ensures p in filled
    {
      if p !in blocks {
        assert p in AirCells(blocks, lo, hi);
        var path :| Walk(blocks, lo, hi, path) && path[|path| - 1] == p;
        WalkIsFilled(blocks, lo, hi, filled, path);
      }
    }
  }

  // ---------------------------------------------------------------------------
  // The answers.

  /** The box of the cubes: one past the least and greatest coordinate. */
  function Box(cubes: seq<Pos>): (int, int)
    requires |cubes| > 0
  {
    (Lowest(cubes) - 1, Highest(cubes) + 1)
  }

  /** Part 2: the lava faces that touch the outside air; `None` where the
      program's `unwrap` finds no cube. */
  ghost function Part2(cubes: seq<Pos>): Option<nat>
  {
    if |cubes| == 0 then None
    else
      var (lo, hi) := Box(cubes);
      var ext := ExteriorMap(LavaMap(cubes), lo, hi);
      Some(Total(Outside, ext, ext.Keys))
  }

  /** A face counts for part 2 exactly when it is a face of a cube whose
      neighbour is no cube and is reached from the corner. */
  lemma ExteriorFace(cubes: seq<Pos>, p: Pos, d: int)
    requires |cubes| > 0 && 0 <= d < 6
    ensures var (lo, hi) := Box(cubes);
            var lava := LavaMap(cubes);
            Counts(Outside, ExteriorMap(lava, lo, hi), p, d) <==>
            p in lava && Neighbour(p, d) !in lava && Neighbour(p, d) in AirCells(lava, lo, hi)
  {
  }

  /** Part 2 counts no more faces than part 1. */
  lemma Part2AtMostPart1(cubes: seq<Pos>)
    requires |cubes| > 0
    ensures Part2(cubes).value <= Part1(cubes)
  {
    var (lo, hi) := Box(cubes);
    var lava := LavaMap(cubes);
    var ext := ExteriorMap(lava, lo, hi);
    var air := AirCells(lava, lo, hi);
    assert ext.Keys == lava.Keys + air;
    forall z | z in air
      ensures FaceCount(Outside, ext, z, 6) == 0
    {
      FaceCountNone(Outside, ext, z, 6);
    }
    TotalIgnoresZero(Outside, ext, lava.Keys, air);
    forall p | p in lava.Keys
      ensures FaceCount(Outside, ext, p, 6) <= FaceCount(Open, lava, p, 6)
    {
      forall d | 0 <= d < 6
        ensures Counts(Outside, ext, p, d) ==> Counts(Open, lava, p, d)
      {
        ExteriorFace(cubes, p, d);
      }
      FaceCountLe(Outside, ext, Open, lava, p, 6);
    }
    TotalLe(Outside, ext, Open, lava, lava.Keys);
  }

  /** `main`: load, count, bound, fill, count again. */
  method Solve(cubes: seq<Pos>) returns (part1: nat, part2: Option<nat>)
    ensures part1 == Part1(cubes) && part2 == Part2(cubes)
  {
    var blocks := Load(cubes);
    part1 := CountFaces(Open, blocks);
    if |cubes| == 0 {
      return part1, None;
    }
    var lo, hi := Lowest(cubes) - 1, Highest(cubes) + 1;
    BoxSurroundsCubes(cubes);
    var filled := FloodFill(blocks, lo, hi);
    FillIsExterior(blocks, lo, hi, filled);
    var count := CountFaces(Outside, filled);
    part2 := Some(count);
  }
}
