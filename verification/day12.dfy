/** Day 12: a height map of letters `a` to `z`, with the start `S` at height
    `a` and the goal `E` at height `z`. A step goes to an orthogonal
    neighbour at most one higher. The program runs Dijkstra's algorithm
    backwards from `E`, follows the `previous` links from `S` to draw the
    route, then reads the distance of `S` (part 1) and the smallest distance
    of any height-`a` cell (part 2). */
module Day12 {
  import opened Common

  datatype Pos = Pos(x: nat, y: nat)

  /** The parsed map: one row of heights per line. */
  type Heights = seq<seq<nat>>

  // ---------------------------------------------------------------------------
  // `parse_map`

  /** The height of one map character; `None` below `a`, where the
      subtraction of `usize` values panics. */
  function CharHeight(c: char): (r: Option<nat>)
    ensures c == 'S' ==> r == Some(0)
    ensures c == 'E' ==> r == Some(25)
    ensures c != 'S' && c != 'E' ==> (r.Some? <==> c >= 'a')
    ensures c != 'S' && c != 'E' && r.Some? ==> 'a' as int + r.value == c as int
  {
    if c == 'S' then Some(0)
    else if c == 'E' then Some(25)
    else if c < 'a' then None
    else Some(c as int - 'a' as int)
  }

  /** The heights of one line, or `None` when one of its characters panics. */
  function ParseRow(line: string): (r: Option<seq<nat>>)
    ensures r.Some? <==> forall i | 0 <= i < |line| :: CharHeight(line[i]).Some?
    ensures r.Some? ==> |r.value| == |line| && forall i | 0 <= i < |line| :: r.value[i] == CharHeight(line[i]).value
  {
    if |line| == 0 then Some([])
    else
      match (ParseRow(line[..|line| - 1]), CharHeight(line[|line| - 1]))
      case (Some(row), Some(h)) => Some(row + [h])
      case _ => None
  }

  /** The heights of all lines. */
  function ParseRows(lines: seq<string>): (r: Option<Heights>)
    ensures r.Some? <==> forall y | 0 <= y < |lines| :: ParseRow(lines[y]).Some?
    ensures r.Some? ==> |r.value| == |lines| && forall y | 0 <= y < |lines| :: r.value[y] == ParseRow(lines[y]).value
  {
    if |lines| == 0 then Some([])
    else
      match (ParseRows(lines[..|lines| - 1]), ParseRow(lines[|lines| - 1]))
      case (Some(rows), Some(row)) => Some(rows + [row])
      case _ => None
  }

  /** The character `c` stands at `p` in the lines. */
  predicate Occurs(lines: seq<string>, c: char, p: Pos)
  {
    p.y < |lines| && p.x < |lines[p.y]| && lines[p.y][p.x] == c
  }

  /** Row-major order of positions. */
  predicate Before(p: Pos, q: Pos)
  {
    p.y < q.y || (p.y == q.y && p.x < q.x)
  }

  /** The last occurrence of `c` in row-major order: the value the closure
      leaves in `start` or `end` after overwriting it at every occurrence. */
  function LastIn(line: string, y: nat, c: char): (r: Option<Pos>)
    ensures r.Some? ==> r.value.y == y && r.value.x < |line| && line[r.value.x] == c
    ensures r.Some? ==> forall x | r.value.x < x < |line| :: line[x] != c
    ensures r.None? ==> forall x | 0 <= x < |line| :: line[x] != c
  {
    if |line| == 0 then None
    else if line[|line| - 1] == c then Some(Pos(|line| - 1, y))
    else LastIn(line[..|line| - 1], y, c)
  }

  function LastOccurrence(lines: seq<string>, c: char): (r: Option<Pos>)
    ensures r.Some? ==> Occurs(lines, c, r.value)
    ensures r.Some? ==> forall q | Occurs(lines, c, q) :: !Before(r.value, q)
    ensures r.None? <==> forall q :: !Occurs(lines, c, q)
  {
    if |lines| == 0 then None
    else
      var y := |lines| - 1;
      match LastIn(lines[y], y, c)
      case Some(p) => assert Occurs(lines, c, p); Some(p)
      case None =>
        var r := LastOccurrence(lines[..y], c);
        assert forall q | Occurs(lines, c, q) :: Occurs(lines[..y], c, q) by {
          forall q | Occurs(lines, c, q) ensures q.y < y {
            if q.y == y {
              assert false;
            }
          }
        }
        assert forall q | Occurs(lines[..y], c, q) :: Occurs(lines, c, q);
        r
  }

  /** `parse_map`: the heights, the start and the end; `None` where a
      character panics or `unwrap` finds no `S` or no `E`. */
  function ParseMap(lines: seq<string>): Option<(Heights, Pos, Pos)>
  {
    match (ParseRows(lines), LastOccurrence(lines, 'S'), LastOccurrence(lines, 'E'))
    case (Some(m), Some(s), Some(e)) => Some((m, s, e))
    case _ => None
  }

  /** The start stands at height 0 and the end at height 25; the map has
      the shape of the lines. */
  lemma ParsedEnds(lines: seq<string>)
    requires ParseMap(lines).Some?
    ensures var (m, s, e) := ParseMap(lines).value;
            |m| == |lines| && (forall y | 0 <= y < |m| :: |m[y]| == |lines[y]|) &&
            s.y < |m| && s.x < |m[s.y]| && m[s.y][s.x] == 0 &&
            e.y < |m| && e.x < |m[e.y]| && m[e.y][e.x] == 25
  {
    var (m, s, e) := ParseMap(lines).value;
    assert ParseRow(lines[s.y]).value[s.x] == CharHeight('S').value;
    assert ParseRow(lines[e.y]).value[e.x] == CharHeight('E').value;
  }

  /** A map is absent exactly when some character is below `a`, or `S` or
      `E` is missing. */
  lemma ParseMapFails(lines: seq<string>)
    ensures ParseMap(lines).None? <==>
            (exists y, x | 0 <= y < |lines| && 0 <= x < |lines[y]| :: CharHeight(lines[y][x]).None?) ||
            (forall q :: !Occurs(lines, 'S', q)) || (forall q :: !Occurs(lines, 'E', q))
  {
    if ParseRows(lines).None? {
      var y :| 0 <= y < |lines| && ParseRow(lines[y]).None?;
      var x :| 0 <= x < |lines[y]| && CharHeight(lines[y][x]).None?;
    }
  }

  // ---------------------------------------------------------------------------
  // The grid and its steps.

  /** Every row as wide as the first, which is not empty. */
  predicate Rectangular(m: Heights)
  {
    |m| > 0 && |m[0]| > 0 && forall y | 0 <= y < |m| :: |m[y]| == |m[0]|
  }

  predicate InGrid(m: Heights, p: Pos)
    requires Rectangular(m)
  {
    p.y < |m| && p.x < |m[0]|
  }

  function Height(m: Heights, p: Pos): nat
    requires Rectangular(m) && InGrid(m, p)
  {
    m[p.y][p.x]
  }

  predicate Adjacent(p: Pos, q: Pos)
  {
    Abs(p.x - q.x) + Abs(p.y - q.y) == 1
  }

  /** The backwards search may go from `p` to `q`: they are neighbours in
      the grid and a climber may step from `q` up to `p`. */
  predicate Step(m: Heights, p: Pos, q: Pos)
    requires Rectangular(m)
  {
    InGrid(m, p) && InGrid(m, q) && Adjacent(p, q) && Height(m, q) + 1 >= Height(m, p)
  }

  /** `get_walkable_surrounding_pos`: the positions the backwards search
      may go to from `p`, in the order left, right, up, down. */
  function Walkable(m: Heights, p: Pos): (r: seq<Pos>)
    requires Rectangular(m) && InGrid(m, p)
    ensures |r| <= 4
    ensures forall q :: q in r <==> Step(m, p, q)
  {
    var h := Height(m, p) as int;
    var left := if p.x > 0 && m[p.y][p.x - 1] >= h - 1 then [Pos(p.x - 1, p.y)] else [];
    var right := if p.x < |m[0]| - 1 && m[p.y][p.x + 1] >= h - 1 then [Pos(p.x + 1, p.y)] else [];
    var up := if p.y > 0 && m[p.y - 1][p.x] >= h - 1 then [Pos(p.x, p.y - 1)] else [];
    var down := if p.y < |m| - 1 && m[p.y + 1][p.x] >= h - 1 then [Pos(p.x, p.y + 1)] else [];
    left + right + up + down
  }

  /** A climber's route: each step goes to a neighbour at most one higher. */
  predicate IsRoute(m: Heights, r: seq<Pos>)
    requires Rectangular(m)
  {
    |r| > 0 && (forall i | 0 <= i < |r| :: InGrid(m, r[i])) &&
    forall i | 0 <= i < |r| - 1 :: Step(m, r[i + 1], r[i])
  }

  /** `r` is a climber's route from `p` to `e`. */
  predicate RouteFrom(m: Heights, r: seq<Pos>, p: Pos, e: Pos)
    requires Rectangular(m)
  {
    IsRoute(m, r) && r[0] == p && r[|r| - 1] == e
  }

  /** A climber at `p` can reach the goal `e`. */
  ghost predicate CanReach(m: Heights, p: Pos, e: Pos)
    requires Rectangular(m)
  {
    exists r :: RouteFrom(m, r, p, e)
  }

  /** `n` is the fewest steps of a route from `p` to `e`. */
  ghost predicate Shortest(m: Heights, p: Pos, e: Pos, n: nat)
    requires Rectangular(m)
  {
    (exists r :: RouteFrom(m, r, p, e) && |r| == n + 1) &&
    forall r | RouteFrom(m, r, p, e) :: n <= |r| - 1
  }

  // ---------------------------------------------------------------------------
  // Dijkstra's algorithm from the end.

  /** A `distances` entry. */
  datatype Node = Node(distance: nat, previous: Option<Pos>)

  /** A heap entry. */
  datatype State = State(distance: nat, pos: Pos)

  type Distances = map<Pos, Node>

  /** `BinaryHeap::pop` under the reversed `Ord` of `State`: the index of a
      state with the smallest distance. */
  method PopIndex(heap: seq<State>) returns (i: nat)
    requires |heap| > 0
    ensures i < |heap| && forall st | st in heap :: heap[i].distance <= st.distance
  {
    i := 0;
    var j := 1;
    while j < |heap|
      invariant i < j <= |heap|
      invariant forall k | 0 <= k < j :: heap[i].distance <= heap[k].distance
    {
      if heap[j].distance < heap[i].distance {
        i := j;
      }
      j := j + 1;
    }
  }

  /** Every entry lies in the grid; the end keeps distance 0 and no
      `previous`; every other entry links to an entry it is walkable from,
      whose distance is smaller. */
  predicate Sound(m: Heights, e: Pos, d: Distances)
  {
    Rectangular(m) && (forall p | p in d :: InGrid(m, p)) &&
    e in d && d[e] == Node(0, None) &&
    forall p {:trigger Linked(m, d, p)} | p in d && p != e :: Linked(m, d, p)
  }

  predicate Linked(m: Heights, d: Distances, p: Pos)
    requires Rectangular(m) && p in d
  {
    d[p].previous.Some? && d[p].previous.value in d &&
    Step(m, d[p].previous.value, p) && d[d[p].previous.value].distance < d[p].distance
  }

  /** Every heap state belongs to an entry whose distance is at most the
      state's, and none is below `low`, the distance last popped. */
  predicate HeapBounded(d: Distances, heap: seq<State>, low: nat)
  {
    forall st | st in heap :: st.pos in d && d[st.pos].distance <= st.distance && low <= st.distance
  }

  /** Every entry not yet visited has a heap state with its exact distance;
      every visited one is at most `low`. */
  predicate Pending(d: Distances, visited: set<Pos>, heap: seq<State>, low: nat)
  {
    visited <= d.Keys &&
    (forall p | p in d && p !in visited :: State(d[p].distance, p) in heap) &&
    (forall v | v in visited :: d[v].distance <= low)
  }

  /** Every position walkable from a visited one has an entry at most one
      more than the visited one's. */
  ghost predicate Relaxed(m: Heights, d: Distances, visited: set<Pos>)
    requires Rectangular(m)
  {
    forall v, p | v in visited && v in d && Step(m, v, p) :: p in d && d[p].distance <= d[v].distance + 1
  }

  ghost predicate DijkstraInv(m: Heights, e: Pos, d: Distances, visited: set<Pos>, heap: seq<State>, low: nat)
  {
    Sound(m, e, d) && HeapBounded(d, heap, low) && Pending(d, visited, heap, low) && Relaxed(m, d, visited)
  }

  /** A position is never walkable from itself. */
  lemma NotSelfWalkable(m: Heights, q: Pos)
    requires Rectangular(m)
    ensures !Step(m, q, q)
  {
  }

  /** Storing the shorter distance `low + 1` for `p`, reached from the
      visited `q` at distance `low`, and pushing its state keeps the
      invariant, with `q`'s own neighbours still being relaxed. */
  lemma ImproveKeepsInv(m: Heights, e: Pos, d: Distances, visited: set<Pos>, heap: seq<State>, low: nat, q: Pos, p: Pos)
    requires Sound(m, e, d) && HeapBounded(d, heap, low) && Pending(d, visited, heap, low)
    requires q in visited && d[q].distance == low && Step(m, q, p)
    requires p !in d || d[p].distance > low + 1
    ensures var d' := d[p := Node(low + 1, Some(q))];
            Sound(m, e, d') && HeapBounded(d', heap + [State(low + 1, p)], low) &&
            Pending(d', visited, heap + [State(low + 1, p)], low) && p !in visited && p != q
  {
    NotSelfWalkable(m, q);
    var d' := d[p := Node(low + 1, Some(q))];
    forall r | r in d' && r != e
      ensures Linked(m, d', r)
    {
      if r != p {
        assert Linked(m, d, r);
      }
    }
  }

  /** Lowering `p`'s entry keeps the relaxation of every visited position
      other than `p`. */
  lemma ImproveKeepsRelaxed(m: Heights, d: Distances, visited: set<Pos>, p: Pos, n: Node)
    requires Rectangular(m) && Relaxed(m, d, visited) && p !in visited
    requires p in d ==> n.distance <= d[p].distance
    ensures Relaxed(m, d[p := n], visited)
  {
    var d' := d[p := n];
    forall v, w | v in visited && v in d' && Step(m, v, w)
      ensures w in d' && d'[w].distance <= d'[v].distance + 1
    {
      assert v in d;
    }
  }

  /** The state of the inner loop after relaxing the positions `done`
      walkable from `q`: the invariant holds for every visited position but
      `q`, each position of `done` has an entry at most `low + 1`, no entry
      has been removed or grown, and visited entries are unchanged. */
  ghost predicate Relaxing(m: Heights, e: Pos, d0: Distances, d: Distances, visited: set<Pos>, heap: seq<State>, low: nat, q: Pos, done: seq<Pos>)
  {
    Sound(m, e, d) && HeapBounded(d, heap, low) && Pending(d, visited, heap, low) &&
    Relaxed(m, d, visited - {q}) &&
    d0.Keys <= d.Keys && (forall p | p in d0 :: d[p].distance <= d0[p].distance) &&
    (forall v | v in visited :: v in d0 && d[v] == d0[v]) &&
    forall p | p in done :: p in d && d[p].distance <= low + 1
  }

  /** One iteration of the inner loop keeps `Relaxing`, with `p` done. */
  lemma RelaxStep(m: Heights, e: Pos, d0: Distances, d: Distances, visited: set<Pos>, heap: seq<State>, low: nat, q: Pos, done: seq<Pos>, p: Pos)
    requires Relaxing(m, e, d0, d, visited, heap, low, q, done)
    requires q in visited && d0[q].distance == low && Step(m, q, p)
    ensures p !in d || d[p].distance > low + 1 ==>
              Relaxing(m, e, d0, d[p := Node(low + 1, Some(q))], visited, heap + [State(low + 1, p)], low, q, done + [p])
    ensures p in d && d[p].distance <= low + 1 ==> Relaxing(m, e, d0, d, visited, heap, low, q, done + [p])
  {
    if p !in d || d[p].distance > low + 1 {
      ImproveKeepsInv(m, e, d, visited, heap, low, q, p);
      ImproveKeepsRelaxed(m, d, visited - {q}, p, Node(low + 1, Some(q)));
    }
  }

  /** Once every position walkable from `q` is done, the invariant holds
      for all visited positions. */
  lemma RelaxedAll(m: Heights, e: Pos, d0: Distances, d: Distances, visited: set<Pos>, heap: seq<State>, low: nat, q: Pos)
    requires Rectangular(m) && InGrid(m, q)
    requires Relaxing(m, e, d0, d, visited, heap, low, q, Walkable(m, q))
    requires q in visited && d0[q].distance == low
    ensures DijkstraInv(m, e, d, visited, heap, low)
  {
    forall v, p | v in visited && v in d && Step(m, v, p)
      ensures p in d && d[p].distance <= d[v].distance + 1
    {
      if v != q {
        assert v in visited - {q};
      } else {
        assert p in Walkable(m, q);
      }
    }
  }

  /** The body of the inner loop: `nextPos`, walkable from `q`, gets
      distance `low + 1` and a heap state when it has no entry or a larger
      one. */
  method RelaxOne(m: Heights, e: Pos, ghost d0: Distances, d: Distances, visited: set<Pos>, heap: seq<State>, low: nat, q: Pos,
                  ghost done: seq<Pos>, nextPos: Pos)
    returns (d': Distances, heap': seq<State>)
    requires Relaxing(m, e, d0, d, visited, heap, low, q, done)
    requires q in visited && d0[q].distance == low && Step(m, q, nextPos)
    ensures Relaxing(m, e, d0, d', visited, heap', low, q, done + [nextPos])
  {
    RelaxStep(m, e, d0, d, visited, heap, low, q, done, nextPos);
    var nextDistance := low + 1;
    var nextNode := Node(nextDistance, Some(q));
    d', heap' := d, heap;
    if nextPos !in d || d[nextPos].distance > nextDistance {
      d' := d[nextPos := nextNode];
      heap' := heap + [State(nextDistance, nextPos)];
    }
  }

  /** The inner `for` loop: relaxes every position walkable from `q`, which
      was just visited at distance `low`. Stored distances never increase
      and no entry is removed. */
  method Expand(m: Heights, e: Pos, d0: Distances, visited: set<Pos>, heap0: seq<State>, low: nat, q: Pos)
    returns (d: Distances, heap: seq<State>)
    requires Sound(m, e, d0) && HeapBounded(d0, heap0, low) && Pending(d0, visited, heap0, low)
    requires Relaxed(m, d0, visited - {q})
    requires q in visited && d0[q].distance == low
    ensures DijkstraInv(m, e, d, visited, heap, low)
    ensures d0.Keys <= d.Keys && forall p | p in d0 :: d[p].distance <= d0[p].distance
    ensures forall v | v in visited :: d[v] == d0[v]
  {
    assert InGrid(m, q);
    var surrounding := Walkable(m, q);
    d, heap := d0, heap0;
    for j := 0 to |surrounding|
      invariant Relaxing(m, e, d0, d, visited, heap, low, q, surrounding[..j])
    {
      d, heap := RelaxOne(m, e, d0, d, visited, heap, low, q, surrounding[..j], surrounding[j]);
      assert surrounding[..j + 1] == surrounding[..j] + [surrounding[j]];
    }
    assert surrounding[..|surrounding|] == surrounding;
    RelaxedAll(m, e, d0, d, visited, heap, low, q);
  }

  /** A state other than the one removed stays in the heap. */
  lemma RemoveKeeps(heap: seq<State>, i: nat, x: State)
    requires i < |heap| && x in heap && x != heap[i]
    ensures x in heap[..i] + heap[i + 1..]
  {
    var k :| 0 <= k < |heap| && heap[k] == x;
    if k < i {
      assert heap[..i][k] == x;
    } else {
      assert heap[i + 1..][k - i - 1] == x;
    }
  }

  /** Popping a smallest state keeps the invariant at its distance; a
      state of a position not yet visited carries that position's exact
      distance, and visiting it keeps the invariant but for its own
      neighbours. */
  lemma PopKeepsInv(m: Heights, e: Pos, d: Distances, visited: set<Pos>, heap: seq<State>, low: nat, i: nat)
    requires DijkstraInv(m, e, d, visited, heap, low)
    requires i < |heap| && forall st | st in heap :: heap[i].distance <= st.distance
    ensures var st, rest := heap[i], heap[..i] + heap[i + 1..];
            Sound(m, e, d) && HeapBounded(d, rest, st.distance) && low <= st.distance &&
            (st.pos in visited ==> DijkstraInv(m, e, d, visited, rest, st.distance)) &&
            (st.pos !in visited ==>
               d[st.pos].distance == st.distance && Pending(d, visited + {st.pos}, rest, st.distance) &&
               Relaxed(m, d, (visited + {st.pos}) - {st.pos}))
  {
    var st, rest := heap[i], heap[..i] + heap[i + 1..];
    forall x | x in rest
      ensures x in heap
    {
    }
    forall r | r in d && r !in visited && r != st.pos
      ensures State(d[r].distance, r) in rest
    {
      RemoveKeeps(heap, i, State(d[r].distance, r));
    }
    if st.pos !in visited {
      assert State(d[st.pos].distance, st.pos) in heap;
      assert (visited + {st.pos}) - {st.pos} == visited;
    }
  }

  /** The positions of the grid. */
  ghost function GridCells(m: Heights): (r: set<Pos>)
    requires Rectangular(m)
    ensures forall p :: p in r <==> InGrid(m, p)
  {
    set y: nat, x: nat | y < |m| && x < |m[0]| :: Pos(x, y)
  }

  /** Dijkstra's algorithm from the end `e`, over the steps of the
      backwards search: on return every position walkable from an entry has
      an entry at most one larger, and the links lead towards `e`. */
  method Dijkstra(m: Heights, e: Pos) returns (d: Distances)
    requires Rectangular(m) && InGrid(m, e)
    ensures Sound(m, e, d) && Relaxed(m, d, d.Keys)
  {
    d := map[e := Node(0, None)];
    var visited: set<Pos> := {};
    var heap := [State(0, e)];
    ghost var low := 0;
    ghost var cells := GridCells(m);
    while |heap| > 0
      invariant DijkstraInv(m, e, d, visited, heap, low)
      invariant visited <= cells
      decreases |cells - visited|, |heap|
    {
      var i := PopIndex(heap);
      var st := heap[i];
      PopKeepsInv(m, e, d, visited, heap, low, i);
      heap := heap[..i] + heap[i + 1..];
      low := st.distance;
      if st.pos in visited {
        continue;
      }
      assert (cells - (visited + {st.pos})) + {st.pos} == cells - visited;
      visited := visited + {st.pos};
      d, heap := Expand(m, e, d, visited, heap, st.distance, st.pos);
    }
    assert d.Keys == visited;
  }

  // ---------------------------------------------------------------------------
  // What the distances mean.

  /** The positions met by following `previous` from `p`: a route from `p`
      to `e` along which the distances strictly fall. */
  ghost function ChainFrom(m: Heights, e: Pos, d: Distances, p: Pos): (r: seq<Pos>)
    requires Sound(m, e, d) && p in d
    ensures RouteFrom(m, r, p, e) && |r| <= d[p].distance + 1
    ensures forall i | 0 <= i < |r| :: r[i] in d
    ensures forall i | 0 <= i < |r| - 1 :: d[r[i]].previous == Some(r[i + 1])
    ensures forall i, j | 0 <= i < j < |r| :: d[r[j]].distance < d[r[i]].distance
    decreases d[p].distance
  {
    if p == e then [e]
    else
      assert Linked(m, d, p);
      var rest := ChainFrom(m, e, d, d[p].previous.value);
      assert forall i | 0 < i < |rest| + 1 :: ([p] + rest)[i] == rest[i - 1];
      [p] + rest
  }

  /** Along a route ending at `e`, every position has an entry no larger
      than the number of steps left. */
  lemma {:induction false} RouteBound(m: Heights, e: Pos, d: Distances, r: seq<Pos>, i: nat)
    requires Sound(m, e, d) && Relaxed(m, d, d.Keys)
    requires IsRoute(m, r) && r[|r| - 1] == e && i < |r|
    ensures r[i] in d && d[r[i]].distance <= |r| - 1 - i
    decreases |r| - i
  {
    if i < |r| - 1 {
      RouteBound(m, e, d, r, i + 1);
      assert Step(m, r[i + 1], r[i]);
    }
  }

  /** After `Dijkstra`, a position has an entry exactly when a climber
      there can reach `e`, and its distance is the fewest steps of such a
      route. */
  lemma DistancesAreShortest(m: Heights, e: Pos, d: Distances, p: Pos)
    requires Sound(m, e, d) && Relaxed(m, d, d.Keys)
    ensures p in d <==> InGrid(m, p) && CanReach(m, p, e)
    ensures p in d ==> Shortest(m, p, e, d[p].distance)
  {
    if p in d {
      var c := ChainFrom(m, e, d, p);
      RouteBound(m, e, d, c, 0);
      forall r | RouteFrom(m, r, p, e)
        ensures d[p].distance <= |r| - 1
      {
        RouteBound(m, e, d, r, 0);
      }
    }
    if InGrid(m, p) && CanReach(m, p, e) {
      var r :| RouteFrom(m, r, p, e);
      RouteBound(m, e, d, r, 0);
    }
  }

  // ---------------------------------------------------------------------------
  // Drawing the route and reading the answers.

  /** The cell one step from `p` in the direction an arrow points. */
  function Toward(p: Pos, arrow: char): (int, int)
  {
    match arrow
    case 'v' => (p.x, p.y + 1)
    case '^' => (p.x, p.y - 1)
    case '<' => (p.x - 1, p.y)
    case _ => (p.x + 1, p.y)
  }

  /** The arrow drawn at `current`, whose `previous` is `previous`; `None`
      when they are not neighbours and nothing is drawn. */
  function Arrow(current: Pos, previous: Pos): (r: Option<char>)
    ensures r.Some? ==> r.value in "v^<>"
    ensures r.None? <==> Abs(current.y - previous.y) != 1 && Abs(current.x - previous.x) != 1
    ensures Adjacent(current, previous) ==> r.Some? && Toward(current, r.value) == (previous.x, previous.y)
  {
    if current.y as int == previous.y as int - 1 then Some('v')
    else if current.y as int == previous.y as int + 1 then Some('^')
    else if current.x as int == previous.x as int + 1 then Some('<')
    else if current.x as int == previous.x as int - 1 then Some('>')
    else None
  }

  /** `c` follows the `previous` links of `d` from its first position to
      `e`, whose entry has none. */
  ghost predicate FollowsLinks(d: Distances, e: Pos, c: seq<Pos>)
  {
    |c| > 0 && c[|c| - 1] == e && e in d && d[e].previous.None? &&
    (forall i | 0 <= i < |c| :: c[i] in d) &&
    forall i | 0 <= i < |c| - 1 :: d[c[i]].previous == Some(c[i + 1])
  }

  /** The links from a position lead to `e` one way only: along `ChainFrom`. */
  lemma {:induction false} LinksUnique(m: Heights, e: Pos, d: Distances, c: seq<Pos>)
    requires Sound(m, e, d) && FollowsLinks(d, e, c)
    ensures c == ChainFrom(m, e, d, c[0])
    decreases |c|
  {
    if |c| > 1 {
      assert FollowsLinks(d, e, c[1..]);
      LinksUnique(m, e, d, c[1..]);
      assert c[0] != e;
      assert c == [c[0]] + c[1..];
    }
  }

  /** The chain from `start` follows the links. */
  lemma ChainLinks(m: Heights, e: Pos, d: Distances, start: Pos)
    requires Sound(m, e, d) && start in d
    ensures FollowsLinks(d, e, ChainFrom(m, e, d, start))
  {
  }

  /** `c` meets no position twice and each of its steps joins neighbours. */
  ghost predicate Traceable(c: seq<Pos>)
  {
    (forall i, j | 0 <= i < j < |c| :: c[i] != c[j]) &&
    forall k | 0 <= k < |c| - 1 :: Adjacent(c[k], c[k + 1])
  }

  /** A chain that follows the links of sound distances is traceable. */
  lemma LinksDistinct(m: Heights, e: Pos, d: Distances, c: seq<Pos>)
    requires Sound(m, e, d) && FollowsLinks(d, e, c)
    ensures Traceable(c)
  {
    LinksUnique(m, e, d, c);
    forall k | 0 <= k < |c| - 1
      ensures Adjacent(c[k], c[k + 1])
    {
      assert Step(m, c[k + 1], c[k]);
    }
  }

  /** The map the `path` loop has drawn after the first `k` positions of
      the chain `c`: `E` at the last position, the arrow towards the next
      position at the others (nothing where they are not neighbours). */
  ghost function Drawn(c: seq<Pos>, k: nat): map<Pos, char>
    requires k <= |c|
  {
    if k == 0 then map[]
    else
      var i := k - 1;
      if i == |c| - 1 then Drawn(c, i)[c[i] := 'E']
      else match Arrow(c[i], c[i + 1])
        case Some(a) => Drawn(c, i)[c[i] := a]
        case None => Drawn(c, i)
  }

  /** Along a traceable chain the drawing holds one character per position
      met so far: the arrow towards the next position, and `E` at the end. */
  lemma {:induction false} DrawnContents(c: seq<Pos>, k: nat)
    requires Traceable(c) && k <= |c|
    ensures forall p :: p in Drawn(c, k) <==> p in c[..k]
    ensures forall i | 0 <= i < k && i < |c| - 1 :: Arrow(c[i], c[i + 1]) == Some(Drawn(c, k)[c[i]])
    ensures 0 < k == |c| ==> Drawn(c, k)[c[|c| - 1]] == 'E'
  {
    if k > 0 {
      DrawnContents(c, k - 1);
      assert c[..k] == c[..k - 1] + [c[k - 1]];
      forall i | 0 <= i < k - 1
        ensures c[i] != c[k - 1]
      {
      }
    }
  }

  /** One iteration of the `path` loop at the `k`-th position of the
      chain: moves to its `previous` and draws `E` at the end or the arrow
      towards the `previous` elsewhere. */
  method DrawOne(e: Pos, d: Distances, ghost c: seq<Pos>, ghost k: nat, drawn: map<Pos, char>, currentPos: Pos)
    returns (drawn': map<Pos, char>, current: Option<Pos>)
    requires FollowsLinks(d, e, c) && k < |c| && currentPos == c[k] && drawn == Drawn(c, k)
    ensures current.Some? <==> k + 1 < |c|
    ensures current.Some? ==> current.value == c[k + 1]
    ensures drawn' == Drawn(c, k + 1)
  {
    var previousOpt := d[currentPos].previous;
    assert k < |c| - 1 ==> previousOpt == Some(c[k + 1]);
    assert k == |c| - 1 ==> currentPos == e && previousOpt.None?;
    current := previousOpt;
    if previousOpt.None? {
      drawn' := drawn[currentPos := 'E'];
      return;
    }
    var previous := previousOpt.value;
    var arrow := Arrow(currentPos, previous);
    drawn' := drawn;
    if arrow.Some? {
      drawn' := drawn[currentPos := arrow.value];
    }
  }

  /** The `path` loop: follows `previous` from `start`, drawing an arrow at
      each position and `E` at the end; `None` where `unwrap` finds no entry
      for `start`. The links from `start` are the ghost chain `c`; the loop
      ends because it walks along `c`. */
  method DrawPath(e: Pos, d: Distances, start: Pos, ghost c: seq<Pos>) returns (path: Option<map<Pos, char>>)
    requires |c| > 0 && c[0] == start
    requires start in d ==> FollowsLinks(d, e, c) && Traceable(c)
    ensures path.None? <==> start !in d
    ensures path.Some? ==>
              path.value.Keys == (set p | p in c) && path.value[e] == 'E' &&
              forall i | 0 <= i < |c| - 1 :: Arrow(c[i], c[i + 1]) == Some(path.value[c[i]])
  {
    var drawn: map<Pos, char> := map[];
    var current := Some(start);
    ghost var k := 0;
    while current.Some?
      invariant 0 <= k <= |c|
      invariant k > 0 ==> start in d
      invariant current.Some? <==> k < |c|
      invariant current.Some? ==> current.value == c[k]
      invariant drawn == Drawn(c, k)
      decreases |c| - k
    {
      var currentPos := current.value;
      if currentPos !in d {
        return None;
      }
      drawn, current := DrawOne(e, d, c, k, drawn, currentPos);
      k := k + 1;
    }
    DrawnContents(c, k);
    assert c[..k] == c;
    return Some(drawn);
  }

  /** The height-0 positions of one row. */
  function ZerosInRow(row: seq<nat>, y: nat): (r: seq<Pos>)
    ensures forall p :: p in r <==> p.y == y && p.x < |row| && row[p.x] == 0
  {
    if |row| == 0 then []
    else
      var x := |row| - 1;
      ZerosInRow(row[..x], y) + (if row[x] == 0 then [Pos(x, y)] else [])
  }

  /** `positions_with_value_0`: the height-0 positions, row by row. */
  function ZeroCells(m: Heights): (r: seq<Pos>)
    ensures forall p :: p in r <==> p.y < |m| && p.x < |m[p.y]| && m[p.y][p.x] == 0
  {
    if |m| == 0 then []
    else
      var y := |m| - 1;
      ZeroCells(m[..y]) + ZerosInRow(m[y], y)
  }

  /** `min_distance`: the smallest distance of the given positions that
      have an entry; `None` where none has one and `unwrap` panics. */
  function MinDistance(d: Distances, cells: seq<Pos>): (r: Option<nat>)
    ensures r.None? <==> forall p | p in cells :: p !in d
    ensures r.Some? ==> exists p | p in cells && p in d :: d[p].distance == r.value
    ensures r.Some? ==> forall p | p in cells && p in d :: r.value <= d[p].distance
  {
    if |cells| == 0 then None
    else
      var rest := MinDistance(d, cells[1..]);
      assert forall p | p in cells :: p == cells[0] || p in cells[1..];
      if cells[0] !in d then rest
      else if rest.None? then Some(d[cells[0]].distance)
      else Some(Min(d[cells[0]].distance, rest.value))
  }

  /** `n` is the fewest steps of a route to `e` from any height-0 position. */
  ghost predicate ShortestFromLowest(m: Heights, e: Pos, n: nat)
    requires Rectangular(m)
  {
    (exists z | InGrid(m, z) && Height(m, z) == 0 :: Shortest(m, z, e, n)) &&
    forall z, r | InGrid(m, z) && Height(m, z) == 0 && RouteFrom(m, r, z, e) :: n <= |r| - 1
  }

  /** After `Dijkstra`, the smallest entry over the height-0 positions is
      the fewest steps from any of them. */
  lemma LowestIsShortest(m: Heights, e: Pos, d: Distances, n: nat)
    requires Sound(m, e, d) && Relaxed(m, d, d.Keys)
    requires MinDistance(d, ZeroCells(m)) == Some(n)
    ensures ShortestFromLowest(m, e, n)
  {
    var zeros := ZeroCells(m);
    var z :| z in zeros && z in d && d[z].distance == n;
    DistancesAreShortest(m, e, d, z);
    forall z', r | InGrid(m, z') && Height(m, z') == 0 && RouteFrom(m, r, z', e)
      ensures n <= |r| - 1
    {
      DistancesAreShortest(m, e, d, z');
      assert z' in zeros;
    }
  }

  /** `main`: parses the map, runs Dijkstra's algorithm from `E`, draws the
      route from `S`, then answers part 1 (the distance of `S`) and part 2
      (the smallest distance of a height-0 position). A panic anywhere is
      `None` for both answers. */
  method Solve(lines: seq<string>) returns (part1: Option<nat>, part2: Option<nat>)
    requires |lines| > 0 && |lines[0]| > 0 && forall y | 0 <= y < |lines| :: |lines[y]| == |lines[0]|
    ensures ParseMap(lines).None? ==> part1.None? && part2.None?
    ensures ParseMap(lines).Some? ==>
              var (m, s, e) := ParseMap(lines).value;
              Rectangular(m) &&
              (part1.Some? <==> CanReach(m, s, e)) &&
              (part1.Some? ==> Shortest(m, s, e, part1.value)) &&
              (part2.Some? <==> part1.Some?) &&
              (part2.Some? ==> ShortestFromLowest(m, e, part2.value))
  {
    var parsed := ParseMap(lines);
    if parsed.None? {
      return None, None;
    }
    var (m, start, end) := parsed.value;
    ParsedEnds(lines);
    assert Rectangular(m);
    var d := Dijkstra(m, end);
    ghost var c := [start];
    if start in d {
      c := ChainFrom(m, end, d, start);
      ChainLinks(m, end, d, start);
      LinksDistinct(m, end, d, c);
    }
    var path := DrawPath(end, d, start, c);
    DistancesAreShortest(m, end, d, start);
    if path.None? {
      return None, None;
    }
    part1 := Some(d[start].distance);
    var zeros := ZeroCells(m);
    assert start in zeros;
    part2 := MinDistance(d, zeros);
    LowestIsShortest(m, end, d, part2.value);
  }
}
