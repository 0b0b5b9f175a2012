/** Day 16, part 2: the valve planner for two walkers. The tunnel graph is
    turned into an all-pairs distance matrix (`floyd_warshall`, in place),
    every route through the working valves within 26 minutes is enumerated
    together with the set of valves it opens (`find_permutations`), and the
    best sum of two routes with disjoint valve sets is kept. The `u64` bit
    set of opened valves is modelled as a set of valve indices. */
module Day16Part2 {
  import opened Common

  datatype Valve = Valve(name: string, rate: int, connections: seq<string>)

  /** The distance written for valves with no direct tunnel. */
  const Unreachable := 1_000_000_000

  function Min(a: int, b: int): int
  {
    if a <= b then a else b
  }

  // ---------------------------------------------------------------------------
  // The distance matrix and its relaxation.

  predicate Square(d: seq<seq<int>>)
  {
    forall j | 0 <= j < |d| :: |d[j]| == |d|
  }

  ghost predicate NonNegative(d: seq<seq<int>>)
  {
    Square(d) && forall j, k | 0 <= j < |d| && 0 <= k < |d| :: d[j][k] >= 0
  }

  /** The matrix built before the search: 0 from a valve to itself, 1 to a
      valve listed among its tunnels, and the sentinel otherwise. */
  function InitialDistances(graph: seq<Valve>): (d: seq<seq<int>>)
    ensures |d| == |graph| && NonNegative(d)
    ensures forall j | 0 <= j < |graph| :: d[j][j] == 0
  {
    seq(|graph|, j requires 0 <= j < |graph| =>
      seq(|graph|, k requires 0 <= k < |graph| =>
        if graph[j].name == graph[k].name then 0
        else if graph[k].name in graph[j].connections then 1
        else Unreachable))
  }

  /** An entry of the initial matrix is 1 exactly for a tunnel between two
      differently named valves, and the sentinel exactly when neither the
      names agree nor a tunnel is listed. */
  lemma InitialDistancesEdges(graph: seq<Valve>, j: nat, k: nat)
    requires j < |graph| && k < |graph|
    ensures var d := InitialDistances(graph);
            && (d[j][k] == 0 <==> graph[j].name == graph[k].name)
            && (d[j][k] == 1 <==> graph[j].name != graph[k].name && graph[k].name in graph[j].connections)
            && (d[j][k] == Unreachable <==>
                  graph[j].name != graph[k].name && graph[k].name !in graph[j].connections)
  {
  }

  /** One outer pass of `floyd_warshall`: every entry may be shortened by a
      detour through `m`. */
  function RelaxVia(d: seq<seq<int>>, m: nat): (r: seq<seq<int>>)
    requires Square(d) && m < |d|
    ensures |r| == |d| && Square(r)
    ensures forall j, k | 0 <= j < |d| && 0 <= k < |d| :: r[j][k] == Min(d[j][k], d[j][m] + d[m][k])
  {
    seq(|d|, j requires 0 <= j < |d| =>
      seq(|d|, k requires 0 <= k < |d| => Min(d[j][k], d[j][m] + d[m][k])))
  }

  /** The matrix after the outer passes for `0 .. i - 1`. */
  function Stages(d: seq<seq<int>>, i: nat): (r: seq<seq<int>>)
    requires Square(d) && i <= |d|
    ensures |r| == |d| && Square(r)
  {
    if i == 0 then d else RelaxVia(Stages(d, i - 1), i - 1)
  }

  /** The matrix `floyd_warshall` leaves behind. */
  function Closure(d: seq<seq<int>>): (r: seq<seq<int>>)
    requires Square(d)
    ensures |r| == |d| && Square(r)
  {
    Stages(d, |d|)
  }

  /** The length of the way from `j` to `k` through `m`. */
  function Detour(d: seq<seq<int>>, j: nat, m: nat, k: nat): int
    requires Square(d) && j < |d| && m < |d| && k < |d|
  {
    d[j][m] + d[m][k]
  }

  /** The triangle inequality through every valve `m` below `i`. */
  ghost predicate TriangleBelow(d: seq<seq<int>>, i: nat)
    requires Square(d)
  {
    forall m, j, k | 0 <= m < i && m < |d| && 0 <= j < |d| && 0 <= k < |d| :: d[j][k] <= Detour(d, j, m, k)
  }

  lemma RelaxNonNegative(s: seq<seq<int>>, m: nat)
    requires NonNegative(s) && m < |s|
    ensures NonNegative(RelaxVia(s, m))
  {
    var r := RelaxVia(s, m);
    forall j, k | 0 <= j < |s| && 0 <= k < |s| ensures r[j][k] >= 0 {
      assert r[j][k] == Min(s[j][k], s[j][m] + s[m][k]);
    }
  }

  lemma {:induction false} StagesNonNegative(d: seq<seq<int>>, i: nat)
    requires NonNegative(d) && i <= |d|
    ensures NonNegative(Stages(d, i))
  {
    if i > 0 {
      StagesNonNegative(d, i - 1);
      RelaxNonNegative(Stages(d, i - 1), i - 1);
    }
  }

  /** A relaxation only lowers or keeps an entry. */
  lemma {:induction false} StagesNeverIncrease(d: seq<seq<int>>, i: nat)
    requires Square(d) && i <= |d|
    ensures forall j, k | 0 <= j < |d| && 0 <= k < |d| :: Stages(d, i)[j][k] <= d[j][k]
  {
    if i > 0 {
      StagesNeverIncrease(d, i - 1);
      var s := Stages(d, i - 1);
      forall j, k | 0 <= j < |d| && 0 <= k < |d| ensures Stages(d, i)[j][k] <= d[j][k] {
        assert Stages(d, i)[j][k] == Min(s[j][k], s[j][i - 1] + s[i - 1][k]);
      }
    }
  }

  /** A zero diagonal stays zero when no entry is negative. */
  lemma {:induction false} StagesKeepDiagonal(d: seq<seq<int>>, i: nat)
    requires NonNegative(d) && i <= |d|
    requires forall j | 0 <= j < |d| :: d[j][j] == 0
    ensures forall j | 0 <= j < |d| :: Stages(d, i)[j][j] == 0
  {
    if i > 0 {
      StagesKeepDiagonal(d, i - 1);
      StagesNonNegative(d, i - 1);
      var s := Stages(d, i - 1);
      forall j | 0 <= j < |d| ensures Stages(d, i)[j][j] == 0 {
        assert Stages(d, i)[j][j] == Min(s[j][j], s[j][i - 1] + s[i - 1][j]);
        assert s[j][i - 1] >= 0 && s[i - 1][j] >= 0;
      }
    }
  }

  /** One detour: after the pass through `m`, the entry from `j` to `k` is
      at most the detour through an earlier valve `p` or through `m`. */
  lemma RelaxTriangleAt(s: seq<seq<int>>, m: nat, p: nat, j: nat, k: nat)
    requires NonNegative(s) && TriangleBelow(s, m) && p <= m < |s| && j < |s| && k < |s|
    ensures var r := RelaxVia(s, m); r[j][k] <= Detour(r, j, p, k)
  {
    var r := RelaxVia(s, m);
    assert r[j][k] <= s[j][m] + s[m][k];
    assert Detour(r, j, p, k) == r[j][p] + r[p][k];
    assert r[j][p] == Min(s[j][p], s[j][m] + s[m][p]);
    assert r[p][k] == Min(s[p][k], s[p][m] + s[m][k]);
    if p < m {
      assert s[j][k] <= Detour(s, j, p, k);
      assert s[m][k] <= Detour(s, m, p, k);
      assert s[j][m] <= Detour(s, j, p, m);
      assert s[m][p] >= 0 && s[p][m] >= 0;
    } else {
      assert s[m][m] >= 0;
      assert r[j][m] == s[j][m] && r[m][k] == s[m][k];
    }
  }

  /** One pass through `m` keeps the triangle inequality through each
      earlier valve and establishes it through `m`. */
  lemma RelaxTriangle(s: seq<seq<int>>, m: nat)
    requires NonNegative(s) && TriangleBelow(s, m) && m < |s|
    ensures TriangleBelow(RelaxVia(s, m), m + 1)
  {
    forall p, j, k | 0 <= p < m + 1 && 0 <= j < |s| && 0 <= k < |s|
      ensures RelaxVia(s, m)[j][k] <= Detour(RelaxVia(s, m), j, p, k)
    {
      RelaxTriangleAt(s, m, p, j, k);
    }
  }

  /** After the passes for `0 .. i - 1`, no detour through one of those
      valves is shorter than the stored distance. */
  lemma {:induction false} StagesTriangle(d: seq<seq<int>>, i: nat)
    requires NonNegative(d) && i <= |d|
    ensures TriangleBelow(Stages(d, i), i)
  {
    if i > 0 {
      assert Stages(d, i) == RelaxVia(Stages(d, i - 1), i - 1);
      StagesTriangle(d, i - 1);
      StagesNonNegative(d, i - 1);
      RelaxTriangle(Stages(d, i - 1), i - 1);
    }
  }

  /** What `floyd_warshall` promises of a non-negative matrix with a zero
      diagonal: no entry grows, the diagonal stays zero and every entry is
      at most the sum of any two-leg detour. */
  lemma ClosureProperties(d: seq<seq<int>>)
    requires NonNegative(d) && forall j | 0 <= j < |d| :: d[j][j] == 0
    ensures NonNegative(Closure(d))
    ensures forall j | 0 <= j < |d| :: Closure(d)[j][j] == 0
    ensures forall j, k | 0 <= j < |d| && 0 <= k < |d| :: Closure(d)[j][k] <= d[j][k]
    ensures TriangleBelow(Closure(d), |d|)
  {
    StagesNonNegative(d, |d|);
    StagesKeepDiagonal(d, |d|);
    StagesNeverIncrease(d, |d|);
    StagesTriangle(d, |d|);
  }

  /** The array `graph` holds the matrix `d`. */
  ghost predicate Holds(graph: array2<int>, d: seq<seq<int>>)
    reads graph
  {
    && |d| == graph.Length0 == graph.Length1 && Square(d)
    && forall j, k | 0 <= j < graph.Length0 && 0 <= k < graph.Length1 :: graph[j, k] == d[j][k]
  }

  /** `floyd_warshall`: for each intermediate valve `i`, each row `j` reads
      its distance to `i` once and then relaxes its whole row in place. */
  method FloydWarshall(graph: array2<int>, ghost d: seq<seq<int>>)
    requires Holds(graph, d) && NonNegative(d)
    modifies graph
    ensures Holds(graph, Closure(d))
  {
    var n := graph.Length0;
    for i := 0 to n
      invariant Holds(graph, Stages(d, i))
    {
      ghost var s := Stages(d, i);
      StagesNonNegative(d, i);
      for j := 0 to n
        invariant RowsRelaxed(graph, s, i, j, 0)
      {
        var v2 := graph[j, i];
        for k := 0 to n
          invariant RowsRelaxed(graph, s, i, j, k)
        {
          RelaxEntry(graph, s, i, j, k, v2);
        }
      }
      RelaxedHolds(graph, s, i);
    }
  }

  /** Inside the pass through `m`: the rows above `j` and the first `k`
      entries of row `j` are relaxed, the rest still hold `s`. */
  ghost predicate RowsRelaxed(graph: array2<int>, s: seq<seq<int>>, m: nat, j: nat, k: nat)
    reads graph
    requires Square(s) && m < |s|
  {
    && |s| == graph.Length0 == graph.Length1
    && forall p, q | 0 <= p < |s| && 0 <= q < |s| ::
         graph[p, q] == if p < j || (p == j && q < k) then Min(s[p][q], s[p][m] + s[m][q]) else s[p][q]
  }

  /** One write of the innermost loop, `graph[j][k] = min(graph[j][k], v2 +
      graph[i][k])`: the row of `m` it reads is unchanged by the pass since
      no entry is negative. */
  method RelaxEntry(graph: array2<int>, ghost s: seq<seq<int>>, m: nat, j: nat, k: nat, v2: int)
    requires NonNegative(s) && m < |s| && j < |s| && k < |s|
    requires RowsRelaxed(graph, s, m, j, k) && v2 == s[j][m]
    modifies graph
    ensures RowsRelaxed(graph, s, m, j, k + 1)
    ensures k + 1 == |s| ==> RowsRelaxed(graph, s, m, j + 1, 0)
  {
    assert graph[m, k] == s[m][k] by {
      assert s[m][m] >= 0;
    }
    graph[j, k] := Min(graph[j, k], v2 + graph[m, k]);
  }

  /** At the end of the pass through `m` the array holds the next stage. */
  lemma RelaxedHolds(graph: array2<int>, s: seq<seq<int>>, m: nat)
    requires Square(s) && m < |s| && RowsRelaxed(graph, s, m, |s|, 0)
    ensures Holds(graph, RelaxVia(s, m))
  {
  }

  // ---------------------------------------------------------------------------
  // The search over routes.

  /** The indices of the valves with a positive rate, in table order. */
  function NonBrokenValves(graph: seq<Valve>): (r: seq<nat>)
    ensures forall i | 0 <= i < |r| :: r[i] < |graph| && graph[r[i]].rate > 0
    ensures forall i | 0 <= i < |graph| && graph[i].rate > 0 :: i in r
    ensures forall i, j | 0 <= i < j < |r| :: r[i] < r[j]
  {
    if graph == [] then []
    else
      var rest := NonBrokenValves(graph[..|graph| - 1]);
      if graph[|graph| - 1].rate > 0 then rest + [|graph| - 1] else rest
  }

  function Rates(graph: seq<Valve>): (r: seq<int>)
    ensures |r| == |graph| && forall i | 0 <= i < |graph| :: r[i] == graph[i].rate
  {
    seq(|graph|, i requires 0 <= i < |graph| => graph[i].rate)
  }

  /** The first index of a valve with the given name (`position`). */
  function Position(graph: seq<Valve>, name: string): (r: Option<nat>)
    ensures r.None? <==> forall i | 0 <= i < |graph| :: graph[i].name != name
    ensures r.Some? ==> r.value < |graph| && graph[r.value].name == name
                        && forall i | 0 <= i < r.value :: graph[i].name != name
  {
    if graph == [] then None
    else if graph[0].name == name then Some(0)
    else match Position(graph[1..], name)
      case None => None
      case Some(i) => Some(i + 1)
  }

  datatype Context = Context(nonBrokenValves: seq<nat>, distances: seq<seq<int>>, rates: seq<int>)

  /** A route record: the valves opened so far and the pressure they
      release. */
  datatype Permutation = Permutation(permutation: set<nat>, score: int)

  /** The search's view of the puzzle: non-negative distances between the
      valves, one rate per valve, at most 64 valves (the bit set is a `u64`)
      and working valves that are valve indices. */
  ghost predicate ValidContext(ctx: Context)
  {
    && |ctx.rates| == |ctx.distances| <= 64
    && NonNegative(ctx.distances)
    && forall i | 0 <= i < |ctx.nonBrokenValves| :: ctx.nonBrokenValves[i] < |ctx.rates|
  }

  /** Whether `find_permutations` at `valve` descends into `next` with
      `minutes` left and `visited` already opened. */
  predicate Descends(ctx: Context, valve: nat, visited: set<nat>, minutes: int, next: nat)
    requires |ctx.distances| == |ctx.rates| && Square(ctx.distances) && valve < |ctx.rates| && next < |ctx.rates|
  {
    next in ctx.nonBrokenValves && next !in visited && minutes - (ctx.distances[valve][next] + 1) >= 0
  }

  /** The records `find_permutations` pushes, in order: the record of the
      call itself, then those of each child in index order. */
  ghost function Enumerate(ctx: Context, valve: nat, visited: set<nat>, score: int, minutes: int): seq<Permutation>
    requires ValidContext(ctx) && valve < |ctx.rates| && minutes >= 0
    decreases minutes, 1, 0
  {
    var openSet := visited + {valve};
    var newScore := score + minutes * ctx.rates[valve];
    [Permutation(openSet, newScore)] + Children(ctx, valve, openSet, newScore, minutes, |ctx.rates|)
  }

  /** The records pushed by the children `0 .. k - 1` of a call. */
  ghost function Children(ctx: Context, valve: nat, openSet: set<nat>, score: int, minutes: int, k: nat): seq<Permutation>
    requires ValidContext(ctx) && valve < |ctx.rates| && minutes >= 0 && k <= |ctx.rates|
    decreases minutes, 0, k
  {
    if k == 0 then []
    else
      var next := k - 1;
      Children(ctx, valve, openSet, score, minutes, k - 1)
        + if Descends(ctx, valve, openSet, minutes, next)
          then Enumerate(ctx, next, openSet, score, minutes - (ctx.distances[valve][next] + 1))
          else []
  }

  /** `find_permutations`: records the call's own route, then tries every
      working valve not yet opened that can still be reached in time. */
  method FindPermutations(ctx: Context, permutations: seq<Permutation>, valve: nat, visited: set<nat>,
                          permutation: Permutation, minutes: int)
    returns (newPermutations: seq<Permutation>)
    requires ValidContext(ctx) && valve < |ctx.rates| && minutes >= 0
    ensures newPermutations == permutations + Enumerate(ctx, valve, visited, permutation.score, minutes)
    decreases minutes, 1
  {
    var newVisited := visited + {valve};
    var newScore := permutation.score + minutes * ctx.rates[valve];
    var newPermutation := Permutation(newVisited, newScore);
    newPermutations := permutations + [newPermutation];
    ghost var prefix := newPermutations;
    var row := ctx.distances[valve];
    for nextValve := 0 to |row|
      invariant newPermutations == prefix + Children(ctx, valve, newVisited, newScore, minutes, nextValve)
    {
      if nextValve in ctx.nonBrokenValves {
        var isValveVisited := nextValve in newVisited;
        if !isValveVisited {
          var newMinutes := minutes - (row[nextValve] + 1);
          if newMinutes >= 0 {
            ghost var children := Children(ctx, valve, newVisited, newScore, minutes, nextValve);
            newPermutations :=
              FindPermutations(ctx, newPermutations, nextValve, newVisited, newPermutation, newMinutes);
            assert newPermutations
                   == prefix + (children + Enumerate(ctx, nextValve, newVisited, newScore, newMinutes));
          }
        }
      }
    }
    assert prefix + Children(ctx, valve, newVisited, newScore, minutes, |row|)
           == permutations + Enumerate(ctx, valve, visited, permutation.score, minutes);
  }

  /** Every record of a call opens the call's valve on top of `visited`,
      and adds only working valves to it. */
  lemma {:induction false} EnumerateOpens(ctx: Context, valve: nat, visited: set<nat>, score: int, minutes: int)
    requires ValidContext(ctx) && valve < |ctx.rates| && minutes >= 0
    ensures forall p | p in Enumerate(ctx, valve, visited, score, minutes) ::
              visited + {valve} <= p.permutation
              && forall v | v in p.permutation :: v in visited || v == valve || v in ctx.nonBrokenValves
    decreases minutes, 1, 0
  {
    ChildrenOpen(ctx, valve, visited + {valve}, score + minutes * ctx.rates[valve], minutes, |ctx.rates|);
  }

  lemma {:induction false} ChildrenOpen(ctx: Context, valve: nat, openSet: set<nat>, score: int, minutes: int, k: nat)
    requires ValidContext(ctx) && valve < |ctx.rates| && minutes >= 0 && k <= |ctx.rates|
    ensures forall p | p in Children(ctx, valve, openSet, score, minutes, k) ::
              openSet <= p.permutation && forall v | v in p.permutation :: v in openSet || v in ctx.nonBrokenValves
    decreases minutes, 0, k
  {
    if k > 0 {
      var next := k - 1;
      ChildrenOpen(ctx, valve, openSet, score, minutes, k - 1);
      if Descends(ctx, valve, openSet, minutes, next) {
        EnumerateOpens(ctx, next, openSet, score, minutes - (ctx.distances[valve][next] + 1));
      }
    }
  }

  /** With non-negative rates, every record of a call scores at least what
      the call started from. */
  lemma {:induction false} EnumerateScores(ctx: Context, valve: nat, visited: set<nat>, score: int, minutes: int)
    requires ValidContext(ctx) && valve < |ctx.rates| && minutes >= 0
    requires forall i | 0 <= i < |ctx.rates| :: ctx.rates[i] >= 0
    ensures forall p | p in Enumerate(ctx, valve, visited, score, minutes) :: p.score >= score
    decreases minutes, 1, 0
  {
    ChildrenScore(ctx, valve, visited + {valve}, score + minutes * ctx.rates[valve], minutes, |ctx.rates|);
  }

  lemma {:induction false} ChildrenScore(ctx: Context, valve: nat, openSet: set<nat>, score: int, minutes: int, k: nat)
    requires ValidContext(ctx) && valve < |ctx.rates| && minutes >= 0 && k <= |ctx.rates|
    requires forall i | 0 <= i < |ctx.rates| :: ctx.rates[i] >= 0
    ensures forall p | p in Children(ctx, valve, openSet, score, minutes, k) :: p.score >= score
    decreases minutes, 0, k
  {
    if k > 0 {
      var next := k - 1;
      ChildrenScore(ctx, valve, openSet, score, minutes, k - 1);
      if Descends(ctx, valve, openSet, minutes, next) {
        EnumerateScores(ctx, next, openSet, score, minutes - (ctx.distances[valve][next] + 1));
      }
    }
  }

  /** The first record of a call is its own route: the call's valve
      openSet, and the pressure it releases over the minutes left added. */
  lemma EnumerateRecordsSelfFirst(ctx: Context, valve: nat, visited: set<nat>, score: int, minutes: int)
    requires ValidContext(ctx) && valve < |ctx.rates| && minutes >= 0
    ensures var ps := Enumerate(ctx, valve, visited, score, minutes);
            |ps| >= 1 && ps[0] == Permutation(visited + {valve}, score + minutes * ctx.rates[valve])
  {
  }

  // ---------------------------------------------------------------------------
  // The pairing of two routes.

  /** Two different records whose valve sets, without the start valve, have
      nothing in common. */
  ghost predicate Disjoint(perms: seq<Permutation>, start: nat, i: int, j: int)
    requires 0 <= i < |perms| && 0 <= j < |perms|
  {
    i != j && (perms[i].permutation - {start}) * (perms[j].permutation - {start}) == {}
  }

  /** `m` is the best total of two disjoint records, or 0 when none is
      positive. */
  ghost predicate IsBestPair(perms: seq<Permutation>, start: nat, m: int)
  {
    && m >= 0
    && (forall i, j | 0 <= i < |perms| && 0 <= j < |perms| && Disjoint(perms, start, i, j) ::
          perms[i].score + perms[j].score <= m)
    && (m == 0 || exists i, j | 0 <= i < |perms| && 0 <= j < |perms| && Disjoint(perms, start, i, j) ::
          perms[i].score + perms[j].score == m)
  }

  /** The best pair is determined by the records. */
  lemma BestPairUnique(perms: seq<Permutation>, start: nat, m1: int, m2: int)
    requires IsBestPair(perms, start, m1) && IsBestPair(perms, start, m2)
    ensures m1 == m2
  {
  }

  /** The loop over all ordered pairs of records in `main`. */
  method BestPair(perms: seq<Permutation>, start: nat) returns (max: int)
    ensures IsBestPair(perms, start, max)
  {
    max := 0;
    for i := 0 to |perms|
      invariant max >= 0
      invariant forall p, q | 0 <= p < i && 0 <= q < |perms| && Disjoint(perms, start, p, q) ::
                  perms[p].score + perms[q].score <= max
      invariant max == 0 || exists p, q | 0 <= p < |perms| && 0 <= q < |perms| && Disjoint(perms, start, p, q) ::
                  perms[p].score + perms[q].score == max
    {
      for j := 0 to |perms|
        invariant max >= 0
        invariant forall p, q | 0 <= p < i && 0 <= q < |perms| && Disjoint(perms, start, p, q) ::
                    perms[p].score + perms[q].score <= max
        invariant forall q | 0 <= q < j && Disjoint(perms, start, i, q) :: perms[i].score + perms[q].score <= max
        invariant max == 0 || exists p, q | 0 <= p < |perms| && 0 <= q < |perms| && Disjoint(perms, start, p, q) ::
                    perms[p].score + perms[q].score == max
      {
        if i != j {
          var commonBits := (perms[i].permutation - {start}) * (perms[j].permutation - {start});
          if commonBits == {} {
            if perms[i].score + perms[j].score > max {
              max := perms[i].score + perms[j].score;
            }
          }
        }
      }
    }
  }

  // ---------------------------------------------------------------------------
  // `main`.

  /** The context the search runs on: the working valves, the closed
      distance matrix and the rates. */
  ghost function SearchContext(graph: seq<Valve>): Context
  {
    Context(NonBrokenValves(graph), Closure(InitialDistances(graph)), Rates(graph))
  }

  lemma SearchContextValid(graph: seq<Valve>)
    requires |graph| <= 64
    ensures ValidContext(SearchContext(graph))
  {
    ClosureProperties(InitialDistances(graph));
  }

  /** Copies the initial matrix into the buffer `floyd_warshall` works on. */
  method NewMatrix(d: seq<seq<int>>) returns (graph: array2<int>)
    requires Square(d)
    ensures fresh(graph) && Holds(graph, d)
  {
    graph := new int[|d|, |d|]((j, k) requires 0 <= j < |d| && 0 <= k < |d| => d[j][k]);
  }

  /** Reads the buffer back as the matrix the context owns. */
  method MatrixOf(graph: array2<int>, ghost d: seq<seq<int>>) returns (r: seq<seq<int>>)
    requires Holds(graph, d)
    ensures r == d
  {
    var n := graph.Length0;
    r := [];
    for j := 0 to n
      invariant |r| == j && forall p | 0 <= p < j :: r[p] == d[p]
    {
      var row := [];
      for k := 0 to n
        invariant |row| == k && forall q | 0 <= q < k :: row[q] == d[j][q]
      {
        row := row + [graph[j, k]];
      }
      r := r + [row];
    }
  }

  /** The distance matrix of `main`: built from the tunnels, then closed
      in place by `floyd_warshall`. */
  method ShortestDistances(graph: seq<Valve>) returns (distances: seq<seq<int>>)
    ensures distances == Closure(InitialDistances(graph))
  {
    var init := InitialDistances(graph);
    var matrix := NewMatrix(init);
    FloydWarshall(matrix, init);
    distances := MatrixOf(matrix, Closure(init));
  }

  /** The answer: build and close the distance matrix, enumerate the routes
      from `AA` with 26 minutes, nothing opened and no pressure, and pair
      them. A missing `AA` is an error; more than 64 valves do not fit the
      bit set. */
  method Solve(graph: seq<Valve>) returns (r: Option<int>)
    requires |graph| <= 64
    ensures Position(graph, "AA").None? ==> r.None?
    ensures Position(graph, "AA").Some? ==>
              && ValidContext(SearchContext(graph))
              && r.Some?
              && IsBestPair(Enumerate(SearchContext(graph), Position(graph, "AA").value, {}, 0, 26),
                            Position(graph, "AA").value, r.value)
  {
    var distances := ShortestDistances(graph);
    var nonBroken := NonBrokenValves(graph);
    var start := Position(graph, "AA");
    if start.None? {
      return None;
    }
    var ctx := Context(nonBroken, distances, Rates(graph));
    assert ctx == SearchContext(graph);
    SearchContextValid(graph);
    var permutations := FindPermutations(ctx, [], start.value, {}, Permutation({}, 0), 26);
    assert permutations == Enumerate(SearchContext(graph), start.value, {}, 0, 26);
    var max := BestPair(permutations, start.value);
    return Some(max);
  }
}
