/** Day 8: a grid of tree heights. A tree is visible when every tree
    between it and an edge, in one of the four directions, is lower; its
    scenic score multiplies how many trees it sees in each direction. */
module Day08 {
  import opened Common

  /** The map is a non-empty list of rows, all as wide as the first. */
  predicate Rectangular(grid: seq<seq<int>>)
  {
    |grid| >= 1 && forall y | 0 <= y < |grid| :: |grid[y]| == |grid[0]|
  }

  // ---------------------------------------------------------------------------
  // Walking from a tree in one direction.

  /** Step `k` of the walk from `(px, py)` in direction `(dx, dy)` is on the
      grid. */
  predicate InRay(grid: seq<seq<int>>, px: int, py: int, dx: int, dy: int, k: nat)
    requires |grid| >= 1
  {
    0 <= px + k * dx < |grid[0]| && 0 <= py + k * dy < |grid|
  }

  /** The height of the tree at step `k` of the walk. */
  function Tree(grid: seq<seq<int>>, px: int, py: int, dx: int, dy: int, k: nat): int
    requires Rectangular(grid) && InRay(grid, px, py, dx, dy, k)
  {
    grid[py + k * dy][px + k * dx]
  }

  /** Every tree on the walk to the edge is lower than the tree at the
      start. */
  ghost predicate ClearRay(grid: seq<seq<int>>, px: nat, py: nat, dx: int, dy: int)
    requires Rectangular(grid) && py < |grid| && px < |grid[0]|
  {
    forall k: nat | 1 <= k && InRay(grid, px, py, dx, dy, k) :: Tree(grid, px, py, dx, dy, k) < grid[py][px]
  }

  /** On one axis, once a walk has left the range `0..n` it never comes
      back. */
  lemma AxisLeaves(p: int, d: int, k: nat, j: nat, n: int)
    requires 0 <= p < n && k <= j && !(0 <= p + k * d < n)
    ensures !(0 <= p + j * d < n)
  {
    assert j * d == k * d + (j - k) * d;
    if d >= 0 {
      assert (j - k) * d >= 0 && k * d >= 0;
    } else {
      assert (j - k) * d <= 0 && k * d <= 0;
    }
  }

  /** A walk that has left the grid at step `k` is on the map only before. */
  lemma RayInside(grid: seq<seq<int>>, px: nat, py: nat, dx: int, dy: int, k: nat)
    requires |grid| >= 1 && py < |grid| && px < |grid[0]| && !InRay(grid, px, py, dx, dy, k)
    ensures forall j: nat | InRay(grid, px, py, dx, dy, j) :: j < k
  {
    forall j: nat | k <= j ensures !InRay(grid, px, py, dx, dy, j) {
      if 0 <= px + k * dx < |grid[0]| {
        AxisLeaves(py, dy, k, j, |grid|);
      } else {
        AxisLeaves(px, dx, k, j, |grid[0]|);
      }
    }
  }

  /** What is left to walk on one axis; it shrinks with every step in a
      direction that moves on that axis. */
  function Room(x: int, d: int, n: int): int
  {
    if d > 0 then n - x else if d < 0 then x + 1 else 0
  }

  /** `has_smaller_trees_in_direction`: walk until leaving the grid (the tree
      is visible from that side) or meeting a tree at least as high. */
  method HasSmallerTrees(grid: seq<seq<int>>, px: nat, py: nat, dx: int, dy: int) returns (r: bool)
    requires Rectangular(grid) && py < |grid| && px < |grid[0]| && (dx != 0 || dy != 0)
    ensures r <==> ClearRay(grid, px, py, dx, dy)
  {
    var height := grid[py][px];
    var w, h := |grid[0]|, |grid|;
    var x, y := px + dx, py + dy;
    ghost var k: nat := 1;
    while 0 <= x < w && 0 <= y < h && grid[y][x] < height
      invariant k >= 1 && x == px + k * dx && y == py + k * dy
      invariant forall j: nat | 1 <= j < k :: InRay(grid, px, py, dx, dy, j) && Tree(grid, px, py, dx, dy, j) < height
      decreases Room(x, dx, w) + Room(y, dy, h)
    {
      x, y, k := x + dx, y + dy, k + 1;
    }
    r := !(0 <= x < w && 0 <= y < h);
    if r {
      RayInside(grid, px, py, dx, dy, k);
    } else {
      assert InRay(grid, px, py, dx, dy, k) && Tree(grid, px, py, dx, dy, k) >= height;
    }
  }

  /** The number of trees seen from step `k` on, the steps before being on
      the grid and lower. */
  function ViewFrom(grid: seq<seq<int>>, px: nat, py: nat, dx: int, dy: int, k: nat): nat
    requires Rectangular(grid) && py < |grid| && px < |grid[0]| && (dx != 0 || dy != 0) && k >= 1
    requires k == 1 || InRay(grid, px, py, dx, dy, k - 1)
    decreases Room(px + (k - 1) * dx, dx, |grid[0]|) + Room(py + (k - 1) * dy, dy, |grid|)
  {
    if !InRay(grid, px, py, dx, dy, k) then k - 1
    else if Tree(grid, px, py, dx, dy, k) >= grid[py][px] then k
    else ViewFrom(grid, px, py, dx, dy, k + 1)
  }

  /** The number of trees seen from `(px, py)` in direction `(dx, dy)`. */
  function ViewCount(grid: seq<seq<int>>, px: nat, py: nat, dx: int, dy: int): nat
    requires Rectangular(grid) && py < |grid| && px < |grid[0]| && (dx != 0 || dy != 0)
  {
    ViewFrom(grid, px, py, dx, dy, 1)
  }

  /** `r` trees are seen: the trees before the `r`-th are on the map and
      lower, the `r`-th is on the map, and it blocks the view or is the
      last before the edge. */
  ghost predicate IsViewCount(grid: seq<seq<int>>, px: nat, py: nat, dx: int, dy: int, r: nat)
    requires Rectangular(grid) && py < |grid| && px < |grid[0]|
  {
    && (forall j: nat | 1 <= j < r :: InRay(grid, px, py, dx, dy, j) && Tree(grid, px, py, dx, dy, j) < grid[py][px])
    && (r == 0 || InRay(grid, px, py, dx, dy, r))
    && ((r >= 1 && Tree(grid, px, py, dx, dy, r) >= grid[py][px]) || !InRay(grid, px, py, dx, dy, r + 1))
  }

  lemma {:induction false} ViewFromMeaning(grid: seq<seq<int>>, px: nat, py: nat, dx: int, dy: int, k: nat)
    requires Rectangular(grid) && py < |grid| && px < |grid[0]| && (dx != 0 || dy != 0) && k >= 1
    requires k == 1 || InRay(grid, px, py, dx, dy, k - 1)
    requires forall j: nat | 1 <= j < k :: InRay(grid, px, py, dx, dy, j) && Tree(grid, px, py, dx, dy, j) < grid[py][px]
    ensures IsViewCount(grid, px, py, dx, dy, ViewFrom(grid, px, py, dx, dy, k))
    decreases Room(px + (k - 1) * dx, dx, |grid[0]|) + Room(py + (k - 1) * dy, dy, |grid|)
  {
    if InRay(grid, px, py, dx, dy, k) && Tree(grid, px, py, dx, dy, k) < grid[py][px] {
      ViewFromMeaning(grid, px, py, dx, dy, k + 1);
    }
  }

  /** The view count counts the trees up to and including the first one at
      least as high, or up to the edge; it never exceeds the distance to
      the edge. */
  lemma ViewCountMeaning(grid: seq<seq<int>>, px: nat, py: nat, dx: int, dy: int)
    requires Rectangular(grid) && py < |grid| && px < |grid[0]| && (dx != 0 || dy != 0)
    ensures IsViewCount(grid, px, py, dx, dy, ViewCount(grid, px, py, dx, dy))
  {
    ViewFromMeaning(grid, px, py, dx, dy, 1);
  }

  /** The description of a view count fixes it. */
  lemma ViewCountUnique(grid: seq<seq<int>>, px: nat, py: nat, dx: int, dy: int, r1: nat, r2: nat)
    requires Rectangular(grid) && py < |grid| && px < |grid[0]|
    requires IsViewCount(grid, px, py, dx, dy, r1) && IsViewCount(grid, px, py, dx, dy, r2)
    ensures r1 == r2
  {
  }

  /** A tree sees all the way to the edge exactly when it is visible from
      that side. */
  lemma ClearIffViewReachesEdge(grid: seq<seq<int>>, px: nat, py: nat, dx: int, dy: int)
    requires Rectangular(grid) && py < |grid| && px < |grid[0]| && (dx != 0 || dy != 0)
    ensures var r := ViewCount(grid, px, py, dx, dy);
            ClearRay(grid, px, py, dx, dy)
            <==> !InRay(grid, px, py, dx, dy, r + 1) && (r == 0 || (InRay(grid, px, py, dx, dy, r) && Tree(grid, px, py, dx, dy, r) < grid[py][px]))
  {
    var r := ViewCount(grid, px, py, dx, dy);
    ViewCountMeaning(grid, px, py, dx, dy);
    if !InRay(grid, px, py, dx, dy, r + 1) && (r == 0 || (InRay(grid, px, py, dx, dy, r) && Tree(grid, px, py, dx, dy, r) < grid[py][px])) {
      RayInside(grid, px, py, dx, dy, r + 1);
    }
  }

  /** `num_trees_viewed_in_direction`: the same walk, counting the trees
      passed and the one that blocks the view. */
  method NumTreesViewed(grid: seq<seq<int>>, px: nat, py: nat, dx: int, dy: int) returns (num: int)
    requires Rectangular(grid) && py < |grid| && px < |grid[0]| && (dx != 0 || dy != 0)
    ensures num == ViewCount(grid, px, py, dx, dy)
  {
    var height := grid[py][px];
    var w, h := |grid[0]|, |grid|;
    var x, y := px + dx, py + dy;
    num := 0;
    while 0 <= x < w && 0 <= y < h && grid[y][x] < height
      invariant x == px + (num + 1) * dx && y == py + (num + 1) * dy && num >= 0
      invariant num == 0 || InRay(grid, px, py, dx, dy, num)
      invariant ViewFrom(grid, px, py, dx, dy, num + 1) == ViewCount(grid, px, py, dx, dy)
      decreases Room(x, dx, w) + Room(y, dy, h)
    {
      x, y, num := x + dx, y + dy, num + 1;
    }
    if 0 <= x < w && 0 <= y < h {
      num := num + 1;
    }
  }

  // ---------------------------------------------------------------------------
  // The whole grid.

  /** Visible from at least one side: up, right, down or left. */
  ghost predicate Visible(grid: seq<seq<int>>, x: nat, y: nat)
    requires Rectangular(grid) && y < |grid| && x < |grid[0]|
  {
    ClearRay(grid, x, y, 0, -1) || ClearRay(grid, x, y, 1, 0) || ClearRay(grid, x, y, 0, 1) || ClearRay(grid, x, y, -1, 0)
  }

  /** The scenic score: the product of the four view counts. */
  function Score(grid: seq<seq<int>>, x: nat, y: nat): nat
    requires Rectangular(grid) && y < |grid| && x < |grid[0]|
  {
    ViewCount(grid, x, y, 0, -1) * ViewCount(grid, x, y, 1, 0) * ViewCount(grid, x, y, 0, 1) * ViewCount(grid, x, y, -1, 0)
  }

  /** The exclusive end of `1..n - 1`: the range is empty below 3. */
  function InnerEnd(n: nat): nat
  {
    if n >= 2 then n - 1 else 1
  }

  /** The visible trees among columns `1..n` of row `y`. */
  ghost function VisibleInRow(grid: seq<seq<int>>, y: nat, n: nat): nat
    requires Rectangular(grid) && y < |grid| && 1 <= n <= InnerEnd(|grid[0]|)
  {
    if n == 1 then 0 else VisibleInRow(grid, y, n - 1) + (if Visible(grid, n - 1, y) then 1 else 0)
  }

  /** The visible interior trees of rows `1..n`. */
  ghost function VisibleInRows(grid: seq<seq<int>>, n: nat): nat
    requires Rectangular(grid) && 1 <= n <= InnerEnd(|grid|)
  {
    if n == 1 then 0 else VisibleInRows(grid, n - 1) + VisibleInRow(grid, n - 1, InnerEnd(|grid[0]|))
  }

  /** The best score among columns `1..n` of row `y`, or 0. */
  function BestInRow(grid: seq<seq<int>>, y: nat, n: nat): nat
    requires Rectangular(grid) && y < |grid| && 1 <= n <= InnerEnd(|grid[0]|)
  {
    if n == 1 then 0 else Max(BestInRow(grid, y, n - 1), Score(grid, n - 1, y))
  }

  /** The best score of the interior trees of rows `1..n`, or 0. */
  function BestInRows(grid: seq<seq<int>>, n: nat): nat
    requires Rectangular(grid) && 1 <= n <= InnerEnd(|grid|)
  {
    if n == 1 then 0 else Max(BestInRows(grid, n - 1), BestInRow(grid, n - 1, InnerEnd(|grid[0]|)))
  }

  /** The counts of `main` cannot go below zero: `2w + 2h - 4` and `w - 1`
      are `usize` expressions. */
  predicate NoUnderflow(grid: seq<seq<int>>)
    requires |grid| >= 1
  {
    2 * |grid[0]| + 2 * |grid| >= 4 && (|grid| <= 2 || |grid[0]| >= 1)
  }

  /** `main` after reading the grid: count the border trees, then every
      visible interior tree; keep the best scenic score of the interior
      trees. */
  method Solve(grid: seq<seq<int>>) returns (visible: int, best: int)
    requires Rectangular(grid) && NoUnderflow(grid)
    ensures visible == BorderCount(|grid[0]|, |grid|) + VisibleInRows(grid, InnerEnd(|grid|))
    ensures best == BestInRows(grid, InnerEnd(|grid|))
  {
    var w, h := |grid[0]|, |grid|;
    visible := BorderCount(w, h);
    best := 0;
    var y := 1;
    while y < h - 1
      invariant 1 <= y <= InnerEnd(h)
      invariant visible == BorderCount(w, h) + VisibleInRows(grid, y)
      invariant best == BestInRows(grid, y)
    {
      var rowVisible, rowBest := SolveRow(grid, y);
      visible := visible + rowVisible;
      best := Max(best, rowBest);
      y := y + 1;
    }
  }

  /** The inner loop of `main` over the interior trees of row `y`. */
  method SolveRow(grid: seq<seq<int>>, y: nat) returns (visible: int, best: int)
    requires Rectangular(grid) && 1 <= y < |grid| - 1
    ensures visible == VisibleInRow(grid, y, InnerEnd(|grid[0]|))
    ensures best == BestInRow(grid, y, InnerEnd(|grid[0]|))
  {
    var w := |grid[0]|;
    visible, best := 0, 0;
    var x := 1;
    while x < w - 1
      invariant 1 <= x <= InnerEnd(w)
      invariant visible == VisibleInRow(grid, y, x) && best == BestInRow(grid, y, x)
    {
      var up := HasSmallerTrees(grid, x, y, 0, -1);
      var right := HasSmallerTrees(grid, x, y, 1, 0);
      var down := HasSmallerTrees(grid, x, y, 0, 1);
      var left := HasSmallerTrees(grid, x, y, -1, 0);
      if up || right || down || left {
        visible := visible + 1;
      }
      var score := 1;
      var n := NumTreesViewed(grid, x, y, 0, -1);
      score := score * n;
      n := NumTreesViewed(grid, x, y, 1, 0);
      score := score * n;
      n := NumTreesViewed(grid, x, y, 0, 1);
      score := score * n;
      n := NumTreesViewed(grid, x, y, -1, 0);
      score := score * n;
      if score > best {
        best := score;
      }
      x := x + 1;
    }
  }

  // ---------------------------------------------------------------------------
  // What the answers mean.

  /** The program's count of border trees, `2w + 2h - 4`. */
  function BorderCountAsWritten(w: nat, h: nat): int
  {
    2 * w + 2 * h - 4
  }

  /** The number of trees on the border of a `w` by `h` map. */
  function BorderCount(w: nat, h: nat): nat
  {
    if w == 0 || h == 0 then 0
    else if w == 1 then h
    else if h == 1 then w
    else 2 * w + 2 * h - 4
  }

  /** The program's border count is right on every map of at least two rows
      and two columns, and wrong on a single tree. */
  lemma BorderFormulaAsWritten(w: nat, h: nat)
    ensures w >= 2 && h >= 2 ==> BorderCountAsWritten(w, h) == BorderCount(w, h)
    ensures BorderCountAsWritten(1, 1) == 0 && BorderCount(1, 1) == 1
  {
  }

  /** A tree on the border is visible from the side of its edge. */
  lemma BorderVisible(grid: seq<seq<int>>, x: nat, y: nat)
    requires Rectangular(grid) && y < |grid| && x < |grid[0]|
    requires x == 0 || y == 0 || x == |grid[0]| - 1 || y == |grid| - 1
    ensures Visible(grid, x, y)
  {
    if y == 0 {
      RayInside(grid, x, y, 0, -1, 1);
    } else if x == |grid[0]| - 1 {
      RayInside(grid, x, y, 1, 0, 1);
    } else if y == |grid| - 1 {
      RayInside(grid, x, y, 0, 1, 1);
    } else {
      RayInside(grid, x, y, -1, 0, 1);
    }
  }

  /** The visible trees among columns `0..n` of row `y`. */
  ghost function VisibleCells(grid: seq<seq<int>>, y: nat, n: nat): nat
    requires Rectangular(grid) && y < |grid| && n <= |grid[0]|
  {
    if n == 0 then 0 else VisibleCells(grid, y, n - 1) + (if Visible(grid, n - 1, y) then 1 else 0)
  }

  /** The visible trees of rows `0..n`: the number the puzzle asks for when
      `n` is the height. */
  ghost function VisibleTrees(grid: seq<seq<int>>, n: nat): nat
    requires Rectangular(grid) && n <= |grid|
  {
    if n == 0 then 0 else VisibleTrees(grid, n - 1) + VisibleCells(grid, n - 1, |grid[0]|)
  }

  lemma {:induction false} EdgeRowCount(grid: seq<seq<int>>, y: nat, n: nat)
    requires Rectangular(grid) && (y == 0 || y == |grid| - 1) && y < |grid| && n <= |grid[0]|
    ensures VisibleCells(grid, y, n) == n
  {
    if n > 0 {
      EdgeRowCount(grid, y, n - 1);
      BorderVisible(grid, n - 1, y);
    }
  }

  lemma {:induction false} InnerRowPrefix(grid: seq<seq<int>>, y: nat, n: nat)
    requires Rectangular(grid) && 1 <= y < |grid| - 1 && |grid[0]| >= 1 && 1 <= n <= InnerEnd(|grid[0]|)
    ensures VisibleCells(grid, y, n) == 1 + VisibleInRow(grid, y, n)
  {
    if n == 1 {
      BorderVisible(grid, 0, y);
    } else {
      InnerRowPrefix(grid, y, n - 1);
    }
  }

  /** The trees at the two ends of a row of width `w`. */
  function RowEnds(w: nat): nat
  {
    if w >= 2 then 2 else w
  }

  /** An inner row has its two end trees visible (one when the map is one
      column wide) besides its visible interior trees. */
  lemma InnerRowCount(grid: seq<seq<int>>, y: nat)
    requires Rectangular(grid) && 1 <= y < |grid| - 1
    ensures VisibleCells(grid, y, |grid[0]|) == RowEnds(|grid[0]|) + VisibleInRow(grid, y, InnerEnd(|grid[0]|))
  {
    var w := |grid[0]|;
    if w >= 1 {
      InnerRowPrefix(grid, y, InnerEnd(w));
      if w >= 2 {
        BorderVisible(grid, w - 1, y);
      }
    }
  }

  lemma {:induction false} RowsCount(grid: seq<seq<int>>, n: nat)
    requires Rectangular(grid) && 1 <= n <= InnerEnd(|grid|)
    ensures VisibleTrees(grid, n) == |grid[0]| + (n - 1) * (RowEnds(|grid[0]|)) + VisibleInRows(grid, n)
  {
    if n == 1 {
      EdgeRowCount(grid, 0, |grid[0]|);
    } else {
      RowsCount(grid, n - 1);
      InnerRowCount(grid, n - 1);
      assert (n - 1) * RowEnds(|grid[0]|) == (n - 2) * RowEnds(|grid[0]|) + RowEnds(|grid[0]|);
    }
  }

  /** The border count plus the visible interior trees is the number of
      visible trees on the whole map. */
  lemma VisibleCountIsVisibleTrees(grid: seq<seq<int>>)
    requires Rectangular(grid)
    ensures BorderCount(|grid[0]|, |grid|) + VisibleInRows(grid, InnerEnd(|grid|)) == VisibleTrees(grid, |grid|)
  {
    var w, h := |grid[0]|, |grid|;
    RowsCount(grid, InnerEnd(h));
    if h >= 2 {
      EdgeRowCount(grid, h - 1, w);
      assert VisibleTrees(grid, h) == VisibleTrees(grid, h - 1) + w;
      assert (h - 2) * RowEnds(w) == if w >= 2 then 2 * h - 4 else w * h - 2 * w;
    }
  }

  /** The program's count misses the tree of a one-tree map. */
  lemma SingleTreeMiscounted()
    ensures var grid := [[5]];
            Rectangular(grid)
            && BorderCountAsWritten(1, 1) + VisibleInRows(grid, InnerEnd(1)) == 0
            && VisibleTrees(grid, 1) == 1
  {
    var grid := [[5]];
    VisibleCountIsVisibleTrees(grid);
  }

  lemma {:induction false} BestInRowIsMaximum(grid: seq<seq<int>>, y: nat, n: nat)
    requires Rectangular(grid) && y < |grid| && 1 <= n <= InnerEnd(|grid[0]|)
    ensures forall x | 1 <= x < n :: Score(grid, x, y) <= BestInRow(grid, y, n)
    ensures BestInRow(grid, y, n) == 0 || exists x | 1 <= x < n :: Score(grid, x, y) == BestInRow(grid, y, n)
  {
    if n > 1 {
      BestInRowIsMaximum(grid, y, n - 1);
    }
  }

  /** The best scenic score is the largest score of an interior tree, or 0
      when there is no interior tree. */
  lemma {:induction false} BestIsMaximum(grid: seq<seq<int>>, n: nat)
    requires Rectangular(grid) && 1 <= n <= InnerEnd(|grid|)
    ensures forall x, y | 1 <= y < n && 1 <= x < InnerEnd(|grid[0]|) :: Score(grid, x, y) <= BestInRows(grid, n)
    ensures BestInRows(grid, n) == 0
            || exists x, y | 1 <= y < n && 1 <= x < InnerEnd(|grid[0]|) :: Score(grid, x, y) == BestInRows(grid, n)
  {
    if n > 1 {
      BestIsMaximum(grid, n - 1);
      BestInRowIsMaximum(grid, n - 1, InnerEnd(|grid[0]|));
    }
  }
}
