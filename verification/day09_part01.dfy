/** Day 9, part 1: a rope of two knots. The head moves one cell per step;
    the tail follows whenever it is no longer touching the head, and every
    cell the tail visits is recorded. */
module Day09Part01 {
  import opened Common

  /** `normalize`: the sign of `n`. */
  function Normalize(n: int): (r: int)
    ensures r == 0 <==> n == 0
    ensures r == 1 <==> n > 0
    ensures r == -1 <==> n < 0
  {
    if n < 0 then -1 else if n > 0 then 1 else n
  }

  /** The sign times the number is its absolute value, and the sign of the
      opposite is the opposite sign. */
  lemma NormalizeIsSign(n: int)
    ensures Normalize(n) * n == Abs(n)
    ensures Normalize(-n) == -Normalize(n)
  {
  }

  type Point = (int, int)

  /** One step of the head: `U` and `D` change y, `R` and `L` change x; any
      other letter leaves it in place (the program prints an error). */
  function MoveHead(p: Point, direction: char): Point
  {
    match direction
    case 'U' => (p.0, p.1 + 1)
    case 'D' => (p.0, p.1 - 1)
    case 'R' => (p.0 + 1, p.1)
    case 'L' => (p.0 - 1, p.1)
    case _ => p
  }

  /** A step of a known direction moves the head by exactly one cell. */
  lemma HeadMovesOneCell(p: Point, direction: char)
    ensures var q := MoveHead(p, direction);
            && (direction in "UDRL" ==> Abs(q.0 - p.0) + Abs(q.1 - p.1) == 1)
            && (direction !in "UDRL" ==> q == p)
  {
  }

  /** Touching: at most one cell apart on each axis, diagonals included. */
  predicate Adjacent(a: Point, b: Point)
  {
    Abs(a.0 - b.0) <= 1 && Abs(a.1 - b.1) <= 1
  }

  /** The distance in moves of a king: the larger of the two axis gaps. */
  function Chebyshev(a: Point, b: Point): nat
  {
    if Abs(a.0 - b.0) >= Abs(a.1 - b.1) then Abs(a.0 - b.0) else Abs(a.1 - b.1)
  }

  /** The follow rule: a tail touching the head stays; otherwise it moves
      one cell towards the head on each axis where they differ. */
  function Follow(head: Point, tail: Point): Point
  {
    if Adjacent(head, tail) then tail
    else (tail.0 + Normalize(head.0 - tail.0), tail.1 + Normalize(head.1 - tail.1))
  }

  /** The tail moves only when not touching, by at most one cell on each
      axis, closing the gap by exactly one; from a gap of at most two it
      ends up touching. */
  lemma FollowMeaning(head: Point, tail: Point)
    ensures Adjacent(head, tail) ==> Follow(head, tail) == tail
    ensures Adjacent(Follow(head, tail), tail)
    ensures !Adjacent(head, tail) ==> Chebyshev(head, Follow(head, tail)) == Chebyshev(head, tail) - 1
    ensures Chebyshev(head, tail) <= 2 ==> Adjacent(head, Follow(head, tail))
  {
  }

  /** When a touching head moves by at most one cell on each axis, the
      tail that follows it touches it again. */
  lemma FollowKeepsAdjacent(head: Point, head': Point, tail: Point)
    requires Adjacent(head, tail) && Adjacent(head', head)
    ensures Adjacent(head', Follow(head', tail))
  {
    assert Chebyshev(head', tail) <= 2;
    FollowMeaning(head', tail);
  }

  // ---------------------------------------------------------------------------
  // The simulation.

  datatype Rope = Rope(head: Point, tail: Point)

  const Start := Rope((0, 0), (0, 0))

  /** One step: move the head, then let the tail follow. */
  function Step(r: Rope, direction: char): Rope
  {
    var head := MoveHead(r.head, direction);
    Rope(head, Follow(head, r.tail))
  }

  /** `for _ in 0..steps`: the rope after `steps` steps in one direction
      (none when `steps` is not positive). */
  function RunMove(r: Rope, direction: char, steps: int): Rope
    decreases steps
  {
    if steps <= 0 then r else Step(RunMove(r, direction, steps - 1), direction)
  }

  /** The tail positions after each of those steps. */
  function TailsMove(r: Rope, direction: char, steps: int): set<Point>
    decreases steps
  {
    if steps <= 0 then {} else TailsMove(r, direction, steps - 1) + {RunMove(r, direction, steps).tail}
  }

  /** The rope after a list of moves. */
  function RunMoves(r: Rope, moves: seq<(char, int)>): Rope
  {
    if moves == [] then r
    else
      var last := moves[|moves| - 1];
      RunMove(RunMoves(r, moves[..|moves| - 1]), last.0, last.1)
  }

  /** The tail positions after every step of a list of moves. */
  function TailsMoves(r: Rope, moves: seq<(char, int)>): set<Point>
  {
    if moves == [] then {}
    else
      var last := moves[|moves| - 1];
      TailsMoves(r, moves[..|moves| - 1]) + TailsMove(RunMoves(r, moves[..|moves| - 1]), last.0, last.1)
  }

  /** One step of the loop body: the tail's new cell is recorded only when
      it moves, which adds nothing new when it does not. */
  method StepOnce(head: Point, tail: Point, visited: set<Point>, direction: char)
    returns (head': Point, tail': Point, visited': set<Point>)
    requires tail in visited
    ensures Rope(head', tail') == Step(Rope(head, tail), direction)
    ensures visited' == visited + {tail'}
  {
    head' := MoveHead(head, direction);
    tail' := tail;
    visited' := visited;
    var isTailNextToHead := Abs(head'.0 - tail.0) <= 1 && Abs(head'.1 - tail.1) <= 1;
    if !isTailNextToHead {
      tail' := (tail.0 + Normalize(head'.0 - tail.0), tail.1 + Normalize(head'.1 - tail.1));
      visited' := visited + {tail'};
    }
  }

  /** The steps of one move line, recording the tail when it moves. */
  method ApplyMove(r: Rope, visited: set<Point>, direction: char, steps: int)
    returns (r': Rope, visited': set<Point>)
    requires r.tail in visited
    ensures r' == RunMove(r, direction, steps)
    ensures visited' == visited + TailsMove(r, direction, steps) && r'.tail in visited'
  {
    var head, tail := r.head, r.tail;
    visited' := visited;
    var count := if steps < 0 then 0 else steps;
    var i := 0;
    while i < count
      invariant 0 <= i <= count
      invariant Rope(head, tail) == RunMove(r, direction, i)
      invariant visited' == visited + TailsMove(r, direction, i) && tail in visited'
    {
      head, tail, visited' := StepOnce(head, tail, visited', direction);
      i := i + 1;
    }
    assert RunMove(r, direction, steps) == RunMove(r, direction, count);
    assert TailsMove(r, direction, steps) == TailsMove(r, direction, count);
    r' := Rope(head, tail);
  }

  /** `main` without the drawing: the number of cells the tail visits,
      starting from the origin. */
  method Simulate(moves: seq<(char, int)>) returns (result: nat)
    ensures result == |{(0, 0)} + TailsMoves(Start, moves)|
  {
    var r := Start;
    var visited: set<Point> := {(0, 0)};
    for i := 0 to |moves|
      invariant r == RunMoves(Start, moves[..i])
      invariant visited == {(0, 0)} + TailsMoves(Start, moves[..i]) && r.tail in visited
    {
      assert moves[..i + 1][..i] == moves[..i];
      r, visited := ApplyMove(r, visited, moves[i].0, moves[i].1);
    }
    assert moves[..|moves|] == moves;
    result := |visited|;
  }

  // ---------------------------------------------------------------------------
  // Properties of the simulation.

  lemma StepKeepsAdjacent(r: Rope, direction: char)
    requires Adjacent(r.head, r.tail)
    ensures Adjacent(Step(r, direction).head, Step(r, direction).tail)
  {
    FollowKeepsAdjacent(r.head, MoveHead(r.head, direction), r.tail);
  }

  lemma {:induction false} RunMoveKeepsAdjacent(r: Rope, direction: char, steps: int)
    requires Adjacent(r.head, r.tail)
    ensures Adjacent(RunMove(r, direction, steps).head, RunMove(r, direction, steps).tail)
    decreases steps
  {
    if steps > 0 {
      RunMoveKeepsAdjacent(r, direction, steps - 1);
      StepKeepsAdjacent(RunMove(r, direction, steps - 1), direction);
    }
  }

  /** After any list of moves the tail touches the head. */
  lemma {:induction false} TailStaysAdjacent(moves: seq<(char, int)>)
    ensures Adjacent(RunMoves(Start, moves).head, RunMoves(Start, moves).tail)
  {
    if moves != [] {
      TailStaysAdjacent(moves[..|moves| - 1]);
      RunMoveKeepsAdjacent(RunMoves(Start, moves[..|moves| - 1]), moves[|moves| - 1].0, moves[|moves| - 1].1);
    }
  }

  /** Each step moves the tail by at most one cell on each axis. */
  lemma TailStepsAreSmall(r: Rope, direction: char)
    ensures Adjacent(Step(r, direction).tail, r.tail)
  {
    FollowMeaning(MoveHead(r.head, direction), r.tail);
  }

  /** Every cell the tail stands on after a step is recorded. */
  lemma {:induction false} TailsMoveRecordsAll(r: Rope, direction: char, steps: int, k: int)
    requires 1 <= k <= steps
    ensures RunMove(r, direction, k).tail in TailsMove(r, direction, steps)
    decreases steps
  {
    if k < steps {
      TailsMoveRecordsAll(r, direction, steps - 1, k);
    }
  }

  /** Every recorded cell is one the tail stood on after some step. */
  lemma {:induction false} TailsMoveRecordsOnly(r: Rope, direction: char, steps: int, p: Point)
    requires p in TailsMove(r, direction, steps)
    ensures exists k | 1 <= k <= steps :: RunMove(r, direction, k).tail == p
    decreases steps
  {
    if p != RunMove(r, direction, steps).tail {
      TailsMoveRecordsOnly(r, direction, steps - 1, p);
    }
  }
}
