/** Day 9, part 2: a rope of ten knots. Knot 0 is moved by the direction;
    each later knot, in order, follows the one before it with the follow
    rule of part 1, and only the cells of knot 9 are recorded. */
module Day09Part02 {
  import opened Common
  import opened Day09Part01

  /** Every knot touches the one before it. */
  ghost predicate Connected(rope: seq<Point>)
  {
    forall k | 1 <= k < |rope| :: Adjacent(rope[k - 1], rope[k])
  }

  /** The rope after knots 1 to n - 1 have each followed, in order, the
      knot before them (the inner `for i in 1..10` loop, run up to `n`).
      The head and the knots from `n` on stay where they were. */
  function Pull(rope: seq<Point>, n: nat): (r: seq<Point>)
    requires 1 <= n <= |rope|
    ensures |r| == |rope| && r[0] == rope[0]
    ensures forall k | n <= k < |rope| :: r[k] == rope[k]
  {
    if n == 1 then rope
    else
      var r := Pull(rope, n - 1);
      r[n - 1 := Follow(r[n - 2], r[n - 1])]
  }

  /** One step: move knot 0, then let every other knot follow in order. */
  function Step(rope: seq<Point>, direction: char): (r: seq<Point>)
    requires |rope| >= 1
    ensures |r| == |rope|
  {
    Pull(rope[0 := MoveHead(rope[0], direction)], |rope|)
  }

  /** The last knot of a rope. */
  function Last(rope: seq<Point>): Point
    requires |rope| >= 1
  {
    rope[|rope| - 1]
  }

  function RunMove(rope: seq<Point>, direction: char, steps: int): (r: seq<Point>)
    requires |rope| >= 1
    ensures |r| == |rope|
    decreases steps
  {
    if steps <= 0 then rope else Step(RunMove(rope, direction, steps - 1), direction)
  }

  /** The positions of the last knot after each step of one move. */
  function TailsMove(rope: seq<Point>, direction: char, steps: int): set<Point>
    requires |rope| >= 1
    decreases steps
  {
    if steps <= 0 then {} else TailsMove(rope, direction, steps - 1) + {Last(RunMove(rope, direction, steps))}
  }

  function RunMoves(rope: seq<Point>, moves: seq<(char, int)>): (r: seq<Point>)
    requires |rope| >= 1
    ensures |r| == |rope|
  {
    if moves == [] then rope
    else
      var last := moves[|moves| - 1];
      RunMove(RunMoves(rope, moves[..|moves| - 1]), last.0, last.1)
  }

  /** The positions of the last knot after every step of a list of moves. */
  function TailsMoves(rope: seq<Point>, moves: seq<(char, int)>): set<Point>
    requires |rope| >= 1
  {
    if moves == [] then {}
    else
      var last := moves[|moves| - 1];
      TailsMoves(rope, moves[..|moves| - 1]) + TailsMove(RunMoves(rope, moves[..|moves| - 1]), last.0, last.1)
  }

  /** Ten knots at the origin. */
  const Start: seq<Point> := seq(10, _ => (0, 0))

  /** One step of the outer loop's body: move knot 0, then knots 1 to 9
      follow in order; knot 9's new cell is recorded when it moves. */
  method StepOnce(rope: seq<Point>, visited: set<Point>, direction: char)
    returns (rope': seq<Point>, visited': set<Point>)
    requires |rope| == 10 && rope[9] in visited
    ensures rope' == Step(rope, direction)
    ensures visited' == visited + {rope'[9]}
  {
    rope' := rope[0 := MoveHead(rope[0], direction)];
    ghost var moved := rope';
    visited' := visited;
    for i := 1 to 10
      invariant |rope'| == 10 && rope' == Pull(moved, i)
      invariant visited' == visited + {rope'[9]}
    {
      var head, tail := rope'[i - 1], rope'[i];
      var isTailNextToHead := Abs(head.0 - tail.0) <= 1 && Abs(head.1 - tail.1) <= 1;
      if !isTailNextToHead {
        tail := (tail.0 + Normalize(head.0 - tail.0), tail.1 + Normalize(head.1 - tail.1));
        rope' := rope'[i := tail];
        if i == 9 {
          visited' := visited' + {tail};
        }
      }
    }
  }

  method ApplyMove(rope: seq<Point>, visited: set<Point>, direction: char, steps: int)
    returns (rope': seq<Point>, visited': set<Point>)
    requires |rope| == 10 && rope[9] in visited
    ensures rope' == RunMove(rope, direction, steps)
    ensures visited' == visited + TailsMove(rope, direction, steps) && rope'[9] in visited'
  {
    rope', visited' := rope, visited;
    var count := if steps < 0 then 0 else steps;
    var i := 0;
    while i < count
      invariant 0 <= i <= count
      invariant rope' == RunMove(rope, direction, i)
      invariant visited' == visited + TailsMove(rope, direction, i) && rope'[9] in visited'
    {
      rope', visited' := StepOnce(rope', visited', direction);
      i := i + 1;
    }
    assert RunMove(rope, direction, steps) == RunMove(rope, direction, count);
    assert TailsMove(rope, direction, steps) == TailsMove(rope, direction, count);
  }

  /** `main` without the drawing: the number of cells knot 9 visits,
      starting from the origin. */
  method Simulate(moves: seq<(char, int)>) returns (result: nat)
    ensures result == |{(0, 0)} + TailsMoves(Start, moves)|
  {
    var rope := Start;
    var visited: set<Point> := {(0, 0)};
    for i := 0 to |moves|
      invariant rope == RunMoves(Start, moves[..i])
      invariant visited == {(0, 0)} + TailsMoves(Start, moves[..i]) && rope[9] in visited
    {
      assert moves[..i + 1][..i] == moves[..i];
      rope, visited := ApplyMove(rope, visited, moves[i].0, moves[i].1);
    }
    assert moves[..|moves|] == moves;
    result := |visited|;
  }

  // ---------------------------------------------------------------------------
  // Properties of a step.

  /** Knot 0 moves by the direction; every later knot follows, in order,
      the new position of the knot before it. */
  lemma {:induction false} PullMeaning(rope: seq<Point>, n: nat)
    requires 1 <= n <= |rope|
    ensures forall i | 1 <= i < n :: Pull(rope, n)[i] == Follow(Pull(rope, n)[i - 1], rope[i])
  {
    if n > 1 {
      PullMeaning(rope, n - 1);
    }
  }

  lemma StepMeaning(rope: seq<Point>, direction: char)
    requires |rope| >= 1
    ensures Step(rope, direction)[0] == MoveHead(rope[0], direction)
    ensures forall i | 1 <= i < |rope| :: Step(rope, direction)[i] == Follow(Step(rope, direction)[i - 1], rope[i])
  {
    PullMeaning(rope[0 := MoveHead(rope[0], direction)], |rope|);
  }

  /** With two knots, a step is the step of part 1. */
  lemma TwoKnotsArePartOne(head: Point, tail: Point, direction: char)
    ensures var r := Day09Part01.Step(Rope(head, tail), direction);
            Step([head, tail], direction) == [r.head, r.tail]
  {
    StepMeaning([head, tail], direction);
  }

  /** After the first `n` knots have followed, each of them has moved by at
      most one cell on each axis, and they touch one another. */
  lemma {:induction false} PullKeepsConnected(old_rope: seq<Point>, rope: seq<Point>, n: nat)
    requires 1 <= n <= |rope| == |old_rope|
    requires Connected(old_rope) && rope[1..] == old_rope[1..] && Adjacent(rope[0], old_rope[0])
    ensures forall k | 0 <= k < n :: Adjacent(Pull(rope, n)[k], old_rope[k])
    ensures forall k | 1 <= k < n :: Adjacent(Pull(rope, n)[k - 1], Pull(rope, n)[k])
  {
    if n > 1 {
      PullKeepsConnected(old_rope, rope, n - 1);
      var p := Pull(rope, n - 1);
      assert p[n - 1] == rope[n - 1] == old_rope[n - 1];
      FollowKeepsAdjacent(old_rope[n - 2], p[n - 2], old_rope[n - 1]);
      FollowMeaning(p[n - 2], old_rope[n - 1]);
    }
  }

  /** A step keeps the rope connected. */
  lemma StepKeepsConnected(rope: seq<Point>, direction: char)
    requires |rope| >= 1 && Connected(rope)
    ensures Connected(Step(rope, direction))
  {
    var moved := rope[0 := MoveHead(rope[0], direction)];
    assert moved[1..] == rope[1..];
    PullKeepsConnected(rope, moved, |rope|);
  }

  lemma {:induction false} RunMoveKeepsConnected(rope: seq<Point>, direction: char, steps: int)
    requires |rope| >= 1 && Connected(rope)
    ensures Connected(RunMove(rope, direction, steps))
    decreases steps
  {
    if steps > 0 {
      RunMoveKeepsConnected(rope, direction, steps - 1);
      StepKeepsConnected(RunMove(rope, direction, steps - 1), direction);
    }
  }

  /** After any list of moves every knot touches the one before it. */
  lemma {:induction false} RopeStaysConnected(moves: seq<(char, int)>)
    ensures Connected(RunMoves(Start, moves))
  {
    if moves == [] {
      assert forall k | 1 <= k < |Start| :: Start[k - 1] == Start[k] == (0, 0);
    } else {
      RopeStaysConnected(moves[..|moves| - 1]);
      RunMoveKeepsConnected(RunMoves(Start, moves[..|moves| - 1]), moves[|moves| - 1].0, moves[|moves| - 1].1);
    }
  }
}
