/** Day 5: crates moved between stacks by a crane that moves one crate at
    a time (part 1) or a whole block at once (part 2). Stack numbers in the
    moves are 1-based. */
module Day05 {
  import opened Common

  // ---------------------------------------------------------------------------
  // The stack diagram.

  /** Line `j` numbers the stacks: its second character is `1`, and every
      line before it has a second character to test. */
  predicate NumberLineAt(lines: seq<string>, j: nat)
  {
    j < |lines| && |lines[j]| >= 2 && lines[j][1] == '1'
    && forall i | 0 <= i < j :: |lines[i]| >= 2
  }

  /** The line that numbers the stacks is the first whose second character
      is `1`; the lines before it draw the crates. */
  method FindNumberLine(lines: seq<string>) returns (k: nat)
    requires exists j: nat :: NumberLineAt(lines, j)
    ensures NumberLineAt(lines, k)
    ensures forall j | 0 <= j < k :: lines[j][1] != '1'
  {
    k := 0;
    while lines[k][1] != '1'
      invariant exists j: nat | k <= j :: NumberLineAt(lines, j)
      invariant forall j | 0 <= j < k :: |lines[j]| >= 2 && lines[j][1] != '1'
      decreases |lines| - k
    {
      k := k + 1;
    }
  }

  /** The crate drawn for stack `n` on a diagram line, if any: the
      character at column `1 + 4n`, unless it is blank. */
  function CrateAt(line: string, n: nat): (c: Option<char>)
    ensures c.Some? <==> 1 + 4 * n < |line| && line[1 + 4 * n] != ' '
  {
    if 1 + 4 * n < |line| && line[1 + 4 * n] != ' ' then Some(line[1 + 4 * n]) else None
  }

  /** Stack `n` read from the diagram, bottom line first. */
  function Column(stackLines: seq<string>, n: nat): seq<char>
  {
    if stackLines == [] then []
    else
      var last := stackLines[|stackLines| - 1];
      var c := CrateAt(last, n);
      (if c.Some? then [c.value] else []) + Column(stackLines[..|stackLines| - 1], n)
  }

  /** Every crate drawn on the diagram belongs to one of the stacks counted
      from the first line (otherwise `stacks[n]` is out of bounds). */
  predicate ColumnsFit(stackLines: seq<string>, numStacks: nat)
  {
    forall j: nat, n: nat | j < |stackLines| && n < |stackLines[j]| :: CrateAt(stackLines[j], n).Some? ==> n < numStacks
  }

  /** The diagram's crates, stacked bottom-up: the number of stacks is
      `(len + 1) / 4` of the first line, and each stack holds the crates of
      its column from the bottom line up, blanks skipped. */
  method ParseStacks(stackLines: seq<string>) returns (stacks: seq<seq<char>>)
    requires |stackLines| > 0 && ColumnsFit(stackLines, (|stackLines[0]| + 1) / 4)
    ensures |stacks| == (|stackLines[0]| + 1) / 4
    ensures forall n | 0 <= n < |stacks| :: stacks[n] == Column(stackLines, n)
  {
    var numStacks := (|stackLines[0]| + 1) / 4;
    stacks := seq(numStacks, _ => []);
    var r := |stackLines|;
    assert stackLines[..r] == stackLines;
    while r > 0
      invariant 0 <= r <= |stackLines| && |stacks| == numStacks
      invariant forall n | 0 <= n < numStacks :: Column(stackLines, n) == stacks[n] + Column(stackLines[..r], n)
    {
      var line := stackLines[r - 1];
      assert stackLines[..r][..r - 1] == stackLines[..r - 1];
      var n := 0;
      while 1 + 4 * n < |line|
        invariant |stacks| == numStacks
        invariant forall m | 0 <= m < numStacks ::
                    Column(stackLines, m)
                    == stacks[m] + (if m < n then [] else (var c := CrateAt(line, m); if c.Some? then [c.value] else []))
                       + Column(stackLines[..r - 1], m)
        decreases |line| - n
      {
        if line[1 + 4 * n] != ' ' {
          assert CrateAt(stackLines[r - 1], n).Some?;
          stacks := stacks[n := stacks[n] + [line[1 + 4 * n]]];
        }
        n := n + 1;
      }
      r := r - 1;
    }
    forall n | 0 <= n < numStacks ensures stacks[n] == Column(stackLines, n) {
      assert stacks[n] + [] == stacks[n];
    }
  }

  // ---------------------------------------------------------------------------
  // The moves.

  datatype Move = Move(amount: nat, from: nat, to: nat)

  function Reverse(s: seq<char>): (r: seq<char>)
    ensures |r| == |s| && forall i | 0 <= i < |s| :: r[i] == s[|s| - 1 - i]
  {
    if s == [] then [] else Reverse(s[1..]) + [s[0]]
  }

  /** A move the program can make: both stacks exist and the source stack
      has enough crates (otherwise `pop().unwrap()` or `split_off`
      panics). */
  predicate Feasible(stacks: seq<seq<char>>, m: Move)
  {
    1 <= m.from <= |stacks| && 1 <= m.to <= |stacks| && m.amount <= |stacks[m.from - 1]|
  }

  /** Part 1: the top `amount` crates of `from` land on `to` in reverse
      order; moving a stack onto itself changes nothing. */
  function MoveOneByOne(stacks: seq<seq<char>>, m: Move): (r: seq<seq<char>>)
    requires Feasible(stacks, m)
    ensures |r| == |stacks|
  {
    if m.from == m.to then stacks
    else
      var src := stacks[m.from - 1];
      var keep := |src| - m.amount;
      stacks[m.from - 1 := src[..keep]][m.to - 1 := stacks[m.to - 1] + Reverse(src[keep..])]
  }

  /** Part 2: the top `amount` crates of `from` land on `to` in the same
      order. */
  function MoveBlock(stacks: seq<seq<char>>, m: Move): (r: seq<seq<char>>)
    requires Feasible(stacks, m)
    ensures |r| == |stacks|
  {
    var src := stacks[m.from - 1];
    var keep := |src| - m.amount;
    var s1 := stacks[m.from - 1 := src[..keep]];
    s1[m.to - 1 := s1[m.to - 1] + src[keep..]]
  }

  /** Part 1's stacks after `i` of the `amount` crates have moved from
      `from` to a different stack `to`. */
  function Partial(stacks: seq<seq<char>>, m: Move, i: nat): seq<seq<char>>
    requires Feasible(stacks, m) && m.from != m.to && i <= m.amount
  {
    var src := stacks[m.from - 1];
    stacks[m.from - 1 := src[..|src| - i]][m.to - 1 := stacks[m.to - 1] + Reverse(src[|src| - i..])]
  }

  /** Moving one more crate: pop it from `from` and push it onto `to`. */
  lemma PartialStep(stacks: seq<seq<char>>, m: Move, i: nat)
    requires Feasible(stacks, m) && m.from != m.to && i < m.amount
    ensures var r := Partial(stacks, m, i);
            var from := r[m.from - 1];
            |from| > 0
            && Partial(stacks, m, i + 1)
               == r[m.from - 1 := from[..|from| - 1]][m.to - 1 := r[m.to - 1] + [from[|from| - 1]]]
  {
    var src := stacks[m.from - 1];
    var r := Partial(stacks, m, i);
    var item := src[|src| - (i + 1)];
    assert src[|src| - (i + 1)..] == [item] + src[|src| - i..];
    assert Reverse(src[|src| - (i + 1)..]) == Reverse(src[|src| - i..]) + [item];
    var from := r[m.from - 1];
    assert from == src[..|src| - i];
    assert from[..|from| - 1] == src[..|src| - (i + 1)];
    assert from[|from| - 1] == item;
    assert r[m.to - 1] + [item] == stacks[m.to - 1] + Reverse(src[|src| - (i + 1)..]);
  }

  /** The inner loop of part 1: `amount` times, pop from `from` and push
      onto `to`. */
  method CrateMover9000(stacks: seq<seq<char>>, m: Move) returns (r: seq<seq<char>>)
    requires Feasible(stacks, m)
    ensures r == MoveOneByOne(stacks, m)
  {
    r := stacks;
    if m.from != m.to {
      var src := stacks[m.from - 1];
      assert src[..|src|] == src && src[|src|..] == [];
      assert stacks[m.to - 1] + [] == stacks[m.to - 1];
      assert Partial(stacks, m, 0) == stacks;
    }
    for i := 0 to m.amount
      invariant |r| == |stacks|
      invariant m.from != m.to ==> r == Partial(stacks, m, i)
      invariant m.from == m.to ==> r == stacks
    {
      if m.from != m.to {
        PartialStep(stacks, m, i);
      }
      var from := r[m.from - 1];
      var item := from[|from| - 1];
      r := r[m.from - 1 := from[..|from| - 1]];
      r := r[m.to - 1 := r[m.to - 1] + [item]];
      if m.from == m.to {
        assert from[..|from| - 1] + [item] == from;
      }
    }
  }

  /** Part 2's move: `split_off` the top `amount` crates and append them
      to `to`. */
  method CrateMover9001(stacks: seq<seq<char>>, m: Move) returns (r: seq<seq<char>>)
    requires Feasible(stacks, m)
    ensures r == MoveBlock(stacks, m)
  {
    var from := stacks[m.from - 1];
    var items := from[|from| - m.amount..];
    r := stacks[m.from - 1 := from[..|from| - m.amount]];
    r := r[m.to - 1 := r[m.to - 1] + items];
  }

  function TotalCrates(stacks: seq<seq<char>>): nat
  {
    if stacks == [] then 0 else |stacks[0]| + TotalCrates(stacks[1..])
  }

  /** The stacks other than `from` and `to` are untouched, both moves leave
      the same heights, and a stack moved onto itself is unchanged. */
  lemma MovesTouchOnlyTwoStacks(stacks: seq<seq<char>>, m: Move)
    requires Feasible(stacks, m)
    ensures forall n | 0 <= n < |stacks| && n != m.from - 1 && n != m.to - 1 ::
              MoveOneByOne(stacks, m)[n] == stacks[n] && MoveBlock(stacks, m)[n] == stacks[n]
    ensures forall n | 0 <= n < |stacks| :: |MoveOneByOne(stacks, m)[n]| == |MoveBlock(stacks, m)[n]|
    ensures m.from == m.to ==> MoveBlock(stacks, m) == stacks
  {
    if m.from == m.to {
      var src := stacks[m.from - 1];
      assert src[..|src| - m.amount] + src[|src| - m.amount..] == src;
    }
  }

  lemma {:induction false} TotalCratesUpdate(stacks: seq<seq<char>>, n: nat, s: seq<char>)
    requires n < |stacks|
    ensures TotalCrates(stacks[n := s]) == TotalCrates(stacks) - |stacks[n]| + |s|
  {
    if n > 0 {
      assert stacks[n := s][1..] == stacks[1..][n - 1 := s];
      TotalCratesUpdate(stacks[1..], n - 1, s);
    }
  }

  /** A move conserves the number of crates. */
  lemma MoveConservesCrates(stacks: seq<seq<char>>, m: Move)
    requires Feasible(stacks, m)
    ensures TotalCrates(MoveBlock(stacks, m)) == TotalCrates(stacks)
    ensures TotalCrates(MoveOneByOne(stacks, m)) == TotalCrates(stacks)
  {
    var src := stacks[m.from - 1];
    var keep := |src| - m.amount;
    var s1 := stacks[m.from - 1 := src[..keep]];
    TotalCratesUpdate(stacks, m.from - 1, src[..keep]);
    TotalCratesUpdate(s1, m.to - 1, s1[m.to - 1] + src[keep..]);
    if m.from != m.to {
      TotalCratesUpdate(s1, m.to - 1, s1[m.to - 1] + Reverse(src[keep..]));
    }
  }

  /** The state of part 1 and of part 2 after a list of moves; both have the
      same stack heights, so one feasibility test serves both. */
  function AfterOneByOne(stacks: seq<seq<char>>, moves: seq<Move>): seq<seq<char>>
    requires AllFeasible(stacks, moves)
    decreases |moves|
  {
    if moves == [] then stacks
    else
      OneByOneFeasible(stacks, moves[0], moves[1..]);
      AfterOneByOne(MoveOneByOne(stacks, moves[0]), moves[1..])
  }

  function AfterBlocks(stacks: seq<seq<char>>, moves: seq<Move>): seq<seq<char>>
    requires AllFeasible(stacks, moves)
    decreases |moves|
  {
    if moves == [] then stacks else AfterBlocks(MoveBlock(stacks, moves[0]), moves[1..])
  }

  /** Each move in turn is feasible on the stacks left by the ones before. */
  predicate AllFeasible(stacks: seq<seq<char>>, moves: seq<Move>)
    decreases |moves|
  {
    moves == [] || (Feasible(stacks, moves[0]) && AllFeasible(MoveBlock(stacks, moves[0]), moves[1..]))
  }

  function Heights(stacks: seq<seq<char>>): (h: seq<nat>)
    ensures |h| == |stacks| && forall n | 0 <= n < |stacks| :: h[n] == |stacks[n]|
  {
    seq(|stacks|, n requires 0 <= n < |stacks| => |stacks[n]|)
  }

  /** Feasibility depends only on the heights, which both cranes change
      alike. */
  lemma {:induction false} SameHeightsFeasible(a: seq<seq<char>>, b: seq<seq<char>>, moves: seq<Move>)
    requires Heights(a) == Heights(b) && AllFeasible(b, moves)
    ensures AllFeasible(a, moves)
    decreases |moves|
  {
    if moves != [] {
      MovesTouchOnlyTwoStacks(a, moves[0]);
      MovesTouchOnlyTwoStacks(b, moves[0]);
      var m := moves[0];
      var a1, b1 := MoveBlock(a, m), MoveBlock(b, m);
      assert Heights(a1) == Heights(b1) by {
        forall n | 0 <= n < |a| ensures |a1[n]| == |b1[n]| {
          assert |a[n]| == |b[n]|;
        }
      }
      SameHeightsFeasible(a1, b1, moves[1..]);
    }
  }

  /** Part 1's crane can follow every move part 2's can. */
  lemma OneByOneFeasible(stacks: seq<seq<char>>, m: Move, rest: seq<Move>)
    requires Feasible(stacks, m) && AllFeasible(MoveBlock(stacks, m), rest)
    ensures AllFeasible(MoveOneByOne(stacks, m), rest)
  {
    MovesTouchOnlyTwoStacks(stacks, m);
    assert Heights(MoveOneByOne(stacks, m)) == Heights(MoveBlock(stacks, m));
    SameHeightsFeasible(MoveOneByOne(stacks, m), MoveBlock(stacks, m), rest);
  }

  /** The loop over the moves: both cranes apply every move in turn. */
  method ApplyMoves(stacks: seq<seq<char>>, moves: seq<Move>) returns (stacks1: seq<seq<char>>, stacks2: seq<seq<char>>)
    requires AllFeasible(stacks, moves)
    ensures stacks1 == AfterOneByOne(stacks, moves)
    ensures stacks2 == AfterBlocks(stacks, moves)
  {
    stacks1, stacks2 := stacks, stacks;
    for i := 0 to |moves|
      invariant AllFeasible(stacks1, moves[i..]) && AllFeasible(stacks2, moves[i..])
      invariant AfterOneByOne(stacks1, moves[i..]) == AfterOneByOne(stacks, moves)
      invariant AfterBlocks(stacks2, moves[i..]) == AfterBlocks(stacks, moves)
    {
      assert moves[i..] == [moves[i]] + moves[i + 1..];
      var m := moves[i];
      OneByOneFeasible(stacks1, m, moves[i + 1..]);
      stacks1 := CrateMover9000(stacks1, m);
      stacks2 := CrateMover9001(stacks2, m);
    }
  }

  /** The answer: the top crate of each stack, in order; an empty stack
      panics. */
  function Tops(stacks: seq<seq<char>>): (r: string)
    requires forall n | 0 <= n < |stacks| :: |stacks[n]| > 0
    ensures |r| == |stacks| && forall n | 0 <= n < |stacks| :: r[n] == stacks[n][|stacks[n]| - 1]
  {
    if stacks == [] then "" else [stacks[0][|stacks[0]| - 1]] + Tops(stacks[1..])
  }
}
