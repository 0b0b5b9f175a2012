/** Day 10, part 2: the CPU of part 1 drives a 6 by 40 screen. During cycle
    `c` (counted from 0) the beam draws the pixel at row `c / 40`, column
    `c % 40`: lit (`#`) when the three-pixel sprite centred on `x` covers
    that column, dark (`.`) otherwise. */
module Day10Part2 {
  import opened Common
  import opened Day10Part1

  const Rows := 6
  const Columns := 40

  /** The pixel drawn during cycle `k`, given `x` during every cycle. */
  function Pixel(xs: seq<int>, k: nat): char
    requires k < |xs|
  {
    var column := k % Columns;
    if column >= xs[k] - 1 && column <= xs[k] + 1 then '#' else '.'
  }

  /** A pixel is lit exactly when the sprite's centre is at most one column
      away from it. */
  lemma PixelMeaning(xs: seq<int>, k: nat)
    requires k < |xs|
    ensures Pixel(xs, k) == '#' <==> Abs(k % Columns - xs[k]) <= 1
    ensures Pixel(xs, k) != '#' ==> Pixel(xs, k) == '.'
  {
  }

  /** Cycle `k` of the 240 draws at a cell of the screen, and no other
      cycle draws at the same cell. */
  lemma CycleCell(k: nat, k': nat)
    requires k < Rows * Columns && k' < Rows * Columns
    ensures 0 <= k / Columns < Rows && 0 <= k % Columns < Columns
    ensures Columns * (k / Columns) + k % Columns == k
    ensures (k / Columns, k % Columns) == (k' / Columns, k' % Columns) ==> k == k'
  {
  }

  /** The screen after the first `drawn` cycles: those cells hold their
      pixels and the rest still hold the initial space. */
  ghost predicate ScreenAfter(crt: array2<char>, xs: seq<int>, drawn: nat)
    reads crt
    requires drawn <= |xs|
  {
    crt.Length0 == Rows && crt.Length1 == Columns &&
    forall r, c | 0 <= r < Rows && 0 <= c < Columns ::
      crt[r, c] == (if Columns * r + c < drawn then Pixel(xs, Columns * r + c) else ' ')
  }

  /** The draw at the start of a cycle. */
  method DrawPixel(crt: array2<char>, cycle: nat, x: int, ghost xs: seq<int>)
    modifies crt
    requires cycle < |xs| && cycle < Rows * Columns && xs[cycle] == x
    requires ScreenAfter(crt, xs, cycle)
    ensures ScreenAfter(crt, xs, cycle + 1)
  {
    var currentLine := cycle / Columns;
    var currentColumn := cycle % Columns;
    CycleCell(cycle, cycle);
    if currentColumn >= x - 1 && currentColumn <= x + 1 {
      crt[currentLine, currentColumn] := '#';
    } else {
      crt[currentLine, currentColumn] := '.';
    }
    forall r, c | 0 <= r < Rows && 0 <= c < Columns
      ensures crt[r, c] == (if Columns * r + c < cycle + 1 then Pixel(xs, Columns * r + c) else ' ')
    {
      if Columns * r + c == cycle {
        assert r == currentLine && c == currentColumn;
      } else {
        assert (r, c) != (currentLine, currentColumn);
      }
    }
  }

  /** `main` without the printing: the screen after 240 cycles, or after
      the cycles run before the input ends; `panicked` when the program
      panics on a line it cannot parse. */
  method DrawScreen(lines: seq<string>) returns (crt: array2<char>, panicked: bool)
    ensures fresh(crt)
    ensures panicked <==> Panics(lines, Rows * Columns)
    ensures !panicked ==> var xs := Run(ValidPrefix(lines));
                          ScreenAfter(crt, xs, Min(|xs|, Rows * Columns))
  {
    ghost var instrs := ValidPrefix(lines);
    ghost var xs := Run(instrs);
    var x := 1;
    var pending: Option<int> := None;
    var pos := 0;
    crt := new char[Rows, Columns]((_, _) => ' ');
    panicked := false;
    assert instrs[..0] == [];
    var cycle := 0;
    while cycle < Rows * Columns
      invariant 0 <= cycle <= Rows * Columns
      invariant MachineAt(instrs, cycle, pos, pending, x)
      invariant cycle <= |xs| && ScreenAfter(crt, xs, cycle)
    {
      MachineValue(instrs, cycle, pos, pending, x);
      DrawPixel(crt, cycle, x, xs);
      var outcome;
      x, pending, pos, outcome := Execute(lines, cycle, x, pending, pos);
      match outcome {
        case Panic =>
          return crt, true;
        case EndOfInput =>
          return;
        case Continue =>
      }
      cycle := cycle + 1;
    }
    MachineBound(instrs, cycle, pos, pending, x);
  }
}
