/** Day 17: rocks of five shapes fall in turn into a chamber seven units
    wide, pushed sideways by a repeating pattern of jets. The chamber is a
    fixed buffer of 131072 cells, seven per row, with `y` growing upwards.
    A rock appears two units from the left wall and three rows above the
    highest rock, is pushed by the next jet when nothing is in the way,
    then falls one row unless that would collide, in which case it comes to
    rest. The program counts the rocks up to one trillion, skipping ahead
    once the same piece, jet and top row have come back three times, and
    prints the height of the tower. */
module Day17 {
  import opened Common

  const MapWidth := 7
  /** The number of cells of the buffer. */
  const Cells := 131072
  /** `131072 / 7`, the rows `has_collision` treats as inside the chamber. */
  const MapHeight := Cells / MapWidth
  const TotalCycles := 1000000000000

  /** A rock shape: rows from the bottom up, each from left to right. */
  datatype Piece = Piece(data: seq<seq<bool>>, height: int)

  /** A shape is as high as its rows, and its bottom row holds a cell. */
  predicate WellFormed(piece: Piece)
  {
    piece.height == |piece.data| > 0 &&
    exists dx | 0 <= dx < |piece.data[0]| :: piece.data[0][dx]
  }

  /** The number of shapes, `pieces.len()`. */
  const ShapeCount := 5

  /** The five shapes in the order they fall; each fits between the walls
      where it appears, two units from the left wall. */
  function Shape(k: nat): (p: Piece)
    requires k < ShapeCount
    ensures WellFormed(p) && FitsWidth(p, 2)
  {
    match k
    case 0 => var p := Piece([[true, true, true, true]], 1); assert p.data[0][0]; p
    case 1 => var p := Piece([[false, true, false], [true, true, true], [false, true, false]], 3); assert p.data[0][1]; p
    case 2 => var p := Piece([[true, true, true], [false, false, true], [false, false, true]], 3); assert p.data[0][0]; p
    case 3 => var p := Piece([[true], [true], [true], [true]], 4); assert p.data[0][0]; p
    case 4 => var p := Piece([[true, true], [true, true]], 2); assert p.data[0][0]; p
  }

  // ---------------------------------------------------------------------------
  // The buffer as a sequence of cells.

  /** The buffer index of `(x, y)`, before the cast to `usize`. */
  function Index(x: int, y: int): int
  {
    y * MapWidth + x
  }

  /** `(x, y)` indexes the buffer; any other index panics. */
  predicate InMap(c: (int, int))
  {
    0 <= Index(c.0, c.1) < Cells
  }

  /** `(x, y)` lies inside the chamber. */
  predicate InBounds(x: int, y: int)
  {
    0 <= x < MapWidth && 0 <= y < MapHeight
  }

  lemma InBoundsInMap(x: int, y: int)
    requires InBounds(x, y)
    ensures InMap((x, y))
  {
  }

  /** Some cell of `cells` has buffer index `i`. */
  predicate Covers(cells: seq<(int, int)>, i: int)
  {
    exists c | c in cells :: Index(c.0, c.1) == i
  }

  /** The cells after `set(x, y, v)` for each `(x, y)` of `cells` in turn. */
  function Paint(s: seq<bool>, cells: seq<(int, int)>, v: bool): (r: seq<bool>)
    requires |s| == Cells && forall c | c in cells :: InMap(c)
    ensures |r| == Cells
  {
    if |cells| == 0 then s
    else
      var last := cells[|cells| - 1];
      assert last in cells;
      assert InMap(last);
      Paint(s, cells[..|cells| - 1], v)[Index(last.0, last.1) := v]
  }

  /** After painting, every index the cells cover holds `v` and every other
      index its old value. */
  lemma {:induction false} PaintAt(s: seq<bool>, cells: seq<(int, int)>, v: bool)
    requires |s| == Cells && forall c | c in cells :: InMap(c)
    ensures forall i | 0 <= i < Cells :: Paint(s, cells, v)[i] == if Covers(cells, i) then v else s[i]
  {
    if |cells| > 0 {
      var last := cells[|cells| - 1];
      assert last in cells;
      PaintAt(s, cells[..|cells| - 1], v);
      assert forall c | c in cells :: c in cells[..|cells| - 1] || c == last;
    }
  }

  /** Painting one more cell is one more `set`. */
  lemma PaintAppend(s: seq<bool>, cells: seq<(int, int)>, c: (int, int), v: bool)
    requires |s| == Cells && (forall d | d in cells :: InMap(d)) && InMap(c)
    ensures Paint(s, cells + [c], v) == Paint(s, cells, v)[Index(c.0, c.1) := v]
  {
    assert (cells + [c])[..|cells|] == cells;
  }

  /** Painting two runs of cells is painting the first, then the second. */
  lemma {:induction false} PaintConcat(s: seq<bool>, a: seq<(int, int)>, b: seq<(int, int)>, v: bool)
    requires |s| == Cells && (forall c | c in a :: InMap(c)) && forall c | c in b :: InMap(c)
    ensures Paint(s, a + b, v) == Paint(Paint(s, a, v), b, v)
  {
    if |b| > 0 {
      var b' := b[..|b| - 1];
      assert b[|b| - 1] in b;
      PaintConcat(s, a, b', v);
      assert (a + b)[..|a + b| - 1] == a + b';
    } else {
      assert a + b == a;
    }
  }

  /** Painting cells, then clearing them, clears them whatever was there. */
  lemma PaintThenClear(s: seq<bool>, cells: seq<(int, int)>)
    requires |s| == Cells && forall c | c in cells :: InMap(c)
    ensures Paint(Paint(Paint(s, cells, false), cells, true), cells, false) == Paint(s, cells, false)
  {
    PaintAt(s, cells, false);
    PaintAt(Paint(s, cells, false), cells, true);
    PaintAt(Paint(Paint(s, cells, false), cells, true), cells, false);
  }

  /** The filled cells of one shape row placed at `(x, y)`, left to right. */
  function RowCells(row: seq<bool>, x: int, y: int): (r: seq<(int, int)>)
    ensures forall c :: c in r <==> exists dx | 0 <= dx < |row| :: row[dx] && c == (x + dx, y)
  {
    if |row| == 0 then []
    else
      var dx := |row| - 1;
      var r := RowCells(row[..dx], x, y) + (if row[dx] then [(x + dx, y)] else []);
      assert forall i | 0 <= i < dx :: row[..dx][i] == row[i];
      r
  }

  /** One more column of a row adds its cell when it is filled. */
  lemma RowCellsStep(row: seq<bool>, x: int, y: int, dx: int)
    requires 0 <= dx < |row|
    ensures RowCells(row[..dx + 1], x, y) == RowCells(row[..dx], x, y) + (if row[dx] then [(x + dx, y)] else [])
  {
    assert row[..dx + 1][..dx] == row[..dx];
  }

  /** The filled cells of a shape placed at `(x, y)`, row by row from the
      bottom, in the order `draw_piece` sets them. */
  function PieceCells(rows: seq<seq<bool>>, x: int, y: int): (r: seq<(int, int)>)
    ensures forall c :: c in r <==>
              exists dy, dx | 0 <= dy < |rows| && 0 <= dx < |rows[dy]| :: rows[dy][dx] && c == (x + dx, y + dy)
  {
    if |rows| == 0 then []
    else
      var dy := |rows| - 1;
      var r := PieceCells(rows[..dy], x, y) + RowCells(rows[dy], x, y + dy);
      assert forall i | 0 <= i < dy :: rows[..dy][i] == rows[i];
      r
  }

  /** Every cell of the shape at `(x, y)` indexes the buffer: drawing it
      there does not panic. */
  predicate Drawable(piece: Piece, x: int, y: int)
  {
    forall c | c in PieceCells(piece.data, x, y) :: InMap(c)
  }

  /** The cell `c` lies outside the chamber or is occupied; it is read
      only once it is known to be inside. */
  predicate Hit(s: seq<bool>, c: (int, int))
    requires |s| == Cells
  {
    !InBounds(c.0, c.1) || s[Index(c.0, c.1)]
  }

  /** Some cell of `cells` is a hit. */
  predicate AnyHit(s: seq<bool>, cells: seq<(int, int)>)
    requires |s| == Cells
  {
    |cells| > 0 && (AnyHit(s, cells[..|cells| - 1]) || Hit(s, cells[|cells| - 1]))
  }

  lemma {:induction false} AnyHitMeans(s: seq<bool>, cells: seq<(int, int)>)
    requires |s| == Cells
    ensures AnyHit(s, cells) <==> exists c | c in cells :: Hit(s, c)
  {
    if |cells| > 0 {
      AnyHitMeans(s, cells[..|cells| - 1]);
      assert cells[|cells| - 1] in cells;
      assert forall c | c in cells :: c in cells[..|cells| - 1] || c == cells[|cells| - 1];
    }
  }

  /** The shape at `(x, y)` collides with the walls, the floor, the top of
      the chamber or an occupied cell. */
  predicate Collides(s: seq<bool>, piece: Piece, x: int, y: int)
    requires |s| == Cells
  {
    AnyHit(s, PieceCells(piece.data, x, y))
  }

  /** The filled cell `(dy, dx)` of the shape at `(x, y)` lies outside
      `[0, 7) x [0, 131072 / 7)` or on an occupied cell. */
  predicate HitsAt(s: seq<bool>, piece: Piece, x: int, y: int, dy: int, dx: int)
    requires |s| == Cells && 0 <= dy < |piece.data| && 0 <= dx < |piece.data[dy]|
  {
    piece.data[dy][dx] && (!InBounds(x + dx, y + dy) || s[Index(x + dx, y + dy)])
  }

  /** A shape collides exactly when one of its filled cells is a hit. */
  lemma CollidesMeans(s: seq<bool>, piece: Piece, x: int, y: int)
    requires |s| == Cells
    ensures Collides(s, piece, x, y) <==>
            exists dy, dx | 0 <= dy < |piece.data| && 0 <= dx < |piece.data[dy]| :: HitsAt(s, piece, x, y, dy, dx)
  {
    var cells := PieceCells(piece.data, x, y);
    AnyHitMeans(s, cells);
    if Collides(s, piece, x, y) {
      var c :| c in cells && Hit(s, c);
      var dy, dx :| 0 <= dy < |piece.data| && 0 <= dx < |piece.data[dy]| && piece.data[dy][dx] && c == (x + dx, y + dy);
      assert HitsAt(s, piece, x, y, dy, dx);
    } else {
      forall dy, dx | 0 <= dy < |piece.data| && 0 <= dx < |piece.data[dy]|
        ensures !HitsAt(s, piece, x, y, dy, dx)
      {
        if piece.data[dy][dx] {
          assert (x + dx, y + dy) in cells;
        }
      }
    }
  }

  /** A shape whose bottom row holds a cell collides below the floor. */
  lemma FloorCollides(s: seq<bool>, piece: Piece, x: int, y: int)
    requires |s| == Cells && WellFormed(piece) && !Collides(s, piece, x, y)
    ensures y >= 0
  {
    var dx :| 0 <= dx < |piece.data[0]| && piece.data[0][dx];
    AnyHitMeans(s, PieceCells(piece.data, x, y));
    assert (x + dx, y) in PieceCells(piece.data, x, y);
  }

  /** Hits of two runs of cells. */
  lemma {:induction false} AnyHitConcat(s: seq<bool>, a: seq<(int, int)>, b: seq<(int, int)>)
    requires |s| == Cells
    ensures AnyHit(s, a + b) <==> AnyHit(s, a) || AnyHit(s, b)
  {
    if |b| > 0 {
      AnyHitConcat(s, a, b[..|b| - 1]);
      assert (a + b)[..|a + b| - 1] == a + b[..|b| - 1];
    } else {
      assert a + b == a;
    }
  }

  /** The cells of the first `k` columns lead the cells of the row. */
  lemma {:induction false} RowCellsPrefix(row: seq<bool>, x: int, y: int, k: int)
    requires 0 <= k <= |row|
    ensures RowCells(row[..k], x, y) <= RowCells(row, x, y)
    decreases |row| - k
  {
    if k < |row| {
      RowCellsPrefix(row, x, y, k + 1);
      RowCellsStep(row, x, y, k);
    } else {
      assert row[..k] == row;
    }
  }

  /** The cells of the first `k` rows lead the cells of the shape. */
  lemma {:induction false} PieceCellsPrefix(rows: seq<seq<bool>>, x: int, y: int, k: int)
    requires 0 <= k <= |rows|
    ensures PieceCells(rows[..k], x, y) <= PieceCells(rows, x, y)
    decreases |rows| - k
  {
    if k < |rows| {
      PieceCellsPrefix(rows, x, y, k + 1);
      PieceCellsStep(rows, x, y, k);
    } else {
      assert rows[..k] == rows;
    }
  }

  /** A hit among leading cells is a hit among all of them. */
  lemma AnyHitPrefix(s: seq<bool>, a: seq<(int, int)>, b: seq<(int, int)>)
    requires |s| == Cells && a <= b && AnyHit(s, a)
    ensures AnyHit(s, b)
  {
    assert b == a + b[|a|..];
    AnyHitConcat(s, a, b[|a|..]);
  }

  /** One more row of a shape adds its cells. */
  lemma PieceCellsStep(rows: seq<seq<bool>>, x: int, y: int, dy: int)
    requires 0 <= dy < |rows|
    ensures PieceCells(rows[..dy + 1], x, y) == PieceCells(rows[..dy], x, y) + RowCells(rows[dy], x, y + dy)
  {
    assert rows[..dy + 1][..dy] == rows[..dy];
  }

  /** Every filled cell of row `dy` of a shape drawable at `(x, y)` is
      inside the buffer. */
  lemma RowDrawable(piece: Piece, x: int, y: int, dy: int)
    requires Drawable(piece, x, y) && 0 <= dy < |piece.data|
    ensures forall dx | 0 <= dx < |piece.data[dy]| && piece.data[dy][dx] :: InMap((x + dx, y + dy))
  {
    forall dx | 0 <= dx < |piece.data[dy]| && piece.data[dy][dx]
      ensures InMap((x + dx, y + dy))
    {
      assert (x + dx, y + dy) in PieceCells(piece.data, x, y);
    }
  }

  /** The character `get_row` writes for a cell. */
  function Mark(occupied: bool): char
  {
    if occupied then '#' else '.'
  }

  // ---------------------------------------------------------------------------
  // `Map`

  class Map {
    const data: array<bool>
    var previousDraw: seq<(int, int)>

    predicate Valid()
      reads this
    {
      data.Length == Cells && forall c | c in previousDraw :: InMap(c)
    }

    /** An empty chamber with nothing drawn. */
    constructor()
      ensures Valid() && fresh(data)
      ensures data[..] == seq(Cells, _ => false) && previousDraw == []
    {
      data := new bool[Cells](_ => false);
      previousDraw := [];
    }

    /** `set`: only the cell at index `y * 7 + x` changes, to `value`. */
    method Set(x: int, y: int, value: bool)
      requires Valid() && InMap((x, y))
      modifies data
      ensures Get(x, y) == value
      ensures data[..] == old(data[..])[Index(x, y) := value]
    {
      data[Index(x, y)] := value;
    }

    /** `get`: whether the cell at index `y * 7 + x` is occupied. */
    function Get(x: int, y: int): bool
      requires Valid() && InMap((x, y))
      reads this, data
    {
      data[Index(x, y)]
    }

    /** `draw_piece`: forgets the previous drawing, then sets every filled
        cell of the shape at `(x, y)` and records exactly those cells. */
    method DrawPiece(x: int, y: int, piece: Piece)
      requires Valid() && Drawable(piece, x, y)
      modifies this, data
      ensures Valid()
      ensures previousDraw == PieceCells(piece.data, x, y)
      ensures data[..] == Paint(old(data[..]), previousDraw, true)
    {
      ghost var s0 := data[..];
      previousDraw := [];
      for dy := 0 to |piece.data|
        invariant Valid()
        invariant previousDraw == PieceCells(piece.data[..dy], x, y)
        invariant data[..] == Paint(s0, previousDraw, true)
      {
        assert piece.data[..dy + 1][..dy] == piece.data[..dy];
        ghost var done := previousDraw;
        ghost var cells := RowCells(piece.data[dy], x, y + dy);
        RowDrawable(piece, x, y, dy);
        DrawRow(piece.data[dy], x, y + dy);
        PaintConcat(s0, done, cells, true);
      }
      assert piece.data[..|piece.data|] == piece.data;
    }

    /** One row of `draw_piece`: sets and records its filled cells. */
    method DrawRow(row: seq<bool>, x: int, y: int)
      requires Valid() && forall dx | 0 <= dx < |row| && row[dx] :: InMap((x + dx, y))
      modifies this, data
      ensures Valid()
      ensures previousDraw == old(previousDraw) + RowCells(row, x, y)
      ensures data[..] == Paint(old(data[..]), RowCells(row, x, y), true)
    {
      ghost var s0 := data[..];
      ghost var p0 := previousDraw;
      ghost var cells: seq<(int, int)> := [];
      for dx := 0 to |row|
        invariant Valid() && forall c | c in cells :: InMap(c)
        invariant cells == RowCells(row[..dx], x, y)
        invariant previousDraw == p0 + cells
        invariant data[..] == Paint(s0, cells, true)
      {
        RowCellsStep(row, x, y, dx);
        if row[dx] {
          PaintAppend(s0, cells, (x + dx, y), true);
          Set(x + dx, y, true);
          previousDraw := previousDraw + [(x + dx, y)];
          cells := cells + [(x + dx, y)];
        }
      }
      assert row[..|row|] == row;
    }

    /** `clear_previous_piece`: clears every recorded cell and forgets the
        drawing. */
    method ClearPreviousPiece()
      requires Valid()
      modifies this, data
      ensures Valid() && previousDraw == []
      ensures data[..] == Paint(old(data[..]), old(previousDraw), false)
    {
      ghost var s0 := data[..];
      var cells := previousDraw;
      for i := 0 to |cells|
        invariant Valid() && previousDraw == cells
        invariant data[..] == Paint(s0, cells[..i], false)
      {
        assert cells[..i + 1] == cells[..i] + [cells[i]];
        PaintAppend(s0, cells[..i], cells[i], false);
        Set(cells[i].0, cells[i].1, false);
      }
      assert cells[..|cells|] == cells;
      previousDraw := [];
    }

    /** `has_collision`: whether a filled cell of the shape at `(x, y)`
        lies outside the chamber or on an occupied cell, looked at row by
        row from the bottom. */
    method HasCollision(piece: Piece, x: int, y: int) returns (r: bool)
      requires Valid()
      ensures r == Collides(data[..], piece, x, y)
    {
      for dy := 0 to |piece.data|
        invariant !AnyHit(data[..], PieceCells(piece.data[..dy], x, y))
      {
        PieceCellsStep(piece.data, x, y, dy);
        AnyHitConcat(data[..], PieceCells(piece.data[..dy], x, y), RowCells(piece.data[dy], x, y + dy));
        var hit := RowCollision(piece.data[dy], x, y + dy);
        if hit {
          PieceCellsPrefix(piece.data, x, y, dy + 1);
          AnyHitPrefix(data[..], PieceCells(piece.data[..dy + 1], x, y), PieceCells(piece.data, x, y));
          return true;
        }
      }
      assert piece.data[..|piece.data|] == piece.data;
      return false;
    }

    /** One row of `has_collision`: whether a filled cell of `row` at
        `(x, y)` is a hit. */
    method RowCollision(row: seq<bool>, x: int, y: int) returns (r: bool)
      requires Valid()
      ensures r == AnyHit(data[..], RowCells(row, x, y))
    {
      ghost var s := data[..];
      ghost var cells: seq<(int, int)> := [];
      for dx := 0 to |row|
        invariant cells == RowCells(row[..dx], x, y) && !AnyHit(s, cells)
      {
        RowCellsStep(row, x, y, dx);
        var isInBounds := x + dx >= 0 && x + dx < MapWidth && y >= 0 && y < MapHeight;
        if row[dx] {
          AnyHitConcat(s, cells, [(x + dx, y)]);
          assert AnyHit(s, [(x + dx, y)]) == Hit(s, (x + dx, y));
        }
        if row[dx] && (!isInBounds || Get(x + dx, y)) {
          RowCellsPrefix(row, x, y, dx + 1);
          AnyHitPrefix(s, cells + [(x + dx, y)], RowCells(row, x, y));
          return true;
        }
        if row[dx] {
          cells := cells + [(x + dx, y)];
        }
      }
      assert row[..|row|] == row;
      return false;
    }

    /** `get_row`: the seven cells of row `y`, `#` where occupied and `.`
        where free. */
    method GetRow(y: int) returns (row: string)
      requires Valid() && InMap((0, y)) && InMap((MapWidth - 1, y))
      ensures |row| == MapWidth
      ensures forall x | 0 <= x < MapWidth :: row[x] == Mark(Get(x, y))
    {
      row := "";
      for x := 0 to MapWidth
        invariant |row| == x
        invariant forall i | 0 <= i < x :: row[i] == Mark(Get(i, y))
      {
        row := row + [Mark(Get(x, y))];
      }
    }
  }

  // ---------------------------------------------------------------------------
  // One rock falling: the inner `loop` of `main`.

  /** The sideways move of a jet character. */
  function Push(c: char): int
  {
    if c == '<' then -1 else 1
  }

  /** Where a rock came to rest, in the program's own variables: its
      position `(x, y)` with `y` counting the skipped rows, the next jet to
      use and the jet that pushed it last. */
  datatype Rest = Rest(x: int, y: int, jet: nat, lastJet: nat)

  /** A rock at rest with the buffer and the drawing it leaves. */
  datatype Landing = Landing(data: seq<bool>, drawn: seq<(int, int)>, rest: Rest)

  /** The inputs `Fall` takes: a full buffer, a drawing that indexes it, a
      jet within the pattern and a well-formed shape. */
  predicate FallInputs(s: seq<bool>, drawn: seq<(int, int)>, piece: Piece, line: string, jet: nat)
  {
    |s| == Cells && (forall c | c in drawn :: InMap(c)) && 0 <= jet < |line| && WellFormed(piece)
  }

  /** A rock drawn at its position in a full buffer, with the jets moved
      on by one from the last one used. */
  ghost predicate Placed(l: Landing, piece: Piece, line: string, skipped: int)
  {
    l.drawn == PieceCells(piece.data, l.rest.x, l.rest.y - skipped) &&
    (forall c | c in l.drawn :: InMap(c)) && |l.data| == Cells &&
    l.rest.lastJet < |line| && l.rest.jet == (l.rest.lastJet + 1) % |line|
  }

  /** A rock at rest: placed, with one row lower colliding with the buffer
      as it is without the rock. */
  ghost predicate Landed(l: Landing, piece: Piece, line: string, skipped: int)
  {
    Placed(l, piece, line, skipped) &&
    Collides(Paint(l.data, l.drawn, false), piece, l.rest.x, l.rest.y - 1 - skipped)
  }

  /** What one iteration of the inner loop leads to. */
  datatype Motion =
    | Panicked
    | Settled(landing: Landing)
    | Moved(data: seq<bool>, drawn: seq<(int, int)>, x: int, y: int, jet: nat)

  /** Where the next jet leaves the rock at `(x, y)`, tested against the
      buffer `s1` without the rock: pushed when nothing is in the way, else
      in place. */
  function Shift(s1: seq<bool>, piece: Piece, line: string, jet: nat, x: int, y: int, skipped: int): int
    requires |s1| == Cells && jet < |line|
  {
    var push := Push(line[jet]);
    if !Collides(s1, piece, x + push, y - skipped) then x + push else x
  }

  /** One iteration of the inner loop, with the buffer `s` and the drawing
      `drawn` as the previous iteration left them: clear the drawing, take
      the push of the next jet when the shape does not collide there, draw;
      clear, and come to rest drawn in place when one row lower collides,
      else draw one row lower. `Panicked` where a draw indexes outside the
      buffer. */
  ghost function FallStep(s: seq<bool>, drawn: seq<(int, int)>, piece: Piece, line: string, jet: nat,
                          x: int, y: int, skipped: int): (r: Motion)
    requires FallInputs(s, drawn, piece, line, jet)
    ensures r.Moved? ==>
              r.y == y - 1 && r.y - skipped >= 0 &&
              FallInputs(r.data, r.drawn, piece, line, r.jet) &&
              r.drawn == PieceCells(piece.data, r.x, r.y - skipped)
  {
    var s1 := Paint(s, drawn, false);
    var x' := Shift(s1, piece, line, jet, x, y, skipped);
    if !Drawable(piece, x', y - skipped) then Panicked
    else Descend(s1, piece, line, jet, x', y, skipped)
  }

  /** The second half of an iteration, once the push is decided: draw the
      rock at `(x, y)` on the buffer `s1` without it, clear it, then `Land`. */
  ghost function Descend(s1: seq<bool>, piece: Piece, line: string, jet: nat, x: int, y: int, skipped: int): (r: Motion)
    requires |s1| == Cells && jet < |line| && WellFormed(piece) && Drawable(piece, x, y - skipped)
    ensures r.Moved? ==>
              r.y == y - 1 && r.y - skipped >= 0 &&
              FallInputs(r.data, r.drawn, piece, line, r.jet) &&
              r.drawn == PieceCells(piece.data, r.x, r.y - skipped)
  {
    var cells := PieceCells(piece.data, x, y - skipped);
    Land(Paint(Paint(s1, cells, true), cells, false), piece, line, jet, x, y, skipped)
  }

  /** The end of an iteration on the buffer `s2` without the rock: it
      comes to rest drawn in place when one row lower collides, else it is
      drawn one row lower. */
  ghost function Land(s2: seq<bool>, piece: Piece, line: string, jet: nat, x: int, y: int, skipped: int): (r: Motion)
    requires |s2| == Cells && jet < |line| && WellFormed(piece) && Drawable(piece, x, y - skipped)
    ensures r.Moved? ==>
              r.y == y - 1 && r.y - skipped >= 0 &&
              FallInputs(r.data, r.drawn, piece, line, r.jet) &&
              r.drawn == PieceCells(piece.data, r.x, r.y - skipped)
  {
    var nextJet := (jet + 1) % |line|;
    var cells := PieceCells(piece.data, x, y - skipped);
    if Collides(s2, piece, x, y - 1 - skipped) then
      Settled(Landing(Paint(s2, cells, true), cells, Rest(x, y, nextJet, jet)))
    else if !Drawable(piece, x, y - 1 - skipped) then Panicked
    else
      FloorCollides(s2, piece, x, y - 1 - skipped);
      var cells' := PieceCells(piece.data, x, y - 1 - skipped);
      Moved(Paint(s2, cells', true), cells', x, y - 1, nextJet)
  }

  /** An iteration that ends at rest leaves the rock where it was, drawn,
      with one row lower colliding. */
  lemma StepSettles(s: seq<bool>, drawn: seq<(int, int)>, piece: Piece, line: string, jet: nat,
                    x: int, y: int, skipped: int)
    requires FallInputs(s, drawn, piece, line, jet)
    requires FallStep(s, drawn, piece, line, jet, x, y, skipped).Settled?
    ensures var l := FallStep(s, drawn, piece, line, jet, x, y, skipped).landing;
            l.rest.y == y && l.rest.lastJet == jet && Landed(l, piece, line, skipped)
  {
    var s1 := Paint(s, drawn, false);
    var x' := Shift(s1, piece, line, jet, x, y, skipped);
    var cells := PieceCells(piece.data, x', y - skipped);
    SettledClears(s1, cells, piece, x', y - 1 - skipped);
  }

  /** The rest of the fall of `piece` from `(x, y)`: iterations until it
      settles or panics. */
  ghost function Fall(s: seq<bool>, drawn: seq<(int, int)>, piece: Piece, line: string, jet: nat,
                      x: int, y: int, skipped: int): Option<Landing>
    requires FallInputs(s, drawn, piece, line, jet)
    decreases y - skipped
  {
    match FallStep(s, drawn, piece, line, jet, x, y, skipped)
    case Panicked => None
    case Settled(l) => Some(l)
    case Moved(s', drawn', x', y', jet') => Fall(s', drawn', piece, line, jet', x', y', skipped)
  }

  /** A rock comes to rest on or above the floor and never above where it
      started, drawn where it rests, where one row lower it would collide
      with the buffer as it is without it; the jets move on by one from the
      last one used. */
  lemma {:induction false} FallRests(s: seq<bool>, drawn: seq<(int, int)>, piece: Piece, line: string, jet: nat,
                                     x: int, y: int, skipped: int)
    requires FallInputs(s, drawn, piece, line, jet)
    requires Fall(s, drawn, piece, line, jet, x, y, skipped).Some?
    ensures var l := Fall(s, drawn, piece, line, jet, x, y, skipped).value;
            l.rest.y <= y && (y - skipped >= 0 ==> l.rest.y - skipped >= 0) && Landed(l, piece, line, skipped)
    decreases y - skipped
  {
    var r := FallStep(s, drawn, piece, line, jet, x, y, skipped);
    if r.Moved? {
      FallRests(r.data, r.drawn, piece, line, r.jet, r.x, r.y, skipped);
    } else if r.Settled? {
      StepSettles(s, drawn, piece, line, jet, x, y, skipped);
    }
  }

  /** A rock drawn where it settles and cleared again leaves the buffer its
      collision was tested against. */
  lemma SettledClears(s1: seq<bool>, cells: seq<(int, int)>, piece: Piece, x: int, y: int)
    requires |s1| == Cells && forall c | c in cells :: InMap(c)
    requires Collides(Paint(Paint(s1, cells, true), cells, false), piece, x, y)
    ensures Collides(Paint(Paint(Paint(Paint(s1, cells, true), cells, false), cells, true), cells, false), piece, x, y)
  {
    PaintThenClear(Paint(s1, cells, true), cells);
  }

  /** A new rock: drawn at `x = 2` in row `y`, then falling. A rock that
      appears on or above the floor comes to rest there, never above where
      it appeared. */
  ghost function Drop(s: seq<bool>, drawn: seq<(int, int)>, piece: Piece, line: string, jet: nat,
                      skipped: int, y: int): (r: Option<Landing>)
    requires FallInputs(s, drawn, piece, line, jet)
    ensures r.Some? ==>
              r.value.rest.y <= y && (y - skipped >= 0 ==> r.value.rest.y - skipped >= 0) &&
              Placed(r.value, piece, line, skipped)
  {
    if !Drawable(piece, 2, y - skipped) then None
    else
      var cells := PieceCells(piece.data, 2, y - skipped);
      var r := Fall(Paint(s, cells, true), cells, piece, line, jet, 2, y, skipped);
      if r.Some? then
        FallRests(Paint(s, cells, true), cells, piece, line, jet, 2, y, skipped);
        r
      else r
  }

  /** A rock that does not panic comes to rest: one row lower collides. */
  lemma DropLands(s: seq<bool>, drawn: seq<(int, int)>, piece: Piece, line: string, jet: nat, skipped: int, y: int)
    requires FallInputs(s, drawn, piece, line, jet) && Drop(s, drawn, piece, line, jet, skipped, y).Some?
    ensures Landed(Drop(s, drawn, piece, line, jet, skipped, y).value, piece, line, skipped)
  {
    var cells := PieceCells(piece.data, 2, y - skipped);
    FallRests(Paint(s, cells, true), cells, piece, line, jet, 2, y, skipped);
  }

  datatype Move = Stuck | Stopped(rest: Rest) | Fell(x: int, jet: nat)

  /** The body of the inner `loop` of `main`, which moves the rock at
      `(x, y)` by one jet and one row: it does what `FallStep` says. */
  method FallOnce(chamber: Map, piece: Piece, line: string, jet: nat, x: int, y: int, skipped: int)
    returns (m: Move)
    requires chamber.Valid() && FallInputs(chamber.data[..], chamber.previousDraw, piece, line, jet)
    modifies chamber, chamber.data
    ensures chamber.Valid()
    ensures var step := FallStep(old(chamber.data[..]), old(chamber.previousDraw), piece, line, jet, x, y, skipped);
            (m.Stuck? <==> step.Panicked?) &&
            (m.Stopped? ==> step.Settled? && m.rest == step.landing.rest &&
                            chamber.data[..] == step.landing.data && chamber.previousDraw == step.landing.drawn) &&
            (m.Fell? ==> step.Moved? && m.x == step.x && m.jet == step.jet &&
                         chamber.data[..] == step.data && chamber.previousDraw == step.drawn)
  {
    var x' := PushRock(chamber, piece, line, jet, x, y, skipped);
    if !Drawable(piece, x', y - skipped) {
      return Stuck;
    }
    m := Lower(chamber, piece, line, jet, x', y, skipped);
  }

  /** The second half of the inner loop's body: it does what `Descend`
      says. */
  method Lower(chamber: Map, piece: Piece, line: string, jet: nat, x: int, y: int, skipped: int)
    returns (m: Move)
    requires chamber.Valid() && |chamber.data[..]| == Cells && jet < |line| && WellFormed(piece)
    requires Drawable(piece, x, y - skipped)
    modifies chamber, chamber.data
    ensures chamber.Valid()
    ensures var step := Descend(old(chamber.data[..]), piece, line, jet, x, y, skipped);
            (m.Stuck? <==> step.Panicked?) &&
            (m.Stopped? ==> step.Settled? && m.rest == step.landing.rest &&
                            chamber.data[..] == step.landing.data && chamber.previousDraw == step.landing.drawn) &&
            (m.Fell? ==> step.Moved? && m.x == step.x && m.jet == step.jet &&
                         chamber.data[..] == step.data && chamber.previousDraw == step.drawn)
  {
    ghost var s1 := chamber.data[..];
    chamber.DrawPiece(x, y - skipped, piece);
    ghost var cells := chamber.previousDraw;
    chamber.ClearPreviousPiece();
    assert chamber.data[..] == Paint(Paint(s1, cells, true), cells, false);
    m := Alight(chamber, piece, line, jet, x, y, skipped);
  }

  /** The end of the inner loop's body: it does what `Land` says. */
  method Alight(chamber: Map, piece: Piece, line: string, jet: nat, x: int, y: int, skipped: int)
    returns (m: Move)
    requires chamber.Valid() && |chamber.data[..]| == Cells && jet < |line| && WellFormed(piece)
    requires Drawable(piece, x, y - skipped)
    modifies chamber, chamber.data
    ensures chamber.Valid()
    ensures var step := Land(old(chamber.data[..]), piece, line, jet, x, y, skipped);
            (m.Stuck? <==> step.Panicked?) &&
            (m.Stopped? ==> step.Settled? && m.rest == step.landing.rest &&
                            chamber.data[..] == step.landing.data && chamber.previousDraw == step.landing.drawn) &&
            (m.Fell? ==> step.Moved? && m.x == step.x && m.jet == step.jet &&
                         chamber.data[..] == step.data && chamber.previousDraw == step.drawn)
  {
    var nextJet := (jet + 1) % |line|;
    var hit := chamber.HasCollision(piece, x, y - 1 - skipped);
    if hit {
      chamber.DrawPiece(x, y - skipped, piece);
      return Stopped(Rest(x, y, nextJet, jet));
    }
    if !Drawable(piece, x, y - 1 - skipped) {
      return Stuck;
    }
    chamber.DrawPiece(x, y - 1 - skipped, piece);
    return Fell(x, nextJet);
  }

  /** The first half of the inner loop's body: clears the rock and takes
      the push of the next jet when the rock does not collide there. */
  method PushRock(chamber: Map, piece: Piece, line: string, jet: nat, x: int, y: int, skipped: int)
    returns (x': int)
    requires chamber.Valid() && FallInputs(chamber.data[..], chamber.previousDraw, piece, line, jet)
    modifies chamber, chamber.data
    ensures chamber.Valid() && chamber.previousDraw == []
    ensures chamber.data[..] == Paint(old(chamber.data[..]), old(chamber.previousDraw), false)
    ensures x' == Shift(chamber.data[..], piece, line, jet, x, y, skipped)
  {
    var push := Push(line[jet]);
    chamber.ClearPreviousPiece();
    var hit := chamber.HasCollision(piece, x + push, y - skipped);
    x' := if !hit then x + push else x;
  }

  /** The inner `loop` of `main` for one rock, from its first draw three
      rows above `highest_non_moving` to its rest: the buffer and the
      drawing follow `Drop`, `None` where a draw panics; the new
      `highest_non_moving` is the larger of the old one and the top of the
      rock at rest. */
  method DropRock(chamber: Map, piece: Piece, line: string, jet: nat, skipped: int, highestNonMoving: int, y: int)
    returns (r: Option<Rest>, highestAfter: int)
    requires chamber.Valid() && FallInputs(chamber.data[..], chamber.previousDraw, piece, line, jet)
    requires y >= highestNonMoving
    modifies chamber, chamber.data
    ensures chamber.Valid()
    ensures var l := Drop(old(chamber.data[..]), old(chamber.previousDraw), piece, line, jet, skipped, y);
            (r.None? <==> l.None?) &&
            (r.Some? ==> r.value == l.value.rest && chamber.data[..] == l.value.data && chamber.previousDraw == l.value.drawn)
    ensures r.Some? ==> highestAfter == Max(highestNonMoving, r.value.y + piece.height)
  {
    var x := 2;
    if !Drawable(piece, x, y - skipped) {
      return None, highestNonMoving;
    }
    chamber.DrawPiece(x, y - skipped, piece);
    var highest := y + piece.height;
    r, highestAfter := Settle(chamber, piece, line, jet, x, y, skipped, highestNonMoving, highest);
  }

  /** The iterations of the inner `loop` of `main`: the rock falls as
      `Fall` says; `highest` tracks the top of the falling rock but never
      drops below `highest_non_moving`. */
  method Settle(chamber: Map, piece: Piece, line: string, jet0: nat, x0: int, y0: int, skipped: int,
                highestNonMoving: int, highest0: int)
    returns (r: Option<Rest>, highestAfter: int)
    requires chamber.Valid() && FallInputs(chamber.data[..], chamber.previousDraw, piece, line, jet0)
    requires highest0 == Max(highestNonMoving, y0 + piece.height)
    modifies chamber, chamber.data
    ensures chamber.Valid()
    ensures var l := Fall(old(chamber.data[..]), old(chamber.previousDraw), piece, line, jet0, x0, y0, skipped);
            (r.None? <==> l.None?) &&
            (r.Some? ==> r.value == l.value.rest && chamber.data[..] == l.value.data && chamber.previousDraw == l.value.drawn)
    ensures r.Some? ==> highestAfter == Max(highestNonMoving, r.value.y + piece.height)
  {
    ghost var goal := Fall(chamber.data[..], chamber.previousDraw, piece, line, jet0, x0, y0, skipped);
    var x, y, jet, highest := x0, y0, jet0, highest0;
    highestAfter := highestNonMoving;
    while true
      invariant chamber.Valid() && FallInputs(chamber.data[..], chamber.previousDraw, piece, line, jet)
      invariant Fall(chamber.data[..], chamber.previousDraw, piece, line, jet, x, y, skipped) == goal
      invariant highest == Max(highestNonMoving, y + piece.height)
      decreases y - skipped
    {
      var m := FallOnce(chamber, piece, line, jet, x, y, skipped);
      match m
      case Stuck =>
        return None, highestAfter;
      case Stopped(rest) =>
        highestAfter := Max(highestNonMoving, highest);
        return Some(rest), highestAfter;
      case Fell(x', jet') =>
        x, y, jet := x', y - 1, jet';
        highest := Max(highestNonMoving, highest - 1);
    }
  }

  // ---------------------------------------------------------------------------
  // What a rock leaves behind.

  /** Every filled cell of the shape placed at column `x` lies between the
      walls. */
  predicate FitsWidth(piece: Piece, x: int)
  {
    forall dy, dx | 0 <= dy < |piece.data| && 0 <= dx < |piece.data[dy]| && piece.data[dy][dx] :: 0 <= x + dx < MapWidth
  }

  /** A shape that does not collide lies between the walls. */
  lemma FreeFits(s: seq<bool>, piece: Piece, x: int, y: int)
    requires |s| == Cells && !Collides(s, piece, x, y)
    ensures FitsWidth(piece, x)
  {
    CollidesMeans(s, piece, x, y);
    forall dy, dx | 0 <= dy < |piece.data| && 0 <= dx < |piece.data[dy]| && piece.data[dy][dx]
      ensures 0 <= x + dx < MapWidth
    {
      assert !HitsAt(s, piece, x, y, dy, dx);
    }
  }

  /** Every occupied cell of `s` was occupied in `s0` or is one of `cells`. */
  ghost predicate Keeps(s0: seq<bool>, s: seq<bool>, cells: seq<(int, int)>)
  {
    forall i | 0 <= i < |s| && s[i] :: (i < |s0| && s0[i]) || Covers(cells, i)
  }

  /** Clearing the last drawing, drawing and clearing `a`, then drawing `b`
      leaves nothing new but `b`. */
  lemma RedrawKeeps(s0: seq<bool>, s: seq<bool>, drawn: seq<(int, int)>, a: seq<(int, int)>, b: seq<(int, int)>)
    requires |s0| == Cells && |s| == Cells && Keeps(s0, s, drawn)
    requires (forall c | c in drawn :: InMap(c)) && (forall c | c in a :: InMap(c)) && forall c | c in b :: InMap(c)
    ensures Keeps(s0, Paint(Paint(Paint(Paint(s, drawn, false), a, true), a, false), b, true), b)
  {
    PaintAt(s, drawn, false);
    PaintAt(Paint(s, drawn, false), a, true);
    PaintAt(Paint(Paint(s, drawn, false), a, true), a, false);
    PaintAt(Paint(Paint(Paint(s, drawn, false), a, true), a, false), b, true);
  }

  /** Drawing the pushed rock, clearing it and landing leave nothing new
      but the rock, where it moved or where it rests. */
  lemma DescendKeeps(s0: seq<bool>, s: seq<bool>, drawn: seq<(int, int)>, piece: Piece, line: string, jet: nat,
                     x: int, y: int, skipped: int)
    requires FallInputs(s, drawn, piece, line, jet) && |s0| == Cells && Keeps(s0, s, drawn)
    requires Drawable(piece, x, y - skipped) && FitsWidth(piece, x)
    ensures var r := Descend(Paint(s, drawn, false), piece, line, jet, x, y, skipped);
            (r.Moved? ==> Keeps(s0, r.data, r.drawn) && FitsWidth(piece, r.x)) &&
            (r.Settled? ==> Keeps(s0, r.landing.data, r.landing.drawn) && FitsWidth(piece, r.landing.rest.x))
  {
    var cells := PieceCells(piece.data, x, y - skipped);
    RedrawKeeps(s0, s, drawn, cells, cells);
    if Drawable(piece, x, y - 1 - skipped) {
      RedrawKeeps(s0, s, drawn, cells, PieceCells(piece.data, x, y - 1 - skipped));
    }
  }

  /** One step of the fall leaves nothing new but the rock, and keeps it
      between the walls. */
  lemma StepKeeps(s0: seq<bool>, s: seq<bool>, drawn: seq<(int, int)>, piece: Piece, line: string, jet: nat,
                  x: int, y: int, skipped: int)
    requires FallInputs(s, drawn, piece, line, jet) && |s0| == Cells && Keeps(s0, s, drawn) && FitsWidth(piece, x)
    ensures var r := FallStep(s, drawn, piece, line, jet, x, y, skipped);
            (r.Moved? ==> Keeps(s0, r.data, r.drawn) && FitsWidth(piece, r.x)) &&
            (r.Settled? ==> Keeps(s0, r.landing.data, r.landing.drawn) && FitsWidth(piece, r.landing.rest.x))
  {
    var s1 := Paint(s, drawn, false);
    var push := Push(line[jet]);
    if !Collides(s1, piece, x + push, y - skipped) {
      FreeFits(s1, piece, x + push, y - skipped);
    }
    var x' := Shift(s1, piece, line, jet, x, y, skipped);
    if Drawable(piece, x', y - skipped) {
      DescendKeeps(s0, s, drawn, piece, line, jet, x', y, skipped);
    }
  }

  /** The whole fall leaves nothing new but the rock where it rests, between
      the walls. */
  lemma {:induction false} FallKeeps(s0: seq<bool>, s: seq<bool>, drawn: seq<(int, int)>, piece: Piece, line: string,
                                     jet: nat, x: int, y: int, skipped: int)
    requires FallInputs(s, drawn, piece, line, jet) && |s0| == Cells && Keeps(s0, s, drawn) && FitsWidth(piece, x)
    requires Fall(s, drawn, piece, line, jet, x, y, skipped).Some?
    ensures var l := Fall(s, drawn, piece, line, jet, x, y, skipped).value;
            Keeps(s0, l.data, l.drawn) && FitsWidth(piece, l.rest.x)
    decreases y - skipped
  {
    StepKeeps(s0, s, drawn, piece, line, jet, x, y, skipped);
    var r := FallStep(s, drawn, piece, line, jet, x, y, skipped);
    if r.Moved? {
      FallKeeps(s0, r.data, r.drawn, piece, line, r.jet, r.x, r.y, skipped);
    }
  }

  /** A rock that appears where it fits leaves the buffer as it was, plus
      the rock where it rests, between the walls. */
  lemma DropKeeps(s: seq<bool>, drawn: seq<(int, int)>, piece: Piece, line: string, jet: nat, skipped: int, y: int)
    requires FallInputs(s, drawn, piece, line, jet) && FitsWidth(piece, 2)
    requires Drop(s, drawn, piece, line, jet, skipped, y).Some?
    ensures var l := Drop(s, drawn, piece, line, jet, skipped, y).value;
            Keeps(s, l.data, l.drawn) && FitsWidth(piece, l.rest.x)
  {
    var cells := PieceCells(piece.data, 2, y - skipped);
    PaintAt(s, cells, true);
    FallKeeps(s, Paint(s, cells, true), cells, piece, line, jet, 2, y, skipped);
  }

  /** Every occupied cell of `s` lies in the first `rows` rows. */
  ghost predicate Below(s: seq<bool>, rows: int)
  {
    forall i | 0 <= i < |s| && s[i] :: i < MapWidth * rows
  }

  /** After a rock rests, the occupied cells lie below the old bound or the
      top of the rock, whichever is higher. */
  lemma LandingBelow(s: seq<bool>, data: seq<bool>, piece: Piece, x: int, y: int, rows: int)
    requires |s| == Cells && |data| == Cells && WellFormed(piece)
    requires Keeps(s, data, PieceCells(piece.data, x, y)) && FitsWidth(piece, x) && Below(s, rows)
    ensures Below(data, Max(rows, y + piece.height))
  {
    forall i | 0 <= i < |data| && data[i]
      ensures i < MapWidth * Max(rows, y + piece.height)
    {
      if !s[i] {
        var c :| c in PieceCells(piece.data, x, y) && Index(c.0, c.1) == i;
        var dy, dx :| 0 <= dy < |piece.data| && 0 <= dx < |piece.data[dy]| && piece.data[dy][dx] && c == (x + dx, y + dy);
        assert 0 <= x + dx < MapWidth;
        assert i < MapWidth * (y + dy + 1);
      }
    }
  }

  // ---------------------------------------------------------------------------
  // Skipping ahead.

  /** `max_cycles` as the program computes it: the whole cycles of `length`
      rocks that fit between rock `n` and one trillion. */
  function CyclesAsWritten(n: nat, length: int): (k: int)
    requires n < TotalCycles && length > 0
    ensures k >= 0 && n + length * k <= TotalCycles
  {
    (TotalCycles - n) / length
  }

  /** When the rocks left after rock `n` are a whole number of cycles, the
      skip lands `n` on one trillion itself, and the `n += 1` that closes the
      iteration counts one rock more than one trillion. */
  lemma AsWrittenCountsOneRockMore(n: nat, length: int)
    requires n < TotalCycles && length > 0 && (TotalCycles - n) % length == 0
    ensures n + length * CyclesAsWritten(n, length) + 1 == TotalCycles + 1
  {
  }

  /** The case above happens: a cycle of five rocks found at rock
      `999999999995`. */
  lemma AsWrittenOvershoots()
    ensures TotalCycles - 5 + 5 * CyclesAsWritten(TotalCycles - 5, 5) + 1 > TotalCycles
  {
    AsWrittenCountsOneRockMore(TotalCycles - 5, 5);
  }

  /** The most whole cycles of `length` rocks that can be skipped after rock
      `n` while at most one trillion rocks are counted: one more cycle would
      count too many. */
  function Cycles(n: nat, length: int): (k: int)
    requires n < TotalCycles && length > 0
    ensures k >= 0 && n + length * k + 1 <= TotalCycles < n + length * (k + 1) + 1
  {
    (TotalCycles - 1 - n) / length
  }

  // ---------------------------------------------------------------------------
  // The rocks: the outer `while` of `main`.

  /** The row `get_row` reads: its seven marks from left to right. */
  function RowOf(s: seq<bool>, y: int): string
    requires |s| == Cells && InMap((0, y)) && InMap((MapWidth - 1, y))
  {
    seq(MapWidth, x requires 0 <= x < MapWidth => Mark(s[Index(x, y)]))
  }

  /** The scalar variables of `main` between two rocks:
      `highest_non_moving`, `piece_index`, the position of the jet
      iterator, `indices_map`, `first_cycle_index`, `last_cycle_index`,
      `skipped_height` and `n`. */
  datatype Counters = Counters(highest: int, pieceIndex: nat, jet: nat, seen: map<(nat, nat, string), int>,
                               first: Option<(nat, int)>, last: Option<(nat, int)>, skipped: int, n: nat)

  /** All of `main`'s state between two rocks: the buffer, its last drawing
      and the counters. */
  datatype Tower = Tower(data: seq<bool>, drawn: seq<(int, int)>, c: Counters)

  /** An empty chamber before the first rock. */
  function Start(): Tower
  {
    Tower(seq(Cells, _ => false), [], Counters(0, 0, 0, map[], None, None, 0, 0))
  }

  /** A full buffer whose drawing lies inside it, a shape index and a jet
      position in range. */
  predicate Ready(t: Tower, line: string)
  {
    |t.data| == Cells && (forall c | c in t.drawn :: InMap(c)) && t.c.pieceIndex < ShapeCount &&
    (|line| == 0 || t.c.jet < |line|)
  }

  /** The cycle detection once the key of the rock's top row has been seen
      `count` times: the second sighting of any key marks the first cycle,
      the third sighting of a key marks the second and skips ahead by as
      many whole cycles as still fit, adding their height to
      `highest_non_moving`. `None` where `cycle_length` underflows or is
      zero. */
  function Track(c: Counters, count: int): (r: Option<Counters>)
    requires c.n < TotalCycles
    ensures r.Some? ==>
              r.value.pieceIndex == c.pieceIndex && r.value.jet == c.jet && r.value.seen == c.seen &&
              c.n <= r.value.n < TotalCycles
  {
    if count > 1 then
      if c.first.None? then Some(c.(first := Some((c.n, c.highest))))
      else if count == 3 && c.last.None? then
        var length := c.n - c.first.value.0;
        var height := c.highest - c.first.value.1;
        if length <= 0 then None
        else
          var k := Cycles(c.n, length);
          Some(c.(last := Some((c.n, c.highest)), n := c.n + length * k, skipped := height * k,
                  highest := c.highest + height * k))
      else Some(c)
    else Some(c)
  }

  /** The bookkeeping once the rock rests as `rest` says, `highest` is the
      new `highest_non_moving` and `row` the top row: the key of the shape,
      the last jet and the row is counted, `Track` looks for a cycle, then
      `n` and the shape index move on and the jets continue after the last
      one used. */
  function Tally(c: Counters, rest: Rest, highest: int, row: string): (r: Option<Counters>)
    requires c.n < TotalCycles
    ensures r.Some? ==>
              r.value.jet == rest.jet && r.value.pieceIndex == (c.pieceIndex + 1) % ShapeCount &&
              c.n < r.value.n <= TotalCycles
  {
    var key := (c.pieceIndex, rest.lastJet, row);
    var count := (if key in c.seen then c.seen[key] else 0) + 1;
    match Track(c.(highest := highest, jet := rest.jet, seen := c.seen[key := count]), count)
    case None => None
    case Some(u) => Some(u.(n := u.n + 1, pieceIndex := (c.pieceIndex + 1) % ShapeCount))
  }

  /** What follows a rock resting as `l` says: `highest_non_moving` becomes
      the top of the rock if that is higher, and `Tally` counts the new top
      row. `None` where that row lies outside the buffer or `Track`
      panics. */
  function Record(c: Counters, l: Landing): (r: Option<Tower>)
    requires c.n < TotalCycles && c.pieceIndex < ShapeCount && |l.data| == Cells
    ensures r.Some? ==>
              r.value.data == l.data && r.value.drawn == l.drawn && r.value.c.jet == l.rest.jet &&
              r.value.c.pieceIndex == (c.pieceIndex + 1) % ShapeCount && c.n < r.value.c.n <= TotalCycles
  {
    var highest := Max(c.highest, l.rest.y + Shape(c.pieceIndex).height);
    var row := highest - 1 - c.skipped;
    if !InMap((0, row)) || !InMap((MapWidth - 1, row)) then None
    else
      match Tally(c, l.rest, highest, RowOf(l.data, row))
      case None => None
      case Some(u) => Some(Tower(l.data, l.drawn, u))
  }

  /** Once the rock has landed and its top row is inside the buffer,
      `Record` is `Tally` on that row. */
  lemma RecordTallies(c: Counters, l: Landing, highest: int, row: int, lastRow: string)
    requires c.n < TotalCycles && c.pieceIndex < ShapeCount && |l.data| == Cells
    requires highest == Max(c.highest, l.rest.y + Shape(c.pieceIndex).height)
    requires row == highest - 1 - c.skipped && InMap((0, row)) && InMap((MapWidth - 1, row))
    requires lastRow == RowOf(l.data, row)
    ensures Record(c, l) == match Tally(c, l.rest, highest, lastRow)
                            case None => None
                            case Some(u) => Some(Tower(l.data, l.drawn, u))
  {
  }

  /** One iteration of the outer loop: the next shape appears three rows
      above `highest_non_moving` and falls, then `Record` does the
      bookkeeping. `None` where the program panics. */
  ghost function Turn(t: Tower, line: string): (r: Option<Tower>)
    requires Ready(t, line) && t.c.n < TotalCycles
    ensures r.Some? ==> Ready(r.value, line) && r.value.c.pieceIndex == (t.c.pieceIndex + 1) % ShapeCount
    ensures r.Some? ==> t.c.n < r.value.c.n <= TotalCycles
  {
    if |line| == 0 then None
    else
      match Drop(t.data, t.drawn, Shape(t.c.pieceIndex), line, t.c.jet, t.c.skipped, t.c.highest + 3)
      case None => None
      case Some(l) => Record(t.c, l)
  }

  /** The state after `k` iterations of the outer loop, or `None` if the
      program panicked; once `n` reaches one trillion the loop has ended. */
  ghost function Towers(line: string, k: nat): (r: Option<Tower>)
    ensures r.Some? ==> Ready(r.value, line)
  {
    if k == 0 then Some(Start())
    else
      match Towers(line, k - 1)
      case None => None
      case Some(t) => if t.c.n < TotalCycles then Turn(t, line) else Some(t)
  }

  /** What holds between two rocks: no more than one trillion rocks are
      counted, the skipped height lies between zero and the tower's height
      and is zero before the skip, the first cycle lies behind, and every
      occupied cell of the buffer lies below `highest_non_moving -
      skipped_height`. */
  ghost predicate TowerInv(t: Tower)
  {
    0 <= t.c.skipped <= t.c.highest && t.c.n <= TotalCycles && (t.c.last.None? ==> t.c.skipped == 0) &&
    (t.c.first.Some? ==> t.c.first.value.0 < t.c.n && t.c.first.value.1 <= t.c.highest) &&
    Below(t.data, t.c.highest - t.c.skipped)
  }

  /** The cycle detection keeps the bounds of what holds between two
      rocks (`n` still to be raised), keeps `highest_non_moving -
      skipped_height` and never lowers the tower. */
  lemma TrackKeeps(c: Counters, count: int)
    requires c.n < TotalCycles && Track(c, count).Some?
    requires 0 <= c.skipped <= c.highest && (c.last.None? ==> c.skipped == 0)
    requires c.first.Some? ==> c.first.value.0 < c.n && c.first.value.1 <= c.highest
    ensures var u := Track(c, count).value;
            0 <= u.skipped <= u.highest && (u.last.None? ==> u.skipped == 0) &&
            (u.first.Some? ==> u.first.value.0 <= u.n && u.first.value.1 <= u.highest) &&
            u.highest - u.skipped == c.highest - c.skipped && u.highest >= c.highest
  {
    if count > 1 && c.first.Some? && count == 3 && c.last.None? {
      var length := c.n - c.first.value.0;
      var height := c.highest - c.first.value.1;
      var k := Cycles(c.n, length);
      assert height * k >= 0;
    }
  }

  /** The bookkeeping keeps what holds between two rocks when the new
      buffer lies below the new `highest_non_moving`. */
  lemma RecordKeeps(t: Tower, l: Landing)
    requires t.c.n < TotalCycles && t.c.pieceIndex < ShapeCount && |l.data| == Cells && TowerInv(t)
    requires Below(l.data, Max(t.c.highest, l.rest.y + Shape(t.c.pieceIndex).height) - t.c.skipped)
    requires Record(t.c, l).Some?
    ensures var u := Record(t.c, l).value; TowerInv(u) && u.c.highest >= t.c.highest
  {
    var c := t.c;
    var highest := Max(c.highest, l.rest.y + Shape(c.pieceIndex).height);
    var row := highest - 1 - c.skipped;
    var key := (c.pieceIndex, l.rest.lastJet, RowOf(l.data, row));
    var count := (if key in c.seen then c.seen[key] else 0) + 1;
    TrackKeeps(c.(highest := highest, jet := l.rest.jet, seen := c.seen[key := count]), count);
  }

  /** The rock that appears in row `y`, three rows above
      `highest_non_moving`, and rests as `Drop` says leaves every occupied
      cell below the new `highest_non_moving - skipped_height`. */
  lemma DropBelow(t: Tower, line: string, y: int)
    requires Ready(t, line) && |line| > 0 && TowerInv(t) && y == t.c.highest + 3
    requires WellFormed(Shape(t.c.pieceIndex))
    requires Drop(t.data, t.drawn, Shape(t.c.pieceIndex), line, t.c.jet, t.c.skipped, y).Some?
    ensures var l := Drop(t.data, t.drawn, Shape(t.c.pieceIndex), line, t.c.jet, t.c.skipped, y).value;
            Below(l.data, Max(t.c.highest, l.rest.y + Shape(t.c.pieceIndex).height) - t.c.skipped)
  {
    var l := Drop(t.data, t.drawn, Shape(t.c.pieceIndex), line, t.c.jet, t.c.skipped, y).value;
    DropKeeps(t.data, t.drawn, Shape(t.c.pieceIndex), line, t.c.jet, t.c.skipped, y);
    LandingBelow(t.data, l.data, Shape(t.c.pieceIndex), l.rest.x, l.rest.y - t.c.skipped, t.c.highest - t.c.skipped);
  }

  /** An iteration appears the rock in row `y`, three rows above
      `highest_non_moving`: it panics where `Drop` does, else `Record` does
      the bookkeeping. */
  lemma TurnRecords(t: Tower, line: string, y: int)
    requires Ready(t, line) && t.c.n < TotalCycles && |line| > 0 && y == t.c.highest + 3
    ensures var d := Drop(t.data, t.drawn, Shape(t.c.pieceIndex), line, t.c.jet, t.c.skipped, y);
            Turn(t, line) == if d.None? then None else Record(t.c, d.value)
  {
  }

  /** One rock keeps what holds between two rocks, raises `n` and never
      lowers `highest_non_moving`. */
  lemma TurnKeeps(t: Tower, line: string)
    requires Ready(t, line) && t.c.n < TotalCycles && TowerInv(t) && Turn(t, line).Some?
    ensures var u := Turn(t, line).value; TowerInv(u) && u.c.highest >= t.c.highest && u.c.n > t.c.n
  {
    assert |line| > 0;
    var y := t.c.highest + 3;
    TurnRecords(t, line, y);
    DropBelow(t, line, y);
    RecordKeeps(t, Drop(t.data, t.drawn, Shape(t.c.pieceIndex), line, t.c.jet, t.c.skipped, y).value);
  }

  /** The iteration after `j`, while fewer than one trillion rocks are
      counted, is `Turn` of it. */
  lemma TowersNext(line: string, j: nat, k: nat)
    requires k == j + 1 && Towers(line, j).Some? && Towers(line, j).value.c.n < TotalCycles
    ensures Towers(line, k) == Turn(Towers(line, j).value, line)
  {
  }

  /** An iteration `k` that did not panic follows an iteration `j` that
      did not, and is `Turn` of it while fewer than one trillion rocks are
      counted. */
  lemma TowersStep(line: string, j: nat, k: nat)
    requires k == j + 1 && Towers(line, k).Some?
    ensures Towers(line, j).Some?
    ensures var t := Towers(line, j).value;
            Towers(line, k) == if t.c.n < TotalCycles then Turn(t, line) else Some(t)
  {
  }

  /** What holds between two rocks holds after every iteration. */
  lemma {:induction false} TowersKeep(line: string, k: nat)
    requires Towers(line, k).Some?
    ensures TowerInv(Towers(line, k).value)
  {
    if k > 0 {
      TowersStep(line, k - 1, k);
      TowersKeep(line, k - 1);
      var t := Towers(line, k - 1).value;
      if t.c.n < TotalCycles {
        TurnKeeps(t, line);
      }
    }
  }

  /** One iteration, from `j` to `k`, never lowers `n` or
      `highest_non_moving`. */
  lemma TowersGrowStep(line: string, j: nat, k: nat)
    requires k == j + 1 && Towers(line, k).Some?
    ensures Towers(line, j).Some? && Towers(line, j).value.c.n <= Towers(line, k).value.c.n &&
            Towers(line, j).value.c.highest <= Towers(line, k).value.c.highest
  {
    TowersStep(line, j, k);
    var t := Towers(line, j).value;
    if t.c.n < TotalCycles {
      TowersKeep(line, j);
      TurnKeeps(t, line);
    }
  }

  /** The body of the outer loop: it does what `Turn` says, on the buffer
      and the counters. */
  method PlaceRock(chamber: Map, line: string, c: Counters) returns (r: Option<Counters>)
    requires chamber.Valid() && |line| > 0 && c.n < TotalCycles
    requires Ready(Tower(chamber.data[..], chamber.previousDraw, c), line)
    modifies chamber, chamber.data
    ensures chamber.Valid()
    ensures var u := Turn(Tower(old(chamber.data[..]), old(chamber.previousDraw), c), line);
            (r.None? <==> u.None?) && (r.Some? ==> u.value == Tower(chamber.data[..], chamber.previousDraw, r.value))
  {
    var y := c.highest + 3;
    ghost var t := Tower(chamber.data[..], chamber.previousDraw, c);
    ghost var d := Drop(t.data, t.drawn, Shape(c.pieceIndex), line, c.jet, c.skipped, y);
    TurnRecords(t, line, y);
    var rest, highest := DropRock(chamber, Shape(c.pieceIndex), line, c.jet, c.skipped, c.highest, y);
    if rest.None? {
      return None;
    }
    assert d.value == Landing(chamber.data[..], chamber.previousDraw, rest.value);
    var row := highest - 1 - c.skipped;
    if !InMap((0, row)) || !InMap((MapWidth - 1, row)) {
      return None;
    }
    var lastRow := chamber.GetRow(row);
    assert lastRow == RowOf(chamber.data[..], row);
    RecordTallies(c, d.value, highest, row, lastRow);
    r := Tally(c, rest.value, highest, lastRow);
  }

  /** `main`: drops rocks until `n` reaches one trillion and answers
      `highest_non_moving`; after each iteration its state is that of
      `Towers`. `None` where the program panics, after the iteration that
      panics; an empty line of jets panics at the first push. */
  method Simulate(line: string) returns (answer: Option<int>, ghost iterations: nat)
    ensures answer.None? <==> Towers(line, iterations).None?
    ensures answer.Some? ==>
              Towers(line, iterations).value.c.n == TotalCycles && answer.value == Towers(line, iterations).value.c.highest
    ensures answer.Some? ==> TowerInv(Towers(line, iterations).value)
  {
    var chamber := new Map();
    var c := Counters(0, 0, 0, map[], None, None, 0, 0);
    iterations := 0;
    if |line| == 0 {
      assert Towers(line, 1) == Turn(Start(), line);
      return None, 1;
    }
    while c.n < TotalCycles
      invariant chamber.Valid()
      invariant Towers(line, iterations) == Some(Tower(chamber.data[..], chamber.previousDraw, c))
      decreases TotalCycles - c.n
    {
      ghost var next := iterations + 1;
      TowersNext(line, iterations, next);
      var r := PlaceRock(chamber, line, c);
      iterations := next;
      if r.None? {
        return None, iterations;
      }
      c := r.value;
    }
    TowersKeep(line, iterations);
    return Some(c.highest), iterations;
  }
}
