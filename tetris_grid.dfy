/**
 * The grid rules shared by the two Tetris scripts (games/tetris/script.js
 * and games/tetris/web_build/script.js, whose grid code is the same line
 * for line): a 20x10 board of empty or coloured cells, the seven shapes,
 * collision, merging, clockwise rotation, line clearing, and the
 * score/level/drop-interval table.
 */
module TetrisGrid {
  import opened Common

  const Cols: int := 10
  const Rows: int := 20

  /** A shape matrix of 0/1 entries. */
  type Shape = seq<seq<int>>

  /** A board cell: `0` (None) or a piece colour. */
  type Cell = Option<string>
  type Row = seq<Cell>
  type Board = seq<Row>

  /** I, O, T, L, J, S, Z. */
  const Shapes: seq<Shape> := [
    [[1, 1, 1, 1]],
    [[1, 1], [1, 1]],
    [[1, 1, 1], [0, 1, 0]],
    [[1, 1, 1], [1, 0, 0]],
    [[1, 1, 1], [0, 0, 1]],
    [[1, 1, 0], [0, 1, 1]],
    [[0, 1, 1], [1, 1, 0]]
  ]

  const Colors: seq<string> := ["#00f0f0", "#f0f000", "#a000f0", "#f0a000", "#0000f0", "#00f000", "#f00000"]

  predicate WellFormedBoard(b: Board) {
    |b| == Rows && forall y | 0 <= y < Rows :: |b[y]| == Cols
  }

  function BlankRow(): (r: Row)
    ensures |r| == Cols && forall x | 0 <= x < Cols :: r[x].None?
  {
    seq(Cols, _ => None)
  }

  /** `createBoard`: ROWS rows of COLS zeros. */
  function EmptyBoard(): (b: Board)
    ensures WellFormedBoard(b)
    ensures forall y, x | 0 <= y < Rows && 0 <= x < Cols :: b[y][x].None?
  {
    seq(Rows, _ => BlankRow())
  }

  /** Two well-formed boards with the same cells are the same board. */
  lemma BoardsEqual(a: Board, b: Board)
    requires WellFormedBoard(a) && WellFormedBoard(b)
    requires forall y, x | 0 <= y < Rows && 0 <= x < Cols :: a[y][x] == b[y][x]
    ensures a == b
  {
    forall y | 0 <= y < Rows
      ensures a[y] == b[y]
    {
      assert forall x | 0 <= x < Cols :: a[y][x] == b[y][x];
    }
  }

  // ---------------------------------------------------------------------
  // Shapes

  /** Entry (r, c) of the shape exists and is non-zero. */
  predicate Filled(s: Shape, r: int, c: int) {
    0 <= r < |s| && 0 <= c < |s[r]| && s[r][c] != 0
  }

  predicate HasFilled(s: Shape) {
    exists r, c | 0 <= r < |s| && 0 <= c < |s[r]| :: s[r][c] != 0
  }

  /** A rectangular shape of at most 4x4 entries with at least one filled entry. */
  predicate ShapeOK(s: Shape) {
    && 1 <= |s| <= 4 && 1 <= |s[0]| <= 4
    && (forall r | 0 <= r < |s| :: |s[r]| == |s[0]|)
    && HasFilled(s)
  }

  /** Each of the seven shapes is well-formed and has a colour. */
  lemma ShapesOK(kind: int)
    requires 0 <= kind < |Shapes|
    ensures ShapeOK(Shapes[kind]) && kind < |Colors|
  {
    assert Shapes[kind][0][1] != 0;
  }

  /** The spawn column: the shape's width centred with floor division. */
  function SpawnX(s: Shape): int
    requires |s| > 0
  {
    Cols / 2 - |s[0]| / 2
  }

  /**
   * The clockwise rotation: row i of the result is column i read from the
   * bottom up, so an r x c shape becomes c x r.
   */
  function Rotated(s: Shape): (t: Shape)
    requires |s| > 0 && forall r | 0 <= r < |s| :: |s[r]| == |s[0]|
    ensures |t| == |s[0]| && forall i | 0 <= i < |t| :: |t[i]| == |s|
  {
    seq(|s[0]|, i requires 0 <= i < |s[0]| => seq(|s|, j requires 0 <= j < |s| => s[|s| - 1 - j][i]))
  }

  /** Rotating keeps a well-formed shape well-formed, its width and height swapped. */
  lemma RotatedOK(s: Shape)
    requires ShapeOK(s)
    ensures ShapeOK(Rotated(s))
    ensures |Rotated(s)| == |s[0]| && |Rotated(s)[0]| == |s|
  {
    var t := Rotated(s);
    var r, c :| 0 <= r < |s| && 0 <= c < |s[r]| && s[r][c] != 0;
    assert t[c][|s| - 1 - r] == s[r][c];
  }

  /** A half turn turns the shape upside down and mirrors it. */
  lemma RotatedTwice(s: Shape)
    requires |s| > 0 && |s[0]| > 0 && forall r | 0 <= r < |s| :: |s[r]| == |s[0]|
    ensures var h := Rotated(Rotated(s));
      && |h| == |s| && (forall i | 0 <= i < |h| :: |h[i]| == |s[0]|)
      && forall i, j | 0 <= i < |s| && 0 <= j < |s[0]| :: h[i][j] == s[|s| - 1 - i][|s[0]| - 1 - j]
  {
  }

  /**
   * The turn is clockwise, not counter-clockwise: the L piece, foot to the
   * left below its bar, turns into a hook whose bar runs down the right
   * (a counter-clockwise turn would give [[1, 0], [1, 0], [1, 1]]).
   */
  lemma RotatedClockwise()
    ensures Rotated(Shapes[3]) == [[1, 1], [0, 1], [0, 1]]
    ensures Rotated(Shapes[3]) != [[1, 0], [1, 0], [1, 1]]
  {
    var t := Rotated(Shapes[3]);
    assert t[0] == [1, 1] && t[1] == [0, 1] && t[2] == [0, 1];
  }

  /** Four clockwise rotations give the shape back. */
  lemma RotatedFourTimes(s: Shape)
    requires |s| > 0 && |s[0]| > 0 && forall r | 0 <= r < |s| :: |s[r]| == |s[0]|
    ensures Rotated(Rotated(Rotated(Rotated(s)))) == s
  {
    var h := Rotated(Rotated(s));
    RotatedTwice(s);
    RotatedTwice(h);
    var f := Rotated(Rotated(h));
    assert |f| == |s|;
    forall i | 0 <= i < |s|
      ensures f[i] == s[i]
    {
      assert |f[i]| == |s[i]|;
      forall j | 0 <= j < |s[0]|
        ensures f[i][j] == s[i][j]
      {
        assert f[i][j] == h[|s| - 1 - i][|s[0]| - 1 - j];
      }
    }
  }

  // ---------------------------------------------------------------------
  // Collision and merging

  /** Board square (x, y) stops a piece cell: off the sides or the bottom, or an occupied cell on the board. */
  predicate Blocked(b: Board, x: int, y: int)
    requires WellFormedBoard(b)
  {
    x < 0 || x >= Cols || y >= Rows || (y >= 0 && b[y][x].Some?)
  }

  /** `collide`: some filled entry of the shape placed at (px, py) is blocked. */
  predicate Collides(b: Board, s: Shape, px: int, py: int)
    requires WellFormedBoard(b)
  {
    exists r, c | 0 <= r < |s| && 0 <= c < |s[r]| :: s[r][c] != 0 && Blocked(b, px + c, py + r)
  }

  /** Every filled entry that lands on a row at or below the top lies inside the board. */
  predicate Fits(s: Shape, px: int, py: int) {
    forall r, c | 0 <= r < |s| && 0 <= c < |s[r]| && s[r][c] != 0 && py + r >= 0 ::
      0 <= px + c < Cols && py + r < Rows
  }

  /** A collision-free placement fits, and no filled entry sits on an occupied or off-board square. */
  lemma FreeMeansEmptyUnder(b: Board, s: Shape, px: int, py: int)
    requires WellFormedBoard(b) && !Collides(b, s, px, py)
    ensures Fits(s, px, py)
    ensures forall r, c | Filled(s, r, c) :: 0 <= px + c < Cols && py + r < Rows
    ensures forall r, c | Filled(s, r, c) && py + r >= 0 :: b[py + r][px + c].None?
  {
    forall r, c | Filled(s, r, c)
      ensures 0 <= px + c < Cols && py + r < Rows
      ensures py + r >= 0 ==> b[py + r][px + c].None?
    {
      assert !Blocked(b, px + c, py + r);
    }
  }

  /** A shape placed entirely above the top row collides only by leaving the sides. */
  lemma AboveTopNeverOverlaps(b: Board, s: Shape, px: int, py: int)
    requires WellFormedBoard(b) && py + |s| <= 0
    ensures Collides(b, s, px, py) <==>
      exists r, c | 0 <= r < |s| && 0 <= c < |s[r]| :: s[r][c] != 0 && (px + c < 0 || px + c >= Cols)
  {
  }

  /** Board square (x, y) is under a filled entry of the shape at (px, py). */
  predicate Covers(s: Shape, px: int, py: int, x: int, y: int) {
    Filled(s, y - py, x - px)
  }

  /**
   * One step of `merge`'s loops: the board cell under entry (r, c) takes
   * the colour when the entry is non-zero and on a row at or below the top.
   */
  function PaintCell(b: Board, s: Shape, color: string, px: int, py: int, r: int, c: int): (b': Board)
    requires WellFormedBoard(b) && Fits(s, px, py) && 0 <= r < |s| && 0 <= c < |s[r]|
    ensures WellFormedBoard(b')
  {
    if s[r][c] != 0 && py + r >= 0 then b[py + r := b[py + r][px + c := Some(color)]] else b
  }

  /** (n, m) is a position of `merge`'s loops over the shape: an entry, or the end of the last row. */
  predicate PaintPos(s: Shape, n: int, m: int) {
    0 <= n <= |s| && (if n < |s| then 0 <= m <= |s[n]| else m == 0)
  }

  /**
   * The board once `merge`'s loops have reached entry (n, m): the cells
   * under the entries of rows 0 .. n-1, then the first m entries of row n,
   * painted one by one.
   */
  function Painted(b: Board, s: Shape, color: string, px: int, py: int, n: int, m: int): (b': Board)
    requires WellFormedBoard(b) && Fits(s, px, py) && PaintPos(s, n, m)
    ensures WellFormedBoard(b')
    decreases n, m
  {
    if m > 0 then PaintCell(Painted(b, s, color, px, py, n, m - 1), s, color, px, py, n, m - 1)
    else if n > 0 then Painted(b, s, color, px, py, n - 1, |s[n - 1]|)
    else b
  }

  /** The painted cells are those under the entries before (n, m) in row-major order; the others are kept. */
  lemma {:induction false} PaintedCells(b: Board, s: Shape, color: string, px: int, py: int, n: int, m: int)
    requires WellFormedBoard(b) && Fits(s, px, py) && PaintPos(s, n, m)
    ensures forall y, x | 0 <= y < Rows && 0 <= x < Cols ::
      Painted(b, s, color, px, py, n, m)[y][x] ==
        if Covers(s, px, py, x, y) && (y - py < n || (y - py == n && x - px < m)) then Some(color) else b[y][x]
    decreases n, m
  {
    if m > 0 {
      PaintedCells(b, s, color, px, py, n, m - 1);
    } else if n > 0 {
      PaintedCells(b, s, color, px, py, n - 1, |s[n - 1]|);
    }
  }

  /** `merge`: the board with every cell under a filled entry of the piece painted its colour. */
  function Merged(b: Board, s: Shape, color: string, px: int, py: int): (b': Board)
    requires WellFormedBoard(b) && Fits(s, px, py)
    ensures WellFormedBoard(b')
  {
    Painted(b, s, color, px, py, |s|, 0)
  }

  /**
   * What `merge` does to each cell: a cell under a filled entry takes the
   * colour, every other cell keeps its content.
   */
  lemma MergedCells(b: Board, s: Shape, color: string, px: int, py: int)
    requires WellFormedBoard(b) && Fits(s, px, py)
    ensures forall y, x | 0 <= y < Rows && 0 <= x < Cols ::
      Merged(b, s, color, px, py)[y][x] == if Covers(s, px, py, x, y) then Some(color) else b[y][x]
  {
    PaintedCells(b, s, color, px, py, |s|, 0);
  }

  /** After merging, the piece collides where it stands, unless it is entirely above the top. */
  lemma MergedBlocksPiece(b: Board, s: Shape, color: string, px: int, py: int, r: int, c: int)
    requires WellFormedBoard(b) && Fits(s, px, py) && Filled(s, r, c) && py + r >= 0
    ensures Collides(Merged(b, s, color, px, py), s, px, py)
  {
    var m := Merged(b, s, color, px, py);
    PaintedCells(b, s, color, px, py, |s|, 0);
    assert Covers(s, px, py, px + c, py + r);
    assert Blocked(m, px + c, py + r);
  }

  /** Rows the shape does not reach are left as they were. */
  lemma MergedRowsOutside(b: Board, s: Shape, color: string, px: int, py: int, y: int)
    requires WellFormedBoard(b) && Fits(s, px, py) && 0 <= y < Rows && (y < py || y >= py + |s|)
    ensures Merged(b, s, color, px, py)[y] == b[y]
  {
    var m := Merged(b, s, color, px, py);
    PaintedCells(b, s, color, px, py, |s|, 0);
    assert forall x | 0 <= x < Cols :: m[y][x] == b[y][x];
  }

  // ---------------------------------------------------------------------
  // Clearing lines

  /** Every cell of the row is non-zero. */
  predicate Full(row: Row) {
    forall x | 0 <= x < |row| :: row[x].Some?
  }

  predicate NoFullRow(b: Board) {
    forall y | 0 <= y < |b| :: !Full(b[y])
  }

  /** A blank row is not full. */
  lemma BlankRowNotFull()
    ensures !Full(BlankRow())
  {
    assert BlankRow()[0].None?;
  }

  /** The empty board has no full row. */
  lemma EmptyNoFullRow()
    ensures NoFullRow(EmptyBoard())
  {
    var b := EmptyBoard();
    forall y | 0 <= y < Rows
      ensures !Full(b[y])
    {
      assert b[y][0].None?;
    }
  }

  /** The rows that are not full, in their order. */
  function Kept(rows: Board): Board {
    if rows == [] then [] else (if Full(rows[0]) then [] else [rows[0]]) + Kept(rows[1..])
  }

  /** How many rows are full. */
  function FullCount(rows: Board): (n: nat)
    ensures n <= |rows|
  {
    if rows == [] then 0 else (if Full(rows[0]) then 1 else 0) + FullCount(rows[1..])
  }

  function Blanks(n: nat): (rows: Board)
    ensures |rows| == n && forall y | 0 <= y < n :: rows[y] == BlankRow()
  {
    seq(n, _ => BlankRow())
  }

  /** `clearLines`: the full rows removed and as many empty rows put on top. */
  function Cleared(b: Board): Board {
    Blanks(FullCount(b)) + Kept(b)
  }

  /** Clearing keeps the order of the rows it keeps: it commutes with concatenation. */
  lemma {:induction false} KeptAppend(a: Board, b: Board)
    ensures Kept(a + b) == Kept(a) + Kept(b)
    ensures FullCount(a + b) == FullCount(a) + FullCount(b)
    decreases |a|
  {
    if a != [] {
      assert (a + b)[1..] == a[1..] + b;
      KeptAppend(a[1..], b);
    } else {
      assert a + b == b;
    }
  }

  /** Kept rows are exactly the rows that are not full; kept and full rows add up to all rows. */
  lemma {:induction false} KeptMeaning(rows: Board)
    ensures forall row :: row in Kept(rows) <==> row in rows && !Full(row)
    ensures |Kept(rows)| + FullCount(rows) == |rows|
    decreases |rows|
  {
    if rows != [] {
      KeptMeaning(rows[1..]);
      assert forall row :: row in rows <==> row == rows[0] || row in rows[1..];
    }
  }

  /** No row of a board without full rows is dropped. */
  lemma {:induction false} NoFullKeptAll(rows: Board)
    requires NoFullRow(rows)
    ensures Kept(rows) == rows && FullCount(rows) == 0
    decreases |rows|
  {
    if rows != [] {
      NoFullKeptAll(rows[1..]);
    }
  }

  /**
   * The cleared board has ROWS rows of COLS cells, no full row, the
   * non-full rows in their order at the bottom and blank rows above them.
   */
  lemma ClearedMeaning(b: Board)
    requires WellFormedBoard(b)
    ensures WellFormedBoard(Cleared(b)) && NoFullRow(Cleared(b))
    ensures Cleared(b)[FullCount(b)..] == Kept(b)
    ensures forall y | 0 <= y < FullCount(b) :: Cleared(b)[y] == BlankRow()
  {
    var c := Cleared(b);
    var k := FullCount(b);
    KeptMeaning(b);
    assert c[k..] == Kept(b);
    forall y | 0 <= y < Rows
      ensures |c[y]| == Cols && !Full(c[y])
    {
      if y < k {
        assert c[y] == BlankRow();
        assert !c[y][0].Some?;
      } else {
        assert c[y] == Kept(b)[y - k];
        assert c[y] in Kept(b);
        var z :| 0 <= z < |b| && b[z] == c[y];
      }
    }
  }

  /** A board whose full rows all lie in rows lo .. hi-1 has no more full rows than that range has rows. */
  lemma {:induction false} FullRowsBetween(m: Board, lo: int, hi: int)
    requires forall y | 0 <= y < |m| && (y < lo || y >= hi) :: !Full(m[y])
    ensures FullCount(m) <= if lo < 0 then (if hi > 0 then hi else 0) else (if hi > lo then hi - lo else 0)
    decreases |m|
  {
    if m != [] {
      assert forall y | 0 <= y < |m| - 1 :: m[1..][y] == m[y + 1];
      FullRowsBetween(m[1..], lo - 1, hi - 1);
    }
  }

  /** Merging one piece into a board without full rows fills at most as many rows as the shape is high. */
  lemma MergedFullRows(b: Board, s: Shape, color: string, px: int, py: int)
    requires WellFormedBoard(b) && Fits(s, px, py) && NoFullRow(b)
    ensures FullCount(Merged(b, s, color, px, py)) <= |s|
  {
    var m := Merged(b, s, color, px, py);
    forall y | 0 <= y < Rows && (y < py || y >= py + |s|)
      ensures !Full(m[y])
    {
      MergedRowsOutside(b, s, color, px, py, y);
    }
    FullRowsBetween(m, py, py + |s|);
  }

  // ---------------------------------------------------------------------
  // Score, level and drop speed

  /** Points per line count at level 1. */
  function LineScore(n: int): int
    requires 0 <= n <= 4
  {
    [0, 40, 100, 300, 1200][n]
  }

  function LevelFor(lines: int): int {
    lines / 10 + 1
  }

  function IntervalFor(level: int): int {
    if 1000 - (level - 1) * 100 > 100 then 1000 - (level - 1) * 100 else 100
  }

  /** The counters `score`, `level`, `lines` and `dropInterval`. */
  datatype Progress = Progress(score: int, level: int, lines: int, dropInterval: int)

  const Start := Progress(0, 1, 0, 1000)

  /** The level follows the line count and the drop interval the level. */
  predicate Tracks(p: Progress) {
    && p.score >= 0 && p.lines >= 0
    && p.level == LevelFor(p.lines) && p.dropInterval == IntervalFor(p.level)
  }

  /** The update of the counters after clearing n > 0 lines; the score uses the level before the update. */
  function Credit(p: Progress, n: int): Progress
    requires 1 <= n <= 4
  {
    var lines := p.lines + n;
    var level := LevelFor(lines);
    Progress(p.score + LineScore(n) * p.level, level, lines, IntervalFor(level))
  }

  /**
   * Crediting lines keeps the counters in step, raises the score by the
   * table entry times the old level, never lowers the level, and keeps the
   * drop interval between 100 and 1000 ms, never longer than before.
   */
  lemma CreditMeaning(p: Progress, n: int)
    requires Tracks(p) && 1 <= n <= 4
    ensures Tracks(Credit(p, n))
    ensures Credit(p, n).lines == p.lines + n
    ensures Credit(p, n).score - p.score == LineScore(n) * p.level > 0
    ensures Credit(p, n).level >= p.level
    ensures 100 <= Credit(p, n).dropInterval <= p.dropInterval <= 1000
  {
  }

  lemma StartTracks()
    ensures Tracks(Start)
  {
  }

  // ---------------------------------------------------------------------
  // Falling

  /** A collision-free placement with a filled entry is above the bottom row. */
  lemma FreeAboveBottom(b: Board, s: Shape, px: int, py: int)
    requires WellFormedBoard(b) && HasFilled(s) && !Collides(b, s, px, py)
    ensures py < Rows
  {
    var r, c :| 0 <= r < |s| && 0 <= c < |s[r]| && s[r][c] != 0;
    assert !Blocked(b, px + c, py + r);
  }

  /** How many rows the shape at (px, py) falls before the next row down collides. */
  function DropDepth(b: Board, s: Shape, px: int, py: int): nat
    requires WellFormedBoard(b) && HasFilled(s)
    decreases Rows - py
  {
    if Collides(b, s, px, py + 1) then 0
    else
      FreeAboveBottom(b, s, px, py + 1);
      1 + DropDepth(b, s, px, py + 1)
  }

  /** Every row on the way down is free and the one below the landing row is not. */
  lemma {:induction false} DropDepthMeaning(b: Board, s: Shape, px: int, py: int)
    requires WellFormedBoard(b) && HasFilled(s)
    ensures Collides(b, s, px, py + DropDepth(b, s, px, py) + 1)
    ensures forall y | py < y <= py + DropDepth(b, s, px, py) :: !Collides(b, s, px, y)
    decreases Rows - py
  {
    if !Collides(b, s, px, py + 1) {
      FreeAboveBottom(b, s, px, py + 1);
      DropDepthMeaning(b, s, px, py + 1);
    }
  }

  /** The drop depth is the one row count whose rows are all free and whose next row collides. */
  lemma {:induction false} DropDepthUnique(b: Board, s: Shape, px: int, py: int, t: int)
    requires WellFormedBoard(b) && HasFilled(s) && py <= t
    requires forall y | py < y <= t :: !Collides(b, s, px, y)
    requires Collides(b, s, px, t + 1)
    ensures DropDepth(b, s, px, py) == t - py
    decreases t - py
  {
    if py < t {
      DropDepthUnique(b, s, px, py + 1, t);
    }
  }

  /** A piece that fits where it is still fits where it lands. */
  lemma LandingFits(b: Board, s: Shape, px: int, py: int)
    requires WellFormedBoard(b) && HasFilled(s) && Fits(s, px, py)
    ensures Fits(s, px, py + DropDepth(b, s, px, py))
  {
    var d := DropDepth(b, s, px, py);
    DropDepthMeaning(b, s, px, py);
    if d > 0 {
      FreeMeansEmptyUnder(b, s, px, py + d);
    }
  }

  // ---------------------------------------------------------------------
  // The bottom-up scan of `clearLines`

  /**
   * The board part-way through the scan: the rows of `orig` from `u` down
   * have been cleared (their full rows removed, `lc` of them, and as many
   * blank rows put on top) and rows 0 .. u-1 are still as they were.
   */
  ghost predicate ClearingAt(orig: Board, board: Board, lc: nat, u: int) {
    && 0 <= u <= |orig|
    && board == Blanks(lc) + orig[..u] + Kept(orig[u..])
    && lc == FullCount(orig[u..])
  }

  /** The row under scan at index y is row u-1 of the original, or a blank row put on top. */
  function ScanIndex(y: int, lc: nat): int {
    if y + 1 >= lc then y + 1 - lc else 0
  }

  /** Cutting the last row of the middle part out of `a + b + c` and putting `x` on top. */
  lemma CutLast<T>(a: seq<T>, b: seq<T>, c: seq<T>, x: T)
    requires |b| >= 1
    ensures var s := a + b + c; var y := |a| + |b| - 1;
      s[y] == b[|b| - 1] && [x] + (s[..y] + s[y + 1..]) == ([x] + a) + b[..|b| - 1] + c
  {
    var s := a + b + c;
    var y := |a| + |b| - 1;
    assert s[..y] == a + b[..|b| - 1];
    assert s[y + 1..] == c;
  }

  /** One more row of the original taken into the cleared part. */
  lemma KeptFrom(rows: Board, i: int)
    requires 0 < i <= |rows|
    ensures Kept(rows[i - 1..]) == (if Full(rows[i - 1]) then [] else [rows[i - 1]]) + Kept(rows[i..])
    ensures FullCount(rows[i - 1..]) == (if Full(rows[i - 1]) then 1 else 0) + FullCount(rows[i..])
  {
    assert rows[i - 1..][1..] == rows[i..];
  }

  /** Row y cut out of the board and a blank row put on top (`splice` and `unshift`). */
  function CutRow(board: Board, y: int): (b': Board)
    requires 0 <= y < |board|
    ensures |b'| == |board|
  {
    [BlankRow()] + (board[..y] + board[y + 1..])
  }

  /** Cutting a row keeps the board 20x10. */
  lemma CutRowShape(board: Board, y: int)
    requires WellFormedBoard(board) && 0 <= y < Rows
    ensures WellFormedBoard(CutRow(board, y))
  {
    var c := CutRow(board, y);
    forall k | 0 <= k < Rows
      ensures |c[k]| == Cols
    {
      if k == 0 {
        assert c[k] == BlankRow();
      } else if k <= y {
        assert c[k] == board[k - 1];
      } else {
        assert c[k] == board[k];
      }
    }
  }

  /** The row under scan is row u-1 of the original when u > 0, and a blank row put on top otherwise. */
  lemma ScanRow(orig: Board, board: Board, lc: nat, y: int)
    requires 0 <= y < |board|
    requires ClearingAt(orig, board, lc, ScanIndex(y, lc))
    ensures ScanIndex(y, lc) == 0 ==> board[y] == BlankRow()
    ensures ScanIndex(y, lc) > 0 ==> board[y] == orig[ScanIndex(y, lc) - 1]
  {
  }

  /** A full row under scan is a row of the original, not a blank row put on top. */
  lemma FullRowAt(orig: Board, board: Board, lc: nat, y: int)
    requires 0 <= y < |board|
    requires ClearingAt(orig, board, lc, ScanIndex(y, lc)) && Full(board[y])
    ensures ScanIndex(y, lc) >= 1 && Full(orig[ScanIndex(y, lc) - 1])
  {
    ScanRow(orig, board, lc, y);
    BlankRowNotFull();
  }

  /**
   * Cutting out a full row at index y, row u-1 of the original, and putting
   * a blank row on top clears one more row of the original.
   */
  lemma RemoveFullRow(orig: Board, board: Board, lc: nat, y: int)
    requires 0 <= y < |board|
    requires ClearingAt(orig, board, lc, ScanIndex(y, lc))
    requires ScanIndex(y, lc) >= 1 && Full(orig[ScanIndex(y, lc) - 1])
    ensures ScanIndex(y, lc + 1) == ScanIndex(y, lc) - 1
    ensures ClearingAt(orig, CutRow(board, y), lc + 1, ScanIndex(y, lc + 1))
  {
    CutFullRow(orig, lc, ScanIndex(y, lc));
  }

  /** The sequence algebra of `RemoveFullRow`, with the original's row u-1 full. */
  lemma CutFullRow(orig: Board, lc: nat, u: int)
    requires 1 <= u <= |orig| && Full(orig[u - 1])
    ensures var board := Blanks(lc) + orig[..u] + Kept(orig[u..]);
      CutRow(board, lc + u - 1) == Blanks(lc + 1) + orig[..u - 1] + Kept(orig[u - 1..])
    ensures FullCount(orig[u - 1..]) == 1 + FullCount(orig[u..])
  {
    var a, b, c := Blanks(lc), orig[..u], Kept(orig[u..]);
    CutLast(a, b, c, BlankRow());
    assert b[..u - 1] == orig[..u - 1];
    BlanksCons(lc);
    KeptFrom(orig, u);
  }

  lemma BlanksCons(n: nat)
    ensures [BlankRow()] + Blanks(n) == Blanks(n + 1)
  {
  }

  /** At the end of the scan the whole board is cleared. */
  lemma ScanDone(orig: Board, rows: Board, lc: nat)
    requires ClearingAt(orig, rows, lc, 0)
    ensures rows == Cleared(orig) && lc == FullCount(orig)
  {
    assert orig[..0] == [] && orig[0..] == orig;
    assert Blanks(lc) + [] == Blanks(lc);
  }

  /** Moving up past a row that is not full clears one more row of the original, or passes a blank row. */
  lemma KeepRow(orig: Board, board: Board, lc: nat, y: int)
    requires 0 <= y < |board|
    requires ClearingAt(orig, board, lc, ScanIndex(y, lc)) && !Full(board[y])
    ensures ClearingAt(orig, board, lc, ScanIndex(y - 1, lc))
  {
    var u := ScanIndex(y, lc);
    if u > 0 {
      assert board[y] == orig[u - 1];
      KeptFrom(orig, u);
      assert orig[..u] == orig[..u - 1] + [orig[u - 1]];
    }
  }

  /**
   * The scan of `clearLines`: from the bottom row up, each full row is cut
   * out and an empty row put on top, and the same row index is looked at
   * again. The result is the cleared board and the number of rows cut.
   */
  method ClearRows(b: Board) returns (rows: Board, linesCleared: nat)
    requires WellFormedBoard(b)
    ensures WellFormedBoard(rows) && rows == Cleared(b) && linesCleared == FullCount(b)
  {
    rows := b;
    linesCleared := 0;
    var y := Rows - 1;
    while y >= 0
      invariant -1 <= y < Rows
      invariant WellFormedBoard(rows)
      invariant ClearingAt(b, rows, linesCleared, ScanIndex(y, linesCleared))
      decreases y + 1, ScanIndex(y, linesCleared)
    {
      var x := 0;
      while x < Cols && rows[y][x].Some?
        invariant 0 <= x <= Cols
        invariant forall x' | 0 <= x' < x :: rows[y][x'].Some?
      {
        x := x + 1;
      }
      if x == Cols {
        FullRowAt(b, rows, linesCleared, y);
        RemoveFullRow(b, rows, linesCleared, y);
        CutRowShape(rows, y);
        ghost var cut := CutRow(rows, y);
        rows := rows[..y] + rows[y + 1..];
        rows := [BlankRow()] + rows;
        assert rows == cut;
        linesCleared := linesCleared + 1;
        y := y + 1;
      } else {
        KeepRow(b, rows, linesCleared, y);
      }
      y := y - 1;
    }
    ScanDone(b, rows, linesCleared);
  }

  // ---------------------------------------------------------------------
  // The cell-by-cell painting of `merge`

  /** One pass of `merge`'s inner loop: paints row `y` of the shape onto the board `b` painted so far. */
  method PaintRow(ghost b0: Board, b: Board, s: Shape, color: string, px: int, py: int, y: int) returns (b': Board)
    requires WellFormedBoard(b0) && Fits(s, px, py) && 0 <= y < |s|
    requires b == Painted(b0, s, color, px, py, y, 0)
    ensures b' == Painted(b0, s, color, px, py, y + 1, 0)
  {
    b' := b;
    var x := 0;
    while x < |s[y]|
      invariant 0 <= x <= |s[y]|
      invariant b' == Painted(b0, s, color, px, py, y, x)
    {
      if s[y][x] != 0 {
        var boardY := py + y;
        var boardX := px + x;
        if boardY >= 0 {
          b' := b'[boardY := b'[boardY][boardX := Some(color)]];
        }
      }
      x := x + 1;
    }
  }
}
