/**
 * The web build of Tetris (games/tetris/web_build/script.js): the classic
 * game plus a hold slot. Pieces remember their type; `holdCurrentPiece`
 * parks the current piece's type (once per locked piece, as `canHold`
 * says) and brings in the next piece or the piece held before. The random
 * piece type of `createPiece` is a parameter. The module follows TetrisClassic
 * member for member; it differs only in the `kind` a piece carries, the hold
 * slot with its `canHold` flag, and `HoldOn` with the lemmas about it.
 */
module TetrisWeb {
  import opened Common
  import opened TetrisGrid

  /** A piece: its shape, colour, type (an index into the tables), column `x` and row `y`. */
  datatype Piece = Piece(shape: Shape, color: string, kind: int, x: int, y: int)

  /** A piece of a valid type with a well-formed shape whose filled entries on the board lie inside it. */
  predicate PieceOK(p: Piece) {
    0 <= p.kind < |Shapes| && ShapeOK(p.shape) && Fits(p.shape, p.x, p.y)
  }

  /** `createPiece` for the piece type `kind`: the shape and colour of that type, spawned on the top row. */
  function CreatePiece(kind: int): (p: Piece)
    requires 0 <= kind < |Shapes|
    ensures PieceOK(p)
  {
    ShapesOK(kind);
    Piece(Shapes[kind], Colors[kind], kind, SpawnX(Shapes[kind]), 0)
  }

  /**
   * A new piece has the shape and colour of its type, sits on the top row,
   * centred (one column right of centre when the width is odd), clear of
   * the sides and of an empty board.
   */
  lemma SpawnPlacement(kind: int)
    requires 0 <= kind < |Shapes|
    ensures var p := CreatePiece(kind);
      && p.shape == Shapes[kind] && p.color == Colors[kind] && p.kind == kind && p.y == 0
      && 0 <= p.x && p.x + |p.shape[0]| <= Cols
      && 0 <= p.x - (Cols - p.x - |p.shape[0]|) <= 1
      && !Collides(EmptyBoard(), p.shape, p.x, p.y)
  {
    ShapesOK(kind);
  }

  /** The piece `holdCurrentPiece` parks for type `kind`: that type's shape and colour, unrotated, at (0, 0). */
  function Stored(kind: int): Piece
    requires 0 <= kind < |Shapes|
  {
    Piece(Shapes[kind], Colors[kind], kind, 0, 0)
  }

  /** The contents of the hold slot: empty, or a parked piece of a valid type. */
  predicate HeldOK(h: Option<Piece>) {
    h.Some? ==> 0 <= h.value.kind < |Shapes| && h.value == Stored(h.value.kind)
  }

  /** The globals of the script that the game logic uses. */
  datatype Tetris = Tetris(board: Board, current: Piece, next: Piece, hold: Option<Piece>, canHold: bool,
                           progress: Progress, gameOver: bool)

  /**
   * The state between two events: a 20x10 board without a full row, well-
   * formed pieces whose cells on the board lie inside it, a parked piece or
   * none, and counters in step.
   */
  ghost predicate Playable(st: Tetris) {
    && WellFormedBoard(st.board) && NoFullRow(st.board)
    && PieceOK(st.current) && PieceOK(st.next) && HeldOK(st.hold)
    && Tracks(st.progress)
  }

  /** `move(dir)`: the piece shifts sideways unless that collides. */
  function MoveOn(st: Tetris, dir: int): Tetris
    requires WellFormedBoard(st.board)
  {
    var p := st.current;
    if Collides(st.board, p.shape, p.x + dir, p.y) then st else st.(current := p.(x := p.x + dir))
  }

  /** `rotate`: the piece turns clockwise unless the turned shape collides. */
  function RotateOn(st: Tetris): Tetris
    requires WellFormedBoard(st.board) && ShapeOK(st.current.shape)
  {
    var p := st.current;
    var rotated := Rotated(p.shape);
    if Collides(st.board, rotated, p.x, p.y) then st else st.(current := p.(shape := rotated))
  }

  /**
   * `merge` then `clearLines`: the piece is painted into the board, the
   * full lines are cleared and credited. The board is left 20x10 without a
   * full row and the counters in step.
   */
  function SettleOn(st: Tetris): (r: Tetris)
    requires Playable(st)
    ensures WellFormedBoard(r.board) && NoFullRow(r.board) && Tracks(r.progress)
  {
    var p := st.current;
    var merged := Merged(st.board, p.shape, p.color, p.x, p.y);
    MergedFullRows(st.board, p.shape, p.color, p.x, p.y);
    var n := FullCount(merged);
    ClearedMeaning(merged);
    if n > 0 then
      CreditMeaning(st.progress, n);
      st.(board := Cleared(merged), progress := Credit(st.progress, n))
    else
      st.(board := Cleared(merged))
  }

  /**
   * The end of locking: the next piece becomes the current one and a piece
   * of type `kind` the next one, holding is allowed again, and the game is
   * over if the new piece collides where it spawned.
   */
  function SpawnOn(st: Tetris, kind: int): Tetris
    requires WellFormedBoard(st.board) && 0 <= kind < |Shapes|
  {
    st.(current := st.next, next := CreatePiece(kind), canHold := true,
      gameOver := if Collides(st.board, st.next.shape, st.next.x, st.next.y) then true else st.gameOver)
  }

  /** Locking the piece: it settles into the board and the next piece comes in. */
  function LockOn(st: Tetris, kind: int): Tetris
    requires Playable(st) && 0 <= kind < |Shapes|
  {
    SpawnOn(SettleOn(st), kind)
  }

  /** `drop`: the piece falls one row if that is free, and locks otherwise. */
  function DropOn(st: Tetris, kind: int): Tetris
    requires Playable(st) && 0 <= kind < |Shapes|
  {
    var p := st.current;
    if !Collides(st.board, p.shape, p.x, p.y + 1) then st.(current := p.(y := p.y + 1))
    else LockOn(st, kind)
  }

  /** The state once `hardDrop`'s loop has let the piece fall as far as it can, 2 points per row. */
  function Landed(st: Tetris): Tetris
    requires Playable(st)
  {
    var p := st.current;
    var d := DropDepth(st.board, p.shape, p.x, p.y);
    st.(current := p.(y := p.y + d), progress := st.progress.(score := st.progress.score + 2 * d))
  }

  /** The landed piece still fits, so the landed state is playable. */
  lemma LandedPlayable(st: Tetris)
    requires Playable(st)
    ensures Playable(Landed(st))
  {
    LandingFits(st.board, st.current.shape, st.current.x, st.current.y);
  }

  /** `hardDrop`: the fall of `Landed`, then a drop. */
  function HardDropOn(st: Tetris, kind: int): Tetris
    requires Playable(st) && 0 <= kind < |Shapes|
  {
    LandedPlayable(st);
    DropOn(Landed(st), kind)
  }

  /**
   * `holdCurrentPiece`: nothing if a piece was already held since the last
   * lock. Otherwise the current piece's type is parked and, on the first
   * hold, the next piece comes in and a piece of type `kind` becomes the
   * next one; on later holds a fresh piece of the type parked before comes
   * in. Holding is then disallowed until the next lock.
   */
  function HoldOn(st: Tetris, kind: int): Tetris
    requires PieceOK(st.current) && HeldOK(st.hold) && 0 <= kind < |Shapes|
  {
    if !st.canHold then st
    else
      match st.hold
      case None => st.(hold := Some(Stored(st.current.kind)), current := st.next, next := CreatePiece(kind), canHold := false)
      case Some(h) => st.(hold := Some(Stored(st.current.kind)), current := CreatePiece(h.kind), canHold := false)
  }

  // ---------------------------------------------------------------------
  // Properties

  /** The opening state of `startGame` is playable. */
  lemma StartPlayable(first: int, second: int)
    requires 0 <= first < |Shapes| && 0 <= second < |Shapes|
    ensures Playable(Tetris(EmptyBoard(), CreatePiece(first), CreatePiece(second), None, true, Start, false))
  {
    EmptyNoFullRow();
  }

  /** Moving sideways keeps the state playable and changes nothing but the column. */
  lemma MoveKeepsPlayable(st: Tetris, dir: int)
    requires Playable(st)
    ensures Playable(MoveOn(st, dir))
    ensures MoveOn(st, dir) == st.(current := st.current.(x := MoveOn(st, dir).current.x))
    ensures MoveOn(st, dir).current.x != st.current.x ==> !Collides(st.board, st.current.shape, st.current.x + dir, st.current.y)
  {
    var p := st.current;
    if !Collides(st.board, p.shape, p.x + dir, p.y) {
      FreeMeansEmptyUnder(st.board, p.shape, p.x + dir, p.y);
    }
  }

  /** Rotating keeps the state playable; a kept rotation swaps the piece's width and height. */
  lemma RotateKeepsPlayable(st: Tetris)
    requires Playable(st)
    ensures Playable(RotateOn(st))
    ensures RotateOn(st).current.shape == st.current.shape || RotateOn(st).current.shape == Rotated(st.current.shape)
    ensures RotateOn(st).current.shape != st.current.shape ==>
      |RotateOn(st).current.shape| == |st.current.shape[0]| && |RotateOn(st).current.shape[0]| == |st.current.shape|
  {
    var p := st.current;
    RotatedOK(p.shape);
    if !Collides(st.board, Rotated(p.shape), p.x, p.y) {
      FreeMeansEmptyUnder(st.board, Rotated(p.shape), p.x, p.y);
    }
  }

  /**
   * Locking clears at most four lines (the table index stays in range),
   * leaves no full row, credits the lines with the table entry times the
   * old level, and keeps the state playable.
   */
  lemma LockOutcome(st: Tetris, kind: int)
    requires Playable(st) && 0 <= kind < |Shapes|
    ensures var p := st.current;
      var n := FullCount(Merged(st.board, p.shape, p.color, p.x, p.y));
      var st' := LockOn(st, kind);
      && n <= 4
      && Playable(st')
      && st'.board == Cleared(Merged(st.board, p.shape, p.color, p.x, p.y))
      && st'.current == st.next && st'.next == CreatePiece(kind)
      && st'.hold == st.hold && st'.canHold
      && st'.progress.lines == st.progress.lines + n
      && st'.progress.score == st.progress.score + (if n > 0 then LineScore(n) * st.progress.level else 0)
      && (st'.gameOver <==> st.gameOver || Collides(st'.board, st.next.shape, st.next.x, st.next.y))
  {
    var p := st.current;
    var merged := Merged(st.board, p.shape, p.color, p.x, p.y);
    MergedFullRows(st.board, p.shape, p.color, p.x, p.y);
    ClearedMeaning(merged);
    var n := FullCount(merged);
    if n > 0 {
      CreditMeaning(st.progress, n);
    }
  }

  /** Every drop keeps the state playable. */
  lemma DropKeepsPlayable(st: Tetris, kind: int)
    requires Playable(st) && 0 <= kind < |Shapes|
    ensures Playable(DropOn(st, kind))
  {
    var p := st.current;
    if !Collides(st.board, p.shape, p.x, p.y + 1) {
      FreeMeansEmptyUnder(st.board, p.shape, p.x, p.y + 1);
    } else {
      LockOutcome(st, kind);
    }
  }

  /**
   * The fall of a hard drop moves only the piece, down to the lowest row it
   * can reach through free rows, and credits 2 points per row fallen.
   */
  lemma HardDropLands(st: Tetris)
    requires Playable(st)
    ensures var p := st.current;
      var l := Landed(st);
      var d := l.current.y - p.y;
      && d >= 0
      && l.board == st.board && l.next == st.next && l.gameOver == st.gameOver
      && l.hold == st.hold && l.canHold == st.canHold
      && l.current.shape == p.shape && l.current.color == p.color && l.current.x == p.x
      && l.progress.score == st.progress.score + 2 * d
      && l.progress.lines == st.progress.lines && l.progress.level == st.progress.level
      && (forall y | p.y < y <= p.y + d :: !Collides(st.board, p.shape, p.x, y))
      && Collides(st.board, p.shape, p.x, p.y + d + 1)
  {
    DropDepthMeaning(st.board, st.current.shape, st.current.x, st.current.y);
  }

  /** A hard drop always ends by locking the piece where it landed. */
  lemma HardDropLocks(st: Tetris, kind: int)
    requires Playable(st) && 0 <= kind < |Shapes|
    ensures Playable(Landed(st)) && HardDropOn(st, kind) == LockOn(Landed(st), kind)
  {
    var p := st.current;
    DropDepthMeaning(st.board, p.shape, p.x, p.y);
    LandedPlayable(st);
    var l := Landed(st);
    assert Collides(l.board, l.current.shape, l.current.x, l.current.y + 1);
  }

  /** Holding keeps the state playable and touches neither the board, the counters nor the game-over flag. */
  lemma HoldKeepsPlayable(st: Tetris, kind: int)
    requires Playable(st) && 0 <= kind < |Shapes|
    ensures var st' := HoldOn(st, kind);
      && Playable(st')
      && st'.board == st.board && st'.progress == st.progress && st'.gameOver == st.gameOver
  {
    ShapesOK(st.current.kind);
  }

  /**
   * Holding is allowed once per locked piece: a second hold before the next
   * lock changes nothing, and after the first, the hold slot has the type
   * of the piece that was current.
   */
  lemma HoldOncePerLock(st: Tetris, kind: int, kind': int)
    requires Playable(st) && 0 <= kind < |Shapes| && 0 <= kind' < |Shapes|
    ensures var st' := HoldOn(st, kind);
      && !st'.canHold
      && HoldOn(st', kind') == st'
      && (st.canHold ==> st'.hold.Some? && st'.hold.value.kind == st.current.kind)
  {
    HoldKeepsPlayable(st, kind);
  }

  /**
   * The first hold takes the next piece as the current one and draws a new
   * next piece; every later hold leaves the next piece alone and swaps the
   * types of the current and the held piece, the held one coming back
   * unrotated at the spawn position.
   */
  lemma HoldExchange(st: Tetris, kind: int)
    requires Playable(st) && st.canHold && 0 <= kind < |Shapes|
    ensures var st' := HoldOn(st, kind);
      && (st.hold.None? ==> st'.current == st.next && st'.next == CreatePiece(kind))
      && (st.hold.Some? ==>
            && st'.next == st.next
            && st'.current == CreatePiece(st.hold.value.kind)
            && multiset{st'.current.kind, st'.hold.value.kind} == multiset{st.current.kind, st.hold.value.kind})
  {
  }

  /**
   * Swapping twice (holding allowed again in between, as after a lock)
   * brings back a fresh piece of the type that was current and leaves the
   * hold slot as it was.
   */
  lemma SwapBack(st: Tetris, kind: int, kind': int)
    requires Playable(st) && st.canHold && st.hold.Some? && 0 <= kind < |Shapes| && 0 <= kind' < |Shapes|
    ensures var st1 := HoldOn(st, kind);
      var st2 := HoldOn(st1.(canHold := true), kind');
      st2.current == CreatePiece(st.current.kind) && st2.hold == st.hold && st2.next == st.next
  {
    HoldKeepsPlayable(st, kind);
  }

  // ---------------------------------------------------------------------
  // The script's globals

  class Game {
    var board: Board
    var currentPiece: Piece
    var nextPiece: Piece
    var holdPiece: Option<Piece>
    var canHold: bool
    var score: int
    var level: int
    var lines: int
    var dropInterval: int
    var isGameOver: bool

    function State(): Tetris
      reads this
    {
      Tetris(board, currentPiece, nextPiece, holdPiece, canHold, Progress(score, level, lines, dropInterval), isGameOver)
    }

    ghost predicate Valid()
      reads this
    {
      Playable(State())
    }

    /** `startGame`, with the types of the first two pieces given. */
    constructor (first: int, second: int)
      requires 0 <= first < |Shapes| && 0 <= second < |Shapes|
      ensures Valid() && State() == Tetris(EmptyBoard(), CreatePiece(first), CreatePiece(second), None, true, Start, false)
    {
      board := EmptyBoard();
      currentPiece := CreatePiece(first);
      nextPiece := CreatePiece(second);
      holdPiece := None;
      canHold := true;
      score := 0;
      level := 1;
      lines := 0;
      dropInterval := 1000;
      isGameOver := false;
      StartPlayable(first, second);
    }

    /** `collide(piece, dx, dy)`: whether the piece shifted by (dx, dy) hits a side, the bottom or a filled cell. */
    method Collide(piece: Piece, dx: int, dy: int) returns (hit: bool)
      requires WellFormedBoard(board)
      ensures hit == Collides(board, piece.shape, piece.x + dx, piece.y + dy)
    {
      var s := piece.shape;
      var row := 0;
      while row < |s|
        invariant 0 <= row <= |s|
        invariant forall r, c | 0 <= r < row && 0 <= c < |s[r]| :: !(s[r][c] != 0 && Blocked(board, piece.x + dx + c, piece.y + dy + r))
      {
        var col := 0;
        while col < |s[row]|
          invariant 0 <= col <= |s[row]|
          invariant forall r, c | 0 <= r < row && 0 <= c < |s[r]| :: !(s[r][c] != 0 && Blocked(board, piece.x + dx + c, piece.y + dy + r))
          invariant forall c | 0 <= c < col :: !(s[row][c] != 0 && Blocked(board, piece.x + dx + c, piece.y + dy + row))
        {
          if s[row][col] != 0 {
            var newX := piece.x + col + dx;
            var newY := piece.y + row + dy;
            if newX < 0 || newX >= Cols || newY >= Rows {
              assert Blocked(board, piece.x + dx + col, piece.y + dy + row);
              return true;
            }
            if newY >= 0 && board[newY][newX].Some? {
              assert Blocked(board, piece.x + dx + col, piece.y + dy + row);
              return true;
            }
          }
          col := col + 1;
        }
        row := row + 1;
      }
      return false;
    }

    /**
     * `merge`: paints the board cells under the current piece's filled
     * entries, row by row (on a copy of the board that then replaces it).
     */
    method Merge()
      requires WellFormedBoard(board) && Fits(currentPiece.shape, currentPiece.x, currentPiece.y)
      modifies this
      ensures currentPiece == old(currentPiece) && nextPiece == old(nextPiece)
      ensures holdPiece == old(holdPiece) && canHold == old(canHold)
      ensures board == Merged(old(board), currentPiece.shape, currentPiece.color, currentPiece.x, currentPiece.y)
      ensures score == old(score) && level == old(level) && lines == old(lines)
      ensures dropInterval == old(dropInterval) && isGameOver == old(isGameOver)
    {
      var p := currentPiece;
      var b := board;
      ghost var b0 := board;
      var y := 0;
      while y < |p.shape|
        invariant 0 <= y <= |p.shape|
        invariant b == Painted(b0, p.shape, p.color, p.x, p.y, y, 0)
        modifies {}
      {
        b := PaintRow(b0, b, p.shape, p.color, p.x, p.y, y);
        y := y + 1;
      }
      board := b;
    }

    /** The counters as a value. */
    function Counters(): Progress
      reads this
    {
      Progress(score, level, lines, dropInterval)
    }

    /**
     * `clearLines`: the full rows are cleared from the board, and the
     * cleared lines are credited.
     */
    method ClearLines()
      requires WellFormedBoard(board) && FullCount(board) <= 4
      modifies this
      ensures WellFormedBoard(board) && board == Cleared(old(board))
      ensures var n := FullCount(old(board));
        Counters() == if n > 0 then Credit(old(Counters()), n) else old(Counters())
      ensures currentPiece == old(currentPiece) && nextPiece == old(nextPiece) && isGameOver == old(isGameOver)
      ensures holdPiece == old(holdPiece) && canHold == old(canHold)
    {
      var rows, linesCleared := ClearRows(board);
      board := rows;
      if linesCleared > 0 {
        lines := lines + linesCleared;
        score := score + LineScore(linesCleared) * level;
        level := LevelFor(lines);
        dropInterval := IntervalFor(level);
      }
    }

    /** `merge` followed by `clearLines`. */
    method Settle()
      requires Valid()
      modifies this
      ensures State() == SettleOn(old(State()))
    {
      MergedFullRows(board, currentPiece.shape, currentPiece.color, currentPiece.x, currentPiece.y);
      Merge();
      ClearLines();
    }

    /** The end of the locking branch of `drop`: bring in the next piece and test for game over. */
    method Spawn(kind: int)
      requires WellFormedBoard(board) && 0 <= kind < |Shapes|
      modifies this
      ensures State() == SpawnOn(old(State()), kind)
    {
      currentPiece := nextPiece;
      nextPiece := CreatePiece(kind);
      canHold := true;
      var over := Collide(currentPiece, 0, 0);
      if over {
        isGameOver := true;
      }
    }

    /** The locking branch of `drop`: `merge`, `clearLines`, then the next piece; holding is allowed again. */
    method Lock(kind: int)
      requires Valid() && 0 <= kind < |Shapes|
      modifies this
      ensures State() == LockOn(old(State()), kind)
    {
      Settle();
      Spawn(kind);
    }

    /** `drop`: one row down if free, and locking otherwise. */
    method Drop(kind: int)
      requires Valid() && 0 <= kind < |Shapes|
      modifies this
      ensures Valid() && State() == DropOn(old(State()), kind)
    {
      ghost var st := State();
      DropStep(kind);
      DropKeepsPlayable(st, kind);
    }

    /** The body of `drop`. */
    method DropStep(kind: int)
      requires Valid() && 0 <= kind < |Shapes|
      modifies this
      ensures State() == DropOn(old(State()), kind)
    {
      ghost var st := State();
      var blocked := Collide(currentPiece, 0, 1);
      if !blocked {
        assert DropOn(st, kind) == st.(current := currentPiece.(y := currentPiece.y + 1));
        currentPiece := currentPiece.(y := currentPiece.y + 1);
      } else {
        assert DropOn(st, kind) == LockOn(st, kind);
        Lock(kind);
      }
    }

    /** The loop of `hardDrop`: the piece falls row by row while the next row is free, 2 points a row. */
    method Fall()
      requires Valid()
      modifies this
      ensures Valid() && State() == Landed(old(State()))
    {
      ghost var st := State();
      Descend();
      assert State() == Landed(st);
      LandedPlayable(st);
    }

    /** The loop of `hardDrop` itself: the piece falls `DropDepth` rows, 2 points a row. */
    method Descend()
      requires WellFormedBoard(board) && HasFilled(currentPiece.shape)
      modifies this
      ensures board == old(board)
      ensures var p := old(currentPiece); var d := DropDepth(old(board), p.shape, p.x, p.y);
        currentPiece == p.(y := p.y + d) && score == old(score) + 2 * d
      ensures nextPiece == old(nextPiece) && isGameOver == old(isGameOver)
      ensures holdPiece == old(holdPiece) && canHold == old(canHold)
      ensures level == old(level) && lines == old(lines) && dropInterval == old(dropInterval)
    {
      ghost var p := currentPiece;
      ghost var depth := DropDepth(board, p.shape, p.x, p.y);
      var piece := currentPiece;
      var points := score;
      var blocked := Collide(piece, 0, 1);
      while !blocked
        invariant piece == p.(y := piece.y) && p.y <= piece.y
        invariant points == score + 2 * (piece.y - p.y)
        invariant depth == (piece.y - p.y) + DropDepth(board, p.shape, p.x, piece.y)
        invariant blocked == Collides(board, p.shape, p.x, piece.y + 1)
        modifies {}
        decreases Rows - piece.y
      {
        FreeAboveBottom(board, p.shape, p.x, piece.y + 1);
        piece := piece.(y := piece.y + 1);
        points := points + 2;
        blocked := Collide(piece, 0, 1);
      }
      currentPiece := piece;
      score := points;
      assert piece.y == p.y + depth;
    }

    /** `hardDrop`: the fall, then a drop, which locks the piece. */
    method HardDrop(kind: int)
      requires Valid() && 0 <= kind < |Shapes|
      modifies this
      ensures Valid() && State() == HardDropOn(old(State()), kind)
    {
      Fall();
      Drop(kind);
    }

    /** `holdCurrentPiece`, with the type of the piece `createPiece` would draw on a first hold given. */
    method HoldCurrentPiece(kind: int)
      requires Valid() && 0 <= kind < |Shapes|
      modifies this
      ensures Valid() && State() == HoldOn(old(State()), kind)
    {
      ghost var st := State();
      if !canHold {
        HoldKeepsPlayable(st, kind);
        return;
      }
      if holdPiece.None? {
        holdPiece := Some(Stored(currentPiece.kind));
        currentPiece := nextPiece;
        nextPiece := CreatePiece(kind);
      } else {
        var temp := Stored(currentPiece.kind);
        currentPiece := CreatePiece(holdPiece.value.kind);
        holdPiece := Some(temp);
      }
      canHold := false;
      assert State() == HoldOn(st, kind);
      HoldKeepsPlayable(st, kind);
    }

    /** `move(dir)`: shifts the piece by `dir` columns unless that collides. */
    method Move(dir: int)
      requires Valid()
      modifies this
      ensures Valid() && State() == MoveOn(old(State()), dir)
    {
      ghost var st := State();
      var hit := Collide(currentPiece, dir, 0);
      if !hit {
        currentPiece := currentPiece.(x := currentPiece.x + dir);
      }
      assert State() == MoveOn(st, dir);
      MoveKeepsPlayable(st, dir);
    }

    /** `rotate`: turns the piece clockwise, and turns it back if the turned piece collides. */
    method Rotate()
      requires Valid()
      modifies this
      ensures Valid() && State() == RotateOn(old(State()))
    {
      ghost var st := State();
      var rotated := Rotated(currentPiece.shape);
      var previousShape := currentPiece.shape;
      currentPiece := currentPiece.(shape := rotated);
      var hit := Collide(currentPiece, 0, 0);
      if hit {
        currentPiece := currentPiece.(shape := previousShape);
      }
      assert State() == RotateOn(st);
      RotateKeepsPlayable(st);
    }
  }
}
