/**
 * The rules engine of games/damas/logic.py: the `CheckersGame` object that
 * owns the board, whose turn it is and the winner, and that validates and
 * plays one move at a time (forced captures, multi-jump chains, promotion,
 * the winner rule).
 *
 * The pure function `Play` states what one call of `move` does to the game
 * and what it reports; the class method `Move` is proved to do exactly that,
 * and the lemmas below state what `Play` means.
 */
module DamasLogic {
  import opened Common
  import opened CheckersRules

  /** The three fields of a `CheckersGame`. */
  datatype Game = Game(board: Board, turn: Color, winner: Option<Color>)

  /** The dictionary `snapshot` returns (the board is given as a value). */
  datatype Snapshot = Snapshot(board: Board, turn: Color, winner: Option<Color>, forced: seq<Pos>)

  /**
   * The dictionary `move` returns: a refusal (`success` false), which after
   * the game is over also carries the board, turn and winner; or the full
   * report of a played move.
   */
  datatype Report =
    | Refused(state: Option<Snapshot>)
    | Moved(board: Board, turn: Color, winner: Option<Color>, forced: seq<Pos>,
            extraCapture: bool, nextMoves: seq<Move>, selected: Pos,
            capture: Option<Pos>, promoted: bool)

  /** The forced list a snapshot shows: none once there is a winner. */
  function SnapshotOf(g: Game): Snapshot {
    Snapshot(g.board, g.turn, g.winner, if g.winner.Some? then [] else Forced(g.board, g.turn))
  }

  /** What `valid_moves` returns: nothing for an empty square or, when the turn is respected, for the side not to move. */
  function MovesFor(g: Game, r: int, c: int, respectTurn: bool): seq<Move> {
    match At(g.board, r, c)
    case None => []
    case Some(p) => if respectTurn && p.color != g.turn && g.winner.None? then [] else Moves(g.board, r, c)
  }

  /**
   * One call of `move(fr, fc, tr, tc)`: the game afterwards and the report.
   * A move is refused once the game is won, when (fr, fc) does not hold a
   * piece of the side to move, when that piece has no move to (tr, tc), and
   * when the side to move has a capture somewhere but the chosen move is a
   * step.
   */
  function Play(g: Game, fr: int, fc: int, tr: int, tc: int): (Game, Report)
    requires WellFormed(g.board)
  {
    if g.winner.Some? then (g, Refused(Some(Snapshot(g.board, g.turn, g.winner, []))))
    else match At(g.board, fr, fc)
      case None => (g, Refused(None))
      case Some(p) =>
        if p.color != g.turn then (g, Refused(None))
        else match FirstTo(Moves(g.board, fr, fc), Pos(tr, tc))
          case None => (g, Refused(None))
          case Some(m) =>
            FirstToFound(Moves(g.board, fr, fc), Pos(tr, tc));
            if Forced(g.board, g.turn) != [] && m.Simple? then (g, Refused(None))
            else Apply(g, fr, fc, p, m)
  }

  /** The effect of an accepted move m of piece p from (fr, fc). */
  function Apply(g: Game, fr: int, fc: int, p: Piece, m: Move): (Game, Report)
    requires WellFormed(g.board)
    requires At(g.board, fr, fc) == Some(p) && m in Moves(g.board, fr, fc)
  {
    MoveSquares(g.board, fr, fc, m);
    var q := Crowned(p, m.dest.row);
    Finish(g.turn, Landed(g.board, fr, fc, q, m), m, !p.king && q.king)
  }

  /**
   * The board after piece q has moved by m from (fr, fc): q on the
   * destination, the source empty and, for a capture, the jumped square
   * empty; all other squares unchanged.
   */
  function Landed(b: Board, fr: int, fc: int, q: Piece, m: Move): (b': Board)
    requires WellFormed(b) && Inside(fr, fc) && Inside(m.dest.row, m.dest.col) && m.dest != Pos(fr, fc)
    requires m.Capture? ==> Inside(m.jumped.row, m.jumped.col) && m.jumped != m.dest
    ensures WellFormed(b')
    ensures forall x, y :: At(b', x, y)
                           == if Pos(x, y) == m.dest then Some(q)
                              else if Pos(x, y) == Pos(fr, fc) || (m.Capture? && Pos(x, y) == m.jumped) then None
                              else At(b, x, y)
  {
    var b1 := Put(Put(b, m.dest.row, m.dest.col, Some(q)), fr, fc, None);
    if m.Capture? then Put(b1, m.jumped.row, m.jumped.col, None) else b1
  }

  /**
   * The rest of an accepted move of a `turn` piece by m, on the board b
   * after it: the follow-up captures, the turn, the winner and the report.
   */
  function Finish(turn: Color, b: Board, m: Move, promoted: bool): (Game, Report)
    requires WellFormed(b)
  {
    var to := m.dest;
    var next := if m.Capture? && !promoted then CapturesIn(Moves(b, to.row, to.col)) else [];
    var extra := next != [];
    var turn' := if extra then turn else Opponent(turn);
    var winner := Winner(b);
    var forced := if winner.Some? then [] else if extra then [to] else Forced(b, turn');
    (Game(b, turn', winner),
     Moved(b, turn', winner, forced, extra, next, to, if m.Capture? then Some(m.jumped) else None, promoted))
  }

  /** An accepted move is the first move of the piece to the target, applied. */
  lemma PlayAccepted(g: Game, fr: int, fc: int, tr: int, tc: int)
    requires WellFormed(g.board)
    requires Play(g, fr, fc, tr, tc).1.Moved?
    ensures At(g.board, fr, fc).Some? && FirstTo(Moves(g.board, fr, fc), Pos(tr, tc)).Some?
    ensures var p, m := At(g.board, fr, fc).value, FirstTo(Moves(g.board, fr, fc), Pos(tr, tc)).value;
      && g.winner.None? && p.color == g.turn && m in Moves(g.board, fr, fc) && m.dest == Pos(tr, tc)
      && !(Forced(g.board, g.turn) != [] && m.Simple?)
      && Play(g, fr, fc, tr, tc) == Apply(g, fr, fc, p, m)
  {
    FirstToFound(Moves(g.board, fr, fc), Pos(tr, tc));
  }

  /** Some piece of `color` has a capture. */
  ghost predicate SideCanCapture(b: Board, color: Color) {
    exists r, c :: Inside(r, c) && Owns(b, color, r, c) && CanCapture(b, r, c, color)
  }

  /** The piece on (fr, fc) has a move ending on `to`. */
  ghost predicate HasMoveTo(b: Board, fr: int, fc: int, to: Pos) {
    exists m :: m in Moves(b, fr, fc) && m.dest == to
  }

  /** The checks of `move`, in the order it makes them, that turn a request down. */
  predicate TurnedDown(g: Game, fr: int, fc: int, tr: int, tc: int) {
    || g.winner.Some?
    || At(g.board, fr, fc).None?
    || At(g.board, fr, fc).value.color != g.turn
    || FirstTo(Moves(g.board, fr, fc), Pos(tr, tc)).None?
    || (Forced(g.board, g.turn) != [] && FirstTo(Moves(g.board, fr, fc), Pos(tr, tc)).value.Simple?)
  }

  /** A request turned down leaves the game as it is; after the game is over the refusal carries the position. */
  lemma PlayTurnedDown(g: Game, fr: int, fc: int, tr: int, tc: int)
    requires WellFormed(g.board) && TurnedDown(g, fr, fc, tr, tc)
    ensures Play(g, fr, fc, tr, tc)
         == (g, if g.winner.Some? then Refused(Some(Snapshot(g.board, g.turn, g.winner, []))) else Refused(None))
  {
  }

  /** A request that passes every check plays the first move of the piece to the target. */
  lemma PlayGoesThrough(g: Game, fr: int, fc: int, tr: int, tc: int)
    requires WellFormed(g.board) && !TurnedDown(g, fr, fc, tr, tc)
    ensures FirstTo(Moves(g.board, fr, fc), Pos(tr, tc)).value in Moves(g.board, fr, fc)
    ensures Play(g, fr, fc, tr, tc)
         == Apply(g, fr, fc, At(g.board, fr, fc).value, FirstTo(Moves(g.board, fr, fc), Pos(tr, tc)).value)
  {
    FirstToFound(Moves(g.board, fr, fc), Pos(tr, tc));
  }

  /** `move` refuses exactly on those checks, and a refusal changes nothing. */
  lemma PlayRefusedOn(g: Game, fr: int, fc: int, tr: int, tc: int)
    requires WellFormed(g.board)
    ensures Play(g, fr, fc, tr, tc).1.Refused? <==> TurnedDown(g, fr, fc, tr, tc)
    ensures Play(g, fr, fc, tr, tc).1.Refused? ==> Play(g, fr, fc, tr, tc).0 == g
    ensures Play(g, fr, fc, tr, tc).1.Refused?
        ==> (Play(g, fr, fc, tr, tc).1.state.Some? <==> g.winner.Some?)
  {
    if !TurnedDown(g, fr, fc, tr, tc) {
      PlayAccepted(g, fr, fc, tr, tc);
      var p, m := At(g.board, fr, fc).value, FirstTo(Moves(g.board, fr, fc), Pos(tr, tc)).value;
      MoveSquares(g.board, fr, fc, m);
      var q := Crowned(p, m.dest.row);
      FinishReport(g.turn, Landed(g.board, fr, fc, q, m), m, !p.king && q.king);
    }
  }

  /** Some square is forced exactly when some piece of the side can capture. */
  lemma ForcedMeansSideCanCapture(b: Board, color: Color)
    ensures Forced(b, color) != [] <==> SideCanCapture(b, color)
  {
    ForcedEmpty(b, color);
  }

  /** A piece has a first move to a square exactly when it has some move there. */
  lemma FirstToMeansHasMoveTo(b: Board, fr: int, fc: int, to: Pos)
    ensures FirstTo(Moves(b, fr, fc), to).Some? <==> HasMoveTo(b, fr, fc, to)
    ensures FirstTo(Moves(b, fr, fc), to).Some?
        ==> FirstTo(Moves(b, fr, fc), to).value in Moves(b, fr, fc)
  {
    var ms := Moves(b, fr, fc);
    FirstToFound(ms, to);
    if HasMoveTo(b, fr, fc, to) {
      var m :| m in ms && m.dest == to;
      var i :| 0 <= i < |ms| && ms[i] == m;
    }
  }

  /** The checks of `move` in terms of the rules: the game, the piece, its moves and the forced-capture rule. */
  lemma TurnedDownMeaning(g: Game, fr: int, fc: int, tr: int, tc: int)
    requires WellFormed(g.board)
    ensures TurnedDown(g, fr, fc, tr, tc)
        <==> || g.winner.Some?
             || !Owns(g.board, g.turn, fr, fc)
             || !HasMoveTo(g.board, fr, fc, Pos(tr, tc))
             || (SideCanCapture(g.board, g.turn) && !CanCapture(g.board, fr, fc, g.turn))
  {
    var b := g.board;
    FirstToMeansHasMoveTo(b, fr, fc, Pos(tr, tc));
    ForcedMeansSideCanCapture(b, g.turn);
    if Owns(b, g.turn, fr, fc) {
      MovesAreAllOneKind(b, fr, fc);
    }
  }

  /**
   * A move is refused exactly when the game is over, the square does not
   * hold a piece of the side to move, the piece cannot reach the target, or
   * the side must capture and this piece cannot; a refusal changes nothing,
   * and carries the position exactly when the game is over.
   */
  lemma PlayRefusal(g: Game, fr: int, fc: int, tr: int, tc: int)
    requires WellFormed(g.board)
    ensures Play(g, fr, fc, tr, tc).1.Refused?
        <==> || g.winner.Some?
             || !Owns(g.board, g.turn, fr, fc)
             || !HasMoveTo(g.board, fr, fc, Pos(tr, tc))
             || (SideCanCapture(g.board, g.turn) && !CanCapture(g.board, fr, fc, g.turn))
    ensures Play(g, fr, fc, tr, tc).1.Refused? ==> Play(g, fr, fc, tr, tc).0 == g
    ensures Play(g, fr, fc, tr, tc).1.Refused?
        ==> (Play(g, fr, fc, tr, tc).1.state.Some? <==> g.winner.Some?)
  {
    PlayRefusedOn(g, fr, fc, tr, tc);
    TurnedDownMeaning(g, fr, fc, tr, tc);
  }

  /**
   * An accepted move is one of the piece's legal moves, by a piece of the
   * side to move, and a capture whenever the side to move has one anywhere.
   */
  lemma PlayIsLegal(g: Game, fr: int, fc: int, tr: int, tc: int)
    requires WellFormed(g.board)
    requires Play(g, fr, fc, tr, tc).1.Moved?
    ensures var r := Play(g, fr, fc, tr, tc).1;
      && g.winner.None?
      && Owns(g.board, g.turn, fr, fc)
      && r.selected == Pos(tr, tc)
      && (if r.capture.Some? then Capture(Pos(tr, tc), r.capture.value) else Simple(Pos(tr, tc)))
         in Moves(g.board, fr, fc)
      && (SideCanCapture(g.board, g.turn) ==> r.capture.Some?)
  {
    PlayAccepted(g, fr, fc, tr, tc);
    var b := g.board;
    var p, m := At(b, fr, fc).value, FirstTo(Moves(b, fr, fc), Pos(tr, tc)).value;
    MoveSquares(b, fr, fc, m);
    FinishReport(g.turn, Landed(b, fr, fc, Crowned(p, tr), m), m, !p.king && Crowned(p, tr).king);
    ForcedEmpty(b, g.turn);
    MovesAreAllOneKind(b, fr, fc);
  }

  /** The fields of the report that do not depend on the new board's scans. */
  lemma FinishReport(turn: Color, b: Board, m: Move, promoted: bool)
    requires WellFormed(b)
    ensures var (g', r) := Finish(turn, b, m, promoted);
      && r.Moved? && g'.board == b && r.board == b
      && r.selected == m.dest && r.promoted == promoted
      && r.capture == (if m.Capture? then Some(m.jumped) else None)
  {
  }

  /**
   * The board after an accepted move: the piece (crowned when it reached its
   * far row) stands on the target, the source is empty, the jumped opposing
   * piece is gone, and every other square is as before.
   */
  lemma PlayBoard(g: Game, fr: int, fc: int, tr: int, tc: int)
    requires WellFormed(g.board)
    requires Play(g, fr, fc, tr, tc).1.Moved?
    ensures var g', r := Play(g, fr, fc, tr, tc).0, Play(g, fr, fc, tr, tc).1;
      var p := At(g.board, fr, fc).value;
      && WellFormed(g'.board)
      && r.board == g'.board
      && At(g'.board, tr, tc) == Some(Crowned(p, tr))
      && At(g'.board, fr, fc) == None
      && (r.promoted <==> !p.king && CrownRow(p.color, tr))
      && (r.capture.Some? ==> At(g'.board, r.capture.value.row, r.capture.value.col) == None
                              && Owns(g.board, Opponent(g.turn), r.capture.value.row, r.capture.value.col))
      && forall x, y :: Pos(x, y) != Pos(fr, fc) && Pos(x, y) != Pos(tr, tc)
                        && (r.capture.Some? ==> Pos(x, y) != r.capture.value)
                        ==> At(g'.board, x, y) == At(g.board, x, y)
  {
    PlayAccepted(g, fr, fc, tr, tc);
    var b := g.board;
    var p, m := At(b, fr, fc).value, FirstTo(Moves(b, fr, fc), Pos(tr, tc)).value;
    MoveSquares(b, fr, fc, m);
    var q := Crowned(p, tr);
    FinishReport(g.turn, Landed(b, fr, fc, q, m), m, !p.king && q.king);
  }

  /**
   * The stored `winner` stays the winner rule of the board: a refusal keeps
   * the game as it is, and a played move recomputes the winner on the board
   * it leaves.
   */
  lemma PlayKeepsWinner(g: Game, fr: int, fc: int, tr: int, tc: int)
    requires WellFormed(g.board) && g.winner == Winner(g.board)
    ensures WellFormed(Play(g, fr, fc, tr, tc).0.board)
    ensures Play(g, fr, fc, tr, tc).0.winner == Winner(Play(g, fr, fc, tr, tc).0.board)
  {
    if Play(g, fr, fc, tr, tc).1.Moved? {
      PlayBoard(g, fr, fc, tr, tc);
      PlayAccepted(g, fr, fc, tr, tc);
    }
  }

  /**
   * Chaining after a move of a `turn` piece by m that left board b: the
   * same side moves again exactly when the move was a capture that did not
   * promote and the piece can capture again from where it landed; the next
   * moves offered are then exactly those captures and the piece is the only
   * forced one. Otherwise the turn passes. The winner is that of the new
   * board.
   */
  lemma FinishChain(turn: Color, b: Board, m: Move, promoted: bool)
    requires WellFormed(b)
    requires Owns(b, turn, m.dest.row, m.dest.col)
    ensures var (g', r) := Finish(turn, b, m, promoted);
      var to := m.dest;
      && (r.extraCapture <==> m.Capture? && !promoted && CanCapture(b, to.row, to.col, turn))
      && (forall x :: x in r.nextMoves <==> m.Capture? && !promoted && JumpOf(b, to.row, to.col, turn, x))
      && g'.turn == (if r.extraCapture then turn else Opponent(turn))
      && r.turn == g'.turn
      && g'.winner == Winner(b) && r.winner == g'.winner
      && r.forced == (if g'.winner.Some? then [] else if r.extraCapture then [to] else Forced(b, g'.turn))
  {
    if m.Capture? && !promoted {
      CapturesFrom(b, turn, m.dest);
    }
  }

  /** The captures among the moves of a `turn` piece on `to` are its jumps; there are some exactly when it can capture. */
  lemma CapturesFrom(b: Board, turn: Color, to: Pos)
    requires Owns(b, turn, to.row, to.col)
    ensures forall x :: x in CapturesIn(Moves(b, to.row, to.col)) <==> JumpOf(b, to.row, to.col, turn, x)
    ensures CapturesIn(Moves(b, to.row, to.col)) != [] <==> CanCapture(b, to.row, to.col, turn)
  {
    var next := Moves(b, to.row, to.col);
    var caps := CapturesIn(next);
    MovesAreAllOneKind(b, to.row, to.col);
    forall x
      ensures x in caps <==> JumpOf(b, to.row, to.col, turn, x)
    {
      CapturesInMember(next, x);
      MovesCharacterized(b, to.row, to.col, x);
    }
    if CanCapture(b, to.row, to.col, turn) {
      JumpsNonEmpty(b, to.row, to.col, turn, Diagonals);
      CapturesInMember(next, next[0]);
    } else if caps != [] {
      CapturesInMember(next, caps[0]);
    }
  }

  /** `FinishChain` for an accepted move of `move`. */
  lemma PlayChain(g: Game, fr: int, fc: int, tr: int, tc: int)
    requires WellFormed(g.board)
    requires Play(g, fr, fc, tr, tc).1.Moved?
    ensures var g', r := Play(g, fr, fc, tr, tc).0, Play(g, fr, fc, tr, tc).1;
      && (r.extraCapture <==> r.capture.Some? && !r.promoted && CanCapture(g'.board, tr, tc, g.turn))
      && (forall m :: m in r.nextMoves
                      <==> r.capture.Some? && !r.promoted && JumpOf(g'.board, tr, tc, g.turn, m))
      && g'.turn == (if r.extraCapture then g.turn else Opponent(g.turn))
      && r.turn == g'.turn
      && g'.winner == Winner(g'.board) && r.winner == g'.winner
      && r.forced == (if g'.winner.Some? then [] else if r.extraCapture then [Pos(tr, tc)]
                      else Forced(g'.board, g'.turn))
  {
    PlayAccepted(g, fr, fc, tr, tc);
    var b := g.board;
    var p, m := At(b, fr, fc).value, FirstTo(Moves(b, fr, fc), Pos(tr, tc)).value;
    MoveSquares(b, fr, fc, m);
    var q := Crowned(p, tr);
    var b' := Landed(b, fr, fc, q, m);
    FinishReport(g.turn, b', m, !p.king && q.king);
    FinishChain(g.turn, b', m, !p.king && q.king);
  }

  /**
   * `_create_initial_board`: an empty 8x8 board filled square by square
   * with the starting men.
   */
  method CreateInitialBoard() returns (b: Board)
    ensures b == InitialBoard()
  {
    b := EmptyGrid();
    var row := 0;
    while row < Size
      invariant 0 <= row <= Size
      invariant WellFormed(b)
      invariant forall r, c :: Inside(r, c) ==> At(b, r, c) == if r < row then StartCell(r, c) else None
    {
      var col := 0;
      while col < Size
        invariant 0 <= col <= Size
        invariant WellFormed(b)
        invariant forall r, c :: Inside(r, c) ==>
          At(b, r, c) == if r < row || (r == row && c < col) then StartCell(r, c) else None
      {
        if (row + col) % 2 == 1 {
          if row < 3 {
            b := Put(b, row, col, Some(Piece(Black, false)));
          } else if row > 4 {
            b := Put(b, row, col, Some(Piece(White, false)));
          }
        }
        col := col + 1;
      }
      row := row + 1;
    }
    GridsEqual(b, InitialBoard());
  }

  /** The starting position, with white to move, shows no forced piece. */
  lemma InitialSnapshot()
    ensures SnapshotOf(Game(InitialBoard(), White, None)).forced == []
  {
    var b := InitialBoard();
    forall r, c | Inside(r, c) && Owns(b, White, r, c)
      ensures !CanCapture(b, r, c, White)
    {
      InitialNoCapture(r, c, White);
    }
    ForcedEmpty(b, White);
  }

  /** The loop of `valid_moves` over the step directions: each empty diagonal neighbour, in order. */
  method ScanSteps(b: Board, row: int, col: int, dirs: seq<Dir>) returns (moves: seq<Move>)
    requires WellFormed(b)
    ensures moves == SimpleAlong(b, row, col, dirs)
  {
    moves := [];
    var i := 0;
    while i < |dirs|
      invariant 0 <= i <= |dirs|
      invariant moves == SimpleAlong(b, row, col, dirs[..i])
    {
      var d := dirs[i];
      var r, c := row + d.dr, col + d.dc;
      SimpleAlongNext(b, row, col, dirs, i);
      if 0 <= r < Size && 0 <= c < Size && b[r][c].None? {
        moves := moves + [Simple(Pos(r, c))];
      }
      i := i + 1;
    }
    assert dirs[..i] == dirs;
  }

  /**
   * The loop of `valid_moves` over the capture directions: each jump over an
   * adjacent opposing piece onto the empty square beyond it, in order.
   */
  method ScanJumps(b: Board, row: int, col: int, color: Color, dirs: seq<Dir>) returns (moves: seq<Move>)
    requires WellFormed(b)
    ensures moves == JumpsAlong(b, row, col, color, dirs)
  {
    moves := [];
    var i := 0;
    while i < |dirs|
      invariant 0 <= i <= |dirs|
      invariant moves == JumpsAlong(b, row, col, color, dirs[..i])
    {
      var d := dirs[i];
      var r, c := row + d.dr, col + d.dc;
      var jumpR, jumpC := r + d.dr, c + d.dc;
      JumpsAlongNext(b, row, col, color, dirs, i);
      if !(0 <= r < Size && 0 <= c < Size && 0 <= jumpR < Size && 0 <= jumpC < Size) {
        assert !CanJump(b, row, col, color, d);
        i := i + 1;
        continue;
      }
      var target := b[r][c];
      if target.Some? && target.value.color != color && b[jumpR][jumpC].None? {
        assert CanJump(b, row, col, color, d);
        moves := moves + [Capture(Pos(jumpR, jumpC), Pos(r, c))];
      } else {
        assert !CanJump(b, row, col, color, d);
      }
      i := i + 1;
    }
    assert dirs[..i] == dirs;
  }

  /** The loop of `move` that picks the first of `moves` ending on `to`. */
  method FindMove(moves: seq<Move>, to: Pos) returns (chosen: Option<Move>)
    ensures chosen == FirstTo(moves, to)
  {
    chosen := None;
    var i := 0;
    while i < |moves|
      invariant 0 <= i <= |moves|
      invariant FirstTo(moves, to) == FirstTo(moves[i..], to)
    {
      if moves[i].dest.row == to.row && moves[i].dest.col == to.col {
        chosen := Some(moves[i]);
        break;
      }
      assert moves[i..][1..] == moves[i + 1..];
      i := i + 1;
    }
  }

  /** The loop of `move` that collects the captures among the moves of the landed piece. */
  method KeepCaptures(following: seq<Move>) returns (nextCaptures: seq<Move>)
    ensures nextCaptures == CapturesIn(following)
  {
    nextCaptures := [];
    var j := 0;
    while j < |following|
      invariant 0 <= j <= |following|
      invariant nextCaptures == CapturesIn(following[..j])
    {
      if following[j].Capture? {
        nextCaptures := nextCaptures + [following[j]];
      }
      assert following[..j + 1][..j] == following[..j];
      j := j + 1;
    }
    assert following[..j] == following;
  }

  /** The loop of `_count_pieces` over the squares of b, row by row. */
  method CountBoard(b: Board) returns (whites: nat, blacks: nat)
    requires WellFormed(b)
    ensures whites == Count(b, White) && blacks == Count(b, Black)
  {
    whites, blacks := 0, 0;
    var row := 0;
    while row < Size
      invariant 0 <= row <= Size
      invariant whites == CountBefore(b, White, row, Size)
      invariant blacks == CountBefore(b, Black, row, Size)
    {
      var col := 0;
      while col < Size
        invariant 0 <= col <= Size
        invariant whites == CountBefore(b, White, row, Size) + CountInRow(b, White, row, col)
        invariant blacks == CountBefore(b, Black, row, Size) + CountInRow(b, Black, row, col)
      {
        var piece := b[row][col];
        if piece.Some? {
          if piece.value.color == White {
            whites := whites + 1;
          } else {
            blacks := blacks + 1;
          }
        }
        col := col + 1;
      }
      row := row + 1;
    }
  }

  class CheckersGame {
    var board: Board
    var turn: Color
    var winner: Option<Color>

    ghost predicate Valid()
      reads this
    {
      WellFormed(board)
    }

    function State(): Game
      reads this
    {
      Game(board, turn, winner)
    }

    /** A new game is reset to the starting position. */
    constructor()
      ensures Valid()
      ensures State() == Game(InitialBoard(), White, None)
    {
      board := [];
      turn := White;
      winner := None;
      new;
      var _ := Reset();
    }

    /** `reset`: the starting position, white to move, no winner; returns the new snapshot. */
    method Reset() returns (s: Snapshot)
      modifies this
      ensures Valid()
      ensures State() == Game(InitialBoard(), White, None)
      ensures s == SnapshotOf(State()) && s.forced == []
    {
      board := CreateInitialBoard();
      turn := White;
      winner := None;
      s := TakeSnapshot();
      InitialSnapshot();
    }

    /** `snapshot`: the board, the turn, the winner and the pieces that must capture. */
    method TakeSnapshot() returns (s: Snapshot)
      requires Valid()
      ensures s == SnapshotOf(State())
      ensures forall p :: p in s.forced
                <==> winner.None? && Inside(p.row, p.col) && Owns(board, turn, p.row, p.col)
                     && CanCapture(board, p.row, p.col, turn)
    {
      var forced: seq<Pos> := [];
      if winner.None? {
        forced := ForcedPieces(Some(turn));
      }
      s := Snapshot(board, turn, winner, forced);
      forall p
        ensures p in s.forced
                <==> winner.None? && Inside(p.row, p.col) && Owns(board, turn, p.row, p.col)
                     && CanCapture(board, p.row, p.col, turn)
      {
        ForcedMember(board, turn, p);
      }
    }

    /** `piece_at`: the piece on (row, col), none off the board. */
    function PieceAt(row: int, col: int): (p: Option<Piece>)
      requires Valid()
      reads this
      ensures p.Some? ==> Inside(row, col)
      ensures Inside(row, col) ==> p == board[row][col]
    {
      if 0 <= row < Size && 0 <= col < Size then board[row][col] else None
    }

    /**
     * `valid_moves`: the simple moves and the captures of the piece on
     * (row, col), scanned direction by direction; the captures when there are
     * any. With `respectTurn`, a piece of the side not to move has none while
     * the game is running.
     */
    method ValidMoves(row: int, col: int, respectTurn: bool) returns (ms: seq<Move>)
      requires Valid()
      ensures ms == MovesFor(State(), row, col, respectTurn)
    {
      var piece := PieceAt(row, col);
      if piece.None? {
        return [];
      }
      var p := piece.value;
      if respectTurn && p.color != turn && winner.None? {
        return [];
      }
      var simpleDirs;
      if p.king {
        simpleDirs := [Dir(-1, -1), Dir(-1, 1), Dir(1, -1), Dir(1, 1)];
      } else if p.color == White {
        simpleDirs := [Dir(-1, -1), Dir(-1, 1)];
      } else {
        simpleDirs := [Dir(1, -1), Dir(1, 1)];
      }
      assert simpleDirs == StepDirs(p);
      var captureDirs := [Dir(-1, -1), Dir(-1, 1), Dir(1, -1), Dir(1, 1)];

      var simpleMoves := ScanSteps(board, row, col, simpleDirs);
      var captureMoves := ScanJumps(board, row, col, p.color, captureDirs);
      assert captureDirs == Diagonals;
      ms := if captureMoves != [] then captureMoves else simpleMoves;
    }

    /**
     * `forced_pieces`: row by row, the squares whose `color` piece (the side
     * to move when no colour is given) has a capture.
     */
    method ForcedPieces(color: Option<Color>) returns (forced: seq<Pos>)
      requires Valid()
      ensures forced == Forced(board, if color.Some? then color.value else turn)
    {
      var side := if color.Some? then color.value else turn;
      forced := [];
      var row := 0;
      while row < Size
        invariant 0 <= row <= Size
        invariant forced == ForcedBefore(board, side, row, Size)
      {
        var col := 0;
        while col < Size
          invariant 0 <= col <= Size
          invariant forced == ForcedBefore(board, side, row, Size) + ForcedInRow(board, side, row, col)
        {
          var piece := board[row][col];
          IsForcedByMoves(board, side, row, col);
          if piece.Some? && piece.value.color == side {
            var moves := ValidMoves(row, col, false);
            if HasCapture(moves) {
              forced := forced + [Pos(row, col)];
            }
          }
          col := col + 1;
        }
        row := row + 1;
      }
    }

    /** `has_any_moves`: some `color` piece has a move. */
    method HasAnyMoves(color: Color) returns (any: bool)
      requires Valid()
      ensures any == AnyMoves(board, color)
    {
      var row := 0;
      while row < Size
        invariant 0 <= row <= Size
        invariant forall r, c :: 0 <= r < row && 0 <= c < Size ==> !Movable(board, color, r, c)
      {
        var col := 0;
        while col < Size
          invariant 0 <= col <= Size
          invariant forall r, c :: 0 <= r < row && 0 <= c < Size ==> !Movable(board, color, r, c)
          invariant forall c :: 0 <= c < col ==> !Movable(board, color, row, c)
        {
          var piece := board[row][col];
          MovableByMoves(board, color, row, col);
          if piece.Some? && piece.value.color == color {
            var moves := ValidMoves(row, col, false);
            if moves != [] {
              AnyMovesMeaning(board, color);
              return true;
            }
          }
          col := col + 1;
        }
        row := row + 1;
      }
      AnyMovesMeaning(board, color);
      return false;
    }

    /** `_count_pieces`: the numbers of white and of black pieces. */
    method CountPieces() returns (whites: nat, blacks: nat)
      requires Valid()
      ensures whites == Count(board, White) && blacks == Count(board, Black)
    {
      whites, blacks := CountBoard(board);
    }

    /** `get_winner`. */
    method GetWinner() returns (w: Option<Color>)
      requires Valid()
      ensures w == Winner(board)
    {
      var whites, blacks := CountPieces();
      if whites == 0 && blacks == 0 {
        return None;
      }
      if whites == 0 {
        return Some(Black);
      }
      if blacks == 0 {
        return Some(White);
      }
      var whiteMoves := HasAnyMoves(White);
      if !whiteMoves {
        return Some(Black);
      }
      var blackMoves := HasAnyMoves(Black);
      if !blackMoves {
        return Some(White);
      }
      return None;
    }

    /** `move`: validates and plays one move, as `Play` describes. */
    method Move(fromRow: int, fromCol: int, toRow: int, toCol: int) returns (res: Report)
      requires Valid()
      modifies this
      ensures Valid()
      ensures (State(), res) == Play(old(State()), fromRow, fromCol, toRow, toCol)
    {
      ghost var g := State();
      if winner.Some? {
        PlayTurnedDown(g, fromRow, fromCol, toRow, toCol);
        return Refused(Some(Snapshot(board, turn, winner, [])));
      }
      var piece := PieceAt(fromRow, fromCol);
      if piece.None? || piece.value.color != turn {
        PlayTurnedDown(g, fromRow, fromCol, toRow, toCol);
        return Refused(None);
      }
      var p := piece.value;
      var moves := ValidMoves(fromRow, fromCol, true);
      var chosen := FindMove(moves, Pos(toRow, toCol));
      if chosen.None? {
        PlayTurnedDown(g, fromRow, fromCol, toRow, toCol);
        return Refused(None);
      }
      var m := chosen.value;
      var forcedNow := ForcedPieces(Some(turn));
      if forcedNow != [] && m.Simple? {
        PlayTurnedDown(g, fromRow, fromCol, toRow, toCol);
        return Refused(None);
      }
      PlayGoesThrough(g, fromRow, fromCol, toRow, toCol);
      res := Commit(fromRow, fromCol, p, m);
    }

    /** The second half of `move`: an accepted move m of piece p from (fr, fc) is played as `Apply` describes. */
    method Commit(fr: int, fc: int, p: Piece, m: Move) returns (res: Report)
      requires Valid() && At(board, fr, fc) == Some(p) && p.color == turn && m in Moves(board, fr, fc)
      modifies this
      ensures Valid()
      ensures (State(), res) == Apply(old(State()), fr, fc, p, m)
    {
      MoveSquares(board, fr, fc, m);
      var promoted := Land(fr, fc, p, m);
      assert At(board, m.dest.row, m.dest.col) == Some(Crowned(p, m.dest.row));
      res := Conclude(m, promoted);
    }

    /**
     * The board changes of `move`: the piece goes to the target and leaves
     * its square, is crowned on its far row, and the jumped piece is removed.
     */
    method Land(fr: int, fc: int, p: Piece, m: Move) returns (promoted: bool)
      requires Valid() && Inside(fr, fc) && Inside(m.dest.row, m.dest.col) && m.dest != Pos(fr, fc)
      requires m.Capture? ==> Inside(m.jumped.row, m.jumped.col) && m.jumped != m.dest
      modifies this
      ensures Valid()
      ensures board == Landed(old(board), fr, fc, Crowned(p, m.dest.row), m)
      ensures promoted == (!p.king && Crowned(p, m.dest.row).king)
      ensures turn == old(turn) && winner == old(winner)
    {
      var toRow, toCol := m.dest.row, m.dest.col;
      ghost var b := board;
      var piece := p;
      board := Put(board, toRow, toCol, Some(piece));
      board := Put(board, fr, fc, None);

      promoted := false;
      if !piece.king {
        if piece.color == White && toRow == 0 {
          piece := piece.(king := true);
          promoted := true;
        } else if piece.color == Black && toRow == Size - 1 {
          piece := piece.(king := true);
          promoted := true;
        }
        // The piece object is shared with the cell it now stands on.
        board := Put(board, toRow, toCol, Some(piece));
      }

      var capture: Option<Pos> := if m.Capture? then Some(m.jumped) else None;
      if capture.Some? {
        board := Put(board, capture.value.row, capture.value.col, None);
      }
      GridsEqual(board, Landed(b, fr, fc, Crowned(p, m.dest.row), m));
    }

    /**
     * The rest of `move` once the board is updated: the follow-up captures,
     * the turn, the winner and the report.
     */
    method Conclude(m: Move, promoted: bool) returns (res: Report)
      requires Valid() && Owns(board, turn, m.dest.row, m.dest.col)
      modifies this
      ensures Valid()
      ensures (State(), res) == Finish(old(turn), old(board), m, promoted)
    {
      var toRow, toCol := m.dest.row, m.dest.col;
      var capture: Option<Pos> := if m.Capture? then Some(m.jumped) else None;
      var nextCaptures: seq<Move> := [];
      if capture.Some? && !promoted {
        var following := ValidMoves(toRow, toCol, true);
        nextCaptures := KeepCaptures(following);
      }

      var extraCapture := nextCaptures != [];
      if !extraCapture {
        turn := if turn == White then Black else White;
      }

      winner := GetWinner();
      var forced: seq<Pos> := [];
      if winner.Some? {
        forced := [];
      } else if extraCapture {
        forced := [Pos(toRow, toCol)];
      } else {
        forced := ForcedPieces(Some(turn));
      }

      res := Moved(board, turn, winner, forced, extraCapture, nextCaptures,
                   Pos(toRow, toCol), capture, promoted);
    }
  }
}
