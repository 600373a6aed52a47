/**
 * The browser port of the checkers rules in
 * kraw_hub/static/games/damas/web_build/script.js. Its global state (board,
 * turn, selection, offered moves, forced pieces, winner) becomes the fields
 * of `CanvasGame`; each handler is a method proved to produce the state the
 * pure function of the same name describes.
 *
 * The port keys moves by destination (a `Map`), plays the offered move
 * without re-checking it, leaves the winner untouched while a capture chain
 * goes on, and clears the forced list during a chain.
 */
module DamasCanvas {
  import opened Common
  import opened CheckersRules
  import opened DamasLogic

  /** The global variables of the script. */
  datatype Canvas = Canvas(board: Board, turn: Color, selected: Option<Pos>,
                           validMoves: map<Pos, Move>, forcedPieces: seq<Pos>, winner: Option<Color>)

  /** `getValidMoves`: the moves of the piece on (r, c) keyed by destination. */
  function MoveMap(b: Board, r: int, c: int): map<Pos, Move> {
    AsMap(Moves(b, r, c))
  }

  /**
   * The offered moves belong to the selected piece: it stands on the board
   * and every offered move is one of its legal moves, filed under its
   * destination.
   */
  ghost predicate Consistent(st: Canvas) {
    && WellFormed(st.board)
    && (st.selected.Some? ==>
          var from := st.selected.value;
          && At(st.board, from.row, from.col).Some?
          && forall k :: k in st.validMoves ==>
               st.validMoves[k] in Moves(st.board, from.row, from.col) && st.validMoves[k].dest == k)
  }

  /** The move map is keyed by the destinations of the piece's moves, holds captures only when it can capture, and steps otherwise. */
  lemma MoveMapMeaning(b: Board, r: int, c: int)
    requires At(b, r, c).Some?
    ensures forall k :: k in MoveMap(b, r, c) <==> exists m :: m in Moves(b, r, c) && m.dest == k
    ensures forall k :: k in MoveMap(b, r, c) ==> MoveMap(b, r, c)[k] in Moves(b, r, c) && MoveMap(b, r, c)[k].dest == k
    ensures var color := At(b, r, c).value.color;
      && (CanCapture(b, r, c, color) ==> forall k :: k in MoveMap(b, r, c) ==> MoveMap(b, r, c)[k].Capture?)
      && (!CanCapture(b, r, c, color) ==> forall k :: k in MoveMap(b, r, c) ==> MoveMap(b, r, c)[k].Simple?)
      && ((exists k :: k in MoveMap(b, r, c) && MoveMap(b, r, c)[k].Capture?) <==> CanCapture(b, r, c, color))
  {
    var ms := Moves(b, r, c);
    AsMapKeys(ms);
    MovesAreAllOneKind(b, r, c);
    var color := At(b, r, c).value.color;
    if CanCapture(b, r, c, color) {
      var i :| 0 <= i < |ms| && ms[i].Capture?;
      assert ms[i].dest in MoveMap(b, r, c);
    }
  }

  /**
   * `attemptMove(tr, tc)` with a piece selected: a square not offered clears
   * the selection; otherwise the offered move is played, the jumped piece
   * removed, and either the chain goes on from the landing square (captures
   * only, nothing forced, same side) or the turn passes, the forced list is
   * recomputed for the new side and a winner, once there is one, is recorded.
   */
  function Attempt(st: Canvas, tr: int, tc: int): Canvas
    requires Consistent(st) && st.selected.Some?
  {
    var key := Pos(tr, tc);
    if key !in st.validMoves then st.(selected := None, validMoves := map[])
    else
      var m := st.validMoves[key];
      var from := st.selected.value;
      var p := At(st.board, from.row, from.col).value;
      MoveSquares(st.board, from.row, from.col, m);
      var q := Crowned(p, m.dest.row);
      var promoted := !p.king && q.king;
      AfterLanding(st.(board := Landed(st.board, from.row, from.col, q, m)), m, promoted)
  }

  /**
   * The end of `attemptMove`, once the piece has landed by m on the board of
   * st: the chain goes on when the move captured without crowning and the
   * piece has captures from its new square; otherwise the turn passes.
   */
  function AfterLanding(st: Canvas, m: Move, promoted: bool): Canvas
    requires WellFormed(st.board)
  {
    var captures := CaptureEntries(MoveMap(st.board, m.dest.row, m.dest.col));
    if m.Capture? && !promoted && |captures| != 0 then
      st.(selected := Some(m.dest), validMoves := captures, forcedPieces := [])
    else
      var turn' := Opponent(st.turn);
      var w := Winner(st.board);
      Canvas(st.board, turn', None, map[], Forced(st.board, turn'), if w.Some? then w else st.winner)
  }

  /**
   * `selectPiece(row, col)`: a piece of the side to move, listed as forced
   * when any piece is, and with a move, becomes the selection, offered its
   * moves (only the captures when some piece is forced); any other click
   * changes nothing.
   */
  function SelectPieceOn(st: Canvas, row: int, col: int): Canvas
    requires WellFormed(st.board)
  {
    match At(st.board, row, col)
    case None => st
    case Some(p) =>
      if p.color != st.turn || st.winner.Some? then st
      else if st.forcedPieces != [] && Pos(row, col) !in st.forcedPieces then st
      else
        var moves := MoveMap(st.board, row, col);
        if |moves| == 0 then st
        else st.(validMoves := if st.forcedPieces != [] then CaptureEntries(moves) else moves,
                 selected := Some(Pos(row, col)))
  }

  /** `handleClick` on the square (row, col). */
  function Click(st: Canvas, row: int, col: int): Canvas
    requires Consistent(st)
  {
    if st.winner.Some? || !Inside(row, col) then st
    else if st.selected.Some? then Attempt(st, row, col)
    else SelectPieceOn(st, row, col)
  }

  /** `restartGame`: the starting position, white to move, nothing selected. */
  function Restarted(): Canvas {
    Canvas(InitialBoard(), White, None, map[], Forced(InitialBoard(), White), None)
  }

  lemma RestartedMeaning()
    ensures Consistent(Restarted()) && Restarted().forcedPieces == []
  {
    InitialSnapshot();
  }

  /**
   * `selectPiece` selects exactly a piece of the side to move, in a game
   * without a winner, listed as forced when any piece is, and with a legal
   * move; it is then offered its moves filed by destination, or only its
   * captures when some piece is forced. Any other square is refused and
   * nothing changes. Selecting never touches the board, the turn, the
   * forced list or the winner.
   */
  lemma SelectPieceKeepsConsistent(st: Canvas, row: int, col: int)
    requires Consistent(st)
    ensures var st' := SelectPieceOn(st, row, col);
      var eligible := && Owns(st.board, st.turn, row, col) && st.winner.None?
                      && (st.forcedPieces != [] ==> Pos(row, col) in st.forcedPieces)
                      && Moves(st.board, row, col) != [];
      && Consistent(st')
      && st'.board == st.board && st'.turn == st.turn
      && st'.forcedPieces == st.forcedPieces && st'.winner == st.winner
      && (!eligible ==> st' == st)
      && (eligible ==>
            && st'.selected == Some(Pos(row, col))
            && (st.forcedPieces == [] ==>
                  && st'.validMoves == MoveMap(st.board, row, col)
                  && forall k :: k in st'.validMoves <==> exists m :: m in Moves(st.board, row, col) && m.dest == k)
            && (st.forcedPieces != [] ==>
                  && st'.validMoves == CaptureEntries(MoveMap(st.board, row, col))
                  && (forall k :: k in st'.validMoves ==> st'.validMoves[k].Capture?)
                  && forall k :: k in st'.validMoves <==> exists j :: JumpOf(st.board, row, col, st.turn, j) && j.dest == k))
  {
    if Owns(st.board, st.turn, row, col) {
      MoveMapMeaning(st.board, row, col);
      AsMapEmpty(Moves(st.board, row, col));
      ChainCaptures(st.board, row, col, st.turn);
    }
  }

  /**
   * An offered move lands the piece (crowned on its far row) on the square,
   * empties the square it left and the jumped square, and changes nothing
   * else; the chain goes on exactly when the move captured, did not crown,
   * and the piece can capture again, and then the side keeps the turn, the
   * winner is not looked at and only the new captures are offered.
   * Otherwise the turn passes and the forced list is that of the new side.
   */
  lemma AttemptOutcome(st: Canvas, tr: int, tc: int)
    requires Consistent(st) && st.selected.Some? && Pos(tr, tc) in st.validMoves
    ensures var st' := Attempt(st, tr, tc);
      var from, m := st.selected.value, st.validMoves[Pos(tr, tc)];
      var p := At(st.board, from.row, from.col).value;
      var promoted := !p.king && CrownRow(p.color, tr);
      && m.dest == Pos(tr, tc)
      && Consistent(st')
      && At(st'.board, tr, tc) == Some(Crowned(p, tr))
      && At(st'.board, from.row, from.col) == None
      && (m.Capture? ==> At(st'.board, m.jumped.row, m.jumped.col) == None)
      && (forall x, y :: Pos(x, y) != from && Pos(x, y) != m.dest && (m.Capture? ==> Pos(x, y) != m.jumped)
                         ==> At(st'.board, x, y) == At(st.board, x, y))
      && (st'.selected.Some? <==> m.Capture? && !promoted && CanCapture(st'.board, tr, tc, p.color))
      && (st'.selected.Some? ==>
            && st'.selected == Some(Pos(tr, tc)) && st'.turn == st.turn
            && st'.forcedPieces == [] && st'.winner == st.winner
            && forall k :: k in st'.validMoves <==> exists j :: JumpOf(st'.board, tr, tc, p.color, j) && j.dest == k)
      && (st'.selected.None? ==>
            && st'.validMoves == map[] && st'.turn == Opponent(st.turn)
            && st'.forcedPieces == Forced(st'.board, st'.turn)
            && st'.winner == (if Winner(st'.board).Some? then Winner(st'.board) else st.winner))
  {
    var from, m := st.selected.value, st.validMoves[Pos(tr, tc)];
    var p := At(st.board, from.row, from.col).value;
    MoveSquares(st.board, from.row, from.col, m);
    var b' := Landed(st.board, from.row, from.col, Crowned(p, m.dest.row), m);
    ChainCaptures(b', tr, tc, p.color);
  }

  /**
   * The capture entries of the move map of a `color` piece on (r, c): there
   * are some exactly when it can capture, they are keyed by the landing
   * squares of its jumps, and each is one of its moves.
   */
  lemma ChainCaptures(b: Board, r: int, c: int, color: Color)
    requires Owns(b, color, r, c)
    ensures var caps := CaptureEntries(MoveMap(b, r, c));
      && (|caps| != 0 <==> CanCapture(b, r, c, color))
      && (forall k :: k in caps <==> exists j :: JumpOf(b, r, c, color, j) && j.dest == k)
      && (forall k :: k in caps ==> caps[k] in Moves(b, r, c) && caps[k].dest == k)
  {
    var mm := MoveMap(b, r, c);
    var caps := CaptureEntries(mm);
    MoveMapMeaning(b, r, c);
    JumpsNonEmpty(b, r, c, color, Diagonals);
    forall k | k in caps
      ensures JumpOf(b, r, c, color, caps[k])
    {
      MovesCharacterized(b, r, c, caps[k]);
    }
    forall j | JumpOf(b, r, c, color, j)
      ensures j.dest in caps
    {
      JumpsOfDiagonals(b, r, c, color, Diagonals, j);
      assert j.dest in mm;
      MoveToUnique(b, r, c, j, mm[j.dest]);
    }
    if CanCapture(b, r, c, color) {
      var ms := Moves(b, r, c);
      MovesAreAllOneKind(b, r, c);
      var i :| 0 <= i < |ms| && ms[i].Capture?;
      MovesCharacterized(b, r, c, ms[i]);
      assert ms[i].dest in caps;
    }
  }

  /**
   * The port agrees with the Python engine: when the selection offers only
   * legal moves of a piece of the side to move, and only captures whenever
   * that side has one, playing an offered square leaves the same board and
   * the same side to move as `move` does, and goes on with a chain exactly
   * when `move` reports an extra capture.
   */
  lemma AttemptAgreesWithPlay(st: Canvas, tr: int, tc: int)
    requires Consistent(st) && st.selected.Some? && Pos(tr, tc) in st.validMoves && st.winner.None?
    requires Owns(st.board, st.turn, st.selected.value.row, st.selected.value.col)
    requires SideCanCapture(st.board, st.turn) ==> forall k :: k in st.validMoves ==> st.validMoves[k].Capture?
    ensures var from := st.selected.value;
      var (g', r) := Play(Game(st.board, st.turn, None), from.row, from.col, tr, tc);
      var st' := Attempt(st, tr, tc);
      && r.Moved?
      && st'.board == g'.board
      && st'.turn == g'.turn
      && (st'.selected.Some? <==> r.extraCapture)
  {
    var from, m := st.selected.value, st.validMoves[Pos(tr, tc)];
    var g := Game(st.board, st.turn, None);
    var b := st.board;
    PlayRefusal(g, from.row, from.col, tr, tc);
    assert HasMoveTo(b, from.row, from.col, Pos(tr, tc));
    if SideCanCapture(b, st.turn) {
      MovesAreAllOneKind(b, from.row, from.col);
    }
    PlayAccepted(g, from.row, from.col, tr, tc);
    var m' := FirstTo(Moves(b, from.row, from.col), Pos(tr, tc)).value;
    MoveToUnique(b, from.row, from.col, m, m');
    PlayBoard(g, from.row, from.col, tr, tc);
    PlayChain(g, from.row, from.col, tr, tc);
    AttemptOutcome(st, tr, tc);
    var st' := Attempt(st, tr, tc);
    var g' := Play(g, from.row, from.col, tr, tc).0;
    GridsEqual(st'.board, g'.board);
  }

  /**
   * The forced-capture rule can be sidestepped in the middle of a chain.
   * While a chain goes on (a piece of the side to move is selected and can
   * capture again, and the forced list has been emptied, as `AttemptOutcome`
   * shows every continuation leaves it), a click on a square not offered
   * only drops the selection. Another piece of the same side may then be
   * selected and step, and the turn passes, although the Python engine's
   * `move` turns down that very step on that board because a capture is
   * mandatory.
   */
  lemma ChainMissBypassesForcing(st: Canvas, mr: int, mc: int, row: int, col: int, to: Pos)
    requires Consistent(st) && st.winner.None? && st.forcedPieces == []
    requires st.selected.Some? && IsForced(st.board, st.turn, st.selected.value.row, st.selected.value.col)
    requires Inside(mr, mc) && Pos(mr, mc) !in st.validMoves
    requires Owns(st.board, st.turn, row, col) && Move.Simple(to) in Moves(st.board, row, col)
    ensures var st1 := Click(st, mr, mc);
      && Consistent(st1) && st1.board == st.board && st1.turn == st.turn && st1.selected.None?
      && var st2 := Click(st1, row, col);
      && Consistent(st2) && st2.selected == Some(Pos(row, col)) && Pos(to.row, to.col) in st2.validMoves
      && st2.validMoves[Pos(to.row, to.col)] == Move.Simple(to)
      && var st3 := Click(st2, to.row, to.col);
      && At(st3.board, to.row, to.col).Some? && At(st3.board, row, col).None?
      && st3.turn == Opponent(st.turn)
    ensures Play(Game(st.board, st.turn, None), row, col, to.row, to.col).1.Refused?
  {
    var b := st.board;
    var st1 := Click(st, mr, mc);
    assert st1 == st.(selected := None, validMoves := map[]);
    ClickKeepsConsistent(st, mr, mc);
    SelectPieceKeepsConsistent(st1, row, col);
    var st2 := Click(st1, row, col);
    assert st2 == SelectPieceOn(st1, row, col);
    assert Pos(to.row, to.col) in st2.validMoves;
    MoveToUnique(b, row, col, Move.Simple(to), st2.validMoves[Pos(to.row, to.col)]);
    ClickKeepsConsistent(st1, row, col);
    AttemptOutcome(st2, to.row, to.col);
    var from := st.selected.value;
    ForcedMember(b, st.turn, from);
    ForcedMeansSideCanCapture(b, st.turn);
    MovesCharacterized(b, row, col, Move.Simple(to));
    PlayRefusal(Game(b, st.turn, None), row, col, to.row, to.col);
  }

  /** Every click keeps the offered moves those of the selected piece. */
  lemma ClickKeepsConsistent(st: Canvas, row: int, col: int)
    requires Consistent(st)
    ensures Consistent(Click(st, row, col))
  {
    if st.winner.None? && Inside(row, col) {
      if st.selected.Some? {
        if Pos(row, col) in st.validMoves {
          AttemptOutcome(st, row, col);
        }
      } else {
        SelectPieceKeepsConsistent(st, row, col);
      }
    }
  }

  /** The loop of `getValidMoves` over the step directions, filing each empty neighbour under itself. */
  method StepMap(b: Board, row: int, col: int, dirs: seq<Dir>) returns (moves: map<Pos, Move>)
    requires WellFormed(b)
    ensures moves == AsMap(SimpleAlong(b, row, col, dirs))
  {
    moves := map[];
    var i := 0;
    while i < |dirs|
      invariant 0 <= i <= |dirs|
      invariant moves == AsMap(SimpleAlong(b, row, col, dirs[..i]))
    {
      var d := dirs[i];
      var r, c := row + d.dr, col + d.dc;
      SimpleAlongNext(b, row, col, dirs, i);
      ghost var found := SimpleAlong(b, row, col, dirs[..i]);
      if 0 <= r < Size && 0 <= c < Size && b[r][c].None? {
        assert CanStep(b, row, col, d) && StepTo(row, col, d) == Simple(Pos(r, c));
        AsMapSnoc(found, Simple(Pos(r, c)));
        moves := moves[Pos(r, c) := Simple(Pos(r, c))];
        assert SimpleAlong(b, row, col, dirs[..i + 1]) == found + [Simple(Pos(r, c))];
        assert moves == AsMap(found + [Simple(Pos(r, c))]);
      } else {
        assert !CanStep(b, row, col, d);
        assert SimpleAlong(b, row, col, dirs[..i + 1]) == found;
      }
      i := i + 1;
    }
    assert dirs[..i] == dirs;
  }

  /** The loop of `getValidMoves` over the capture directions, filing each jump under its landing square. */
  method JumpMap(b: Board, row: int, col: int, color: Color, dirs: seq<Dir>) returns (moves: map<Pos, Move>)
    requires WellFormed(b)
    ensures moves == AsMap(JumpsAlong(b, row, col, color, dirs))
  {
    moves := map[];
    var i := 0;
    while i < |dirs|
      invariant 0 <= i <= |dirs|
      invariant moves == AsMap(JumpsAlong(b, row, col, color, dirs[..i]))
    {
      var d := dirs[i];
      var r, c := row + d.dr, col + d.dc;
      var jumpR, jumpC := r + d.dr, c + d.dc;
      JumpsAlongNext(b, row, col, color, dirs, i);
      ghost var found := JumpsAlong(b, row, col, color, dirs[..i]);
      if !(0 <= r < Size && 0 <= c < Size && 0 <= jumpR < Size && 0 <= jumpC < Size) {
        assert !CanJump(b, row, col, color, d);
        assert JumpsAlong(b, row, col, color, dirs[..i + 1]) == found;
        i := i + 1;
        continue;
      }
      var target := b[r][c];
      if target.Some? && target.value.color != color && b[jumpR][jumpC].None? {
        assert CanJump(b, row, col, color, d) && JumpTo(row, col, d) == Capture(Pos(jumpR, jumpC), Pos(r, c));
        AsMapSnoc(found, Capture(Pos(jumpR, jumpC), Pos(r, c)));
        moves := moves[Pos(jumpR, jumpC) := Capture(Pos(jumpR, jumpC), Pos(r, c))];
        assert JumpsAlong(b, row, col, color, dirs[..i + 1]) == found + [Capture(Pos(jumpR, jumpC), Pos(r, c))];
        assert moves == AsMap(found + [Capture(Pos(jumpR, jumpC), Pos(r, c))]);
      } else {
        assert !CanJump(b, row, col, color, d);
        assert JumpsAlong(b, row, col, color, dirs[..i + 1]) == found;
      }
      i := i + 1;
    }
    assert dirs[..i] == dirs;
  }

  class CanvasGame {
    var board: Board
    var turn: Color
    var selected: Option<Pos>
    var validMoves: map<Pos, Move>
    var forcedPieces: seq<Pos>
    var winner: Option<Color>

    function State(): Canvas
      reads this
    {
      Canvas(board, turn, selected, validMoves, forcedPieces, winner)
    }

    ghost predicate Valid()
      reads this
    {
      Consistent(State())
    }

    /** The script starts with `restartGame()`. */
    constructor()
      ensures Valid() && State() == Restarted()
    {
      board := EmptyGrid();
      turn := White;
      selected := None;
      validMoves := map[];
      forcedPieces := [];
      winner := None;
      new;
      RestartGame();
    }

    /** `getValidMoves(row, col)` on the current board. */
    method GetValidMoves(row: int, col: int) returns (moves: map<Pos, Move>)
      requires WellFormed(board) && Inside(row, col)
      ensures moves == MoveMap(board, row, col)
    {
      var piece := board[row][col];
      if piece.None? {
        return map[];
      }
      var p := piece.value;
      var simpleDirs;
      if p.king {
        simpleDirs := [Dir(-1, -1), Dir(-1, 1), Dir(1, -1), Dir(1, 1)];
      } else if p.color == White {
        simpleDirs := [Dir(-1, -1), Dir(-1, 1)];
      } else {
        simpleDirs := [Dir(1, -1), Dir(1, 1)];
      }
      assert simpleDirs == StepDirs(p);
      var captureDirs := [Dir(-1, -1), Dir(-1, 1), Dir(1, -1), Dir(1, 1)];
      assert captureDirs == Diagonals;

      var simpleMoves := StepMap(board, row, col, simpleDirs);
      var captureMoves := JumpMap(board, row, col, p.color, captureDirs);
      AsMapEmpty(JumpsAlong(board, row, col, p.color, Diagonals));
      moves := if |captureMoves| != 0 then captureMoves else simpleMoves;
    }

    /** `getForcedCaptures(color)`: row by row, the squares of `color` pieces with a capture on offer. */
    method GetForcedCaptures(color: Color) returns (forced: seq<Pos>)
      requires WellFormed(board)
      ensures forced == Forced(board, color)
    {
      forced := [];
      var row := 0;
      while row < Size
        invariant 0 <= row <= Size
        invariant forced == ForcedBefore(board, color, row, Size)
      {
        var col := 0;
        while col < Size
          invariant 0 <= col <= Size
          invariant forced == ForcedBefore(board, color, row, Size) + ForcedInRow(board, color, row, col)
        {
          var piece := board[row][col];
          if piece.Some? && piece.value.color == color {
            var moves := GetValidMoves(row, col);
            MoveMapMeaning(board, row, col);
            var hasCapture := exists k | k in moves :: moves[k].Capture?;
            if hasCapture {
              forced := forced + [Pos(row, col)];
            }
          }
          col := col + 1;
        }
        row := row + 1;
      }
    }

    /** `hasAnyMoves(color)`: some `color` piece has a non-empty move map. */
    method HasAnyMoves(color: Color) returns (any: bool)
      requires WellFormed(board)
      ensures any == AnyMoves(board, color)
    {
      var row := 0;
      while row < Size
        invariant 0 <= row <= Size
        invariant forall r, c :: 0 <= r < row && 0 <= c < Size ==> !Movable(board, color, r, c)
      {
        var col := 0;
        while col < Size
          invariant 0 <= col <= Size
          invariant forall r, c :: 0 <= r < row && 0 <= c < Size ==> !Movable(board, color, r, c)
          invariant forall c :: 0 <= c < col ==> !Movable(board, color, row, c)
        {
          var piece := board[row][col];
          MovableByMoves(board, color, row, col);
          if piece.Some? && piece.value.color == color {
            var moves := GetValidMoves(row, col);
            AsMapEmpty(Moves(board, row, col));
            if |moves| != 0 {
              AnyMovesMeaning(board, color);
              return true;
            }
          }
          col := col + 1;
        }
        row := row + 1;
      }
      AnyMovesMeaning(board, color);
      return false;
    }

    /** `getWinner`, with `countPieces` counting as in the Python engine. */
    method GetWinner() returns (w: Option<Color>)
      requires WellFormed(board)
      ensures w == Winner(board)
    {
      var whites, blacks := CountBoard(board);
      if whites == 0 && blacks == 0 {
        return None;
      }
      if whites == 0 {
        return Some(Black);
      }
      if blacks == 0 {
        return Some(White);
      }
      var whiteMoves := HasAnyMoves(White);
      if !whiteMoves {
        return Some(Black);
      }
      var blackMoves := HasAnyMoves(Black);
      if !blackMoves {
        return Some(White);
      }
      return None;
    }

    /**
     * `movePiece`: the piece goes to (toRow, toCol) and leaves its square,
     * and is crowned on its far row; the result says whether it was crowned
     * by this move.
     */
    method MovePiece(fromRow: int, fromCol: int, toRow: int, toCol: int) returns (promoted: bool)
      requires WellFormed(board) && Inside(fromRow, fromCol) && Inside(toRow, toCol)
      requires board[fromRow][fromCol].Some?
      modifies this
      ensures var p := old(board)[fromRow][fromCol].value;
        && board == Put(Put(old(board), toRow, toCol, Some(Crowned(p, toRow))), fromRow, fromCol, None)
        && promoted == (!p.king && CrownRow(p.color, toRow))
      ensures turn == old(turn) && selected == old(selected) && validMoves == old(validMoves)
      ensures forcedPieces == old(forcedPieces) && winner == old(winner)
    {
      var piece := board[fromRow][fromCol].value;
      var wasKing := piece.king;
      // The cell on (toRow, toCol) holds the very piece object that is
      // crowned below, so it is written with the piece as it ends up.
      if !piece.king {
        if piece.color == White && toRow == 0 {
          piece := piece.(king := true);
        } else if piece.color == Black && toRow == Size - 1 {
          piece := piece.(king := true);
        }
      }
      board := Put(board, toRow, toCol, Some(piece));
      board := Put(board, fromRow, fromCol, None);
      promoted := !wasKing && piece.king;
    }

    /** `resetSelection`. */
    method ResetSelection()
      modifies this
      ensures State() == old(State()).(selected := None, validMoves := map[])
    {
      selected := None;
      validMoves := map[];
    }

    /** `finalizeTurn`: the other side moves and its forced pieces are listed. */
    method FinalizeTurn()
      requires WellFormed(board)
      modifies this
      ensures State() == old(State()).(turn := Opponent(old(turn)), forcedPieces := Forced(board, Opponent(old(turn))))
    {
      turn := if turn == White then Black else White;
      forcedPieces := GetForcedCaptures(turn);
    }

    /** `attemptMove(targetRow, targetCol)`, as `Attempt` describes. */
    method AttemptMove(targetRow: int, targetCol: int)
      requires Valid() && selected.Some?
      modifies this
      ensures Valid()
      ensures State() == Attempt(old(State()), targetRow, targetCol)
    {
      ghost var st := State();
      var key := Pos(targetRow, targetCol);
      if key !in validMoves {
        ResetSelection();
        return;
      }
      var move := validMoves[key];
      var from := selected.value;
      ghost var p := board[from.row][from.col].value;
      MoveSquares(board, from.row, from.col, move);
      var promotedNow := MovePiece(from.row, from.col, move.dest.row, move.dest.col);
      if move.Capture? {
        board := Put(board, move.jumped.row, move.jumped.col, None);
      }
      GridsEqual(board, Landed(st.board, from.row, from.col, Crowned(p, move.dest.row), move));
      AttemptOutcome(st, targetRow, targetCol);
      FollowUp(move, promotedNow);
    }

    /** The rest of `attemptMove` after the piece has landed by m. */
    method FollowUp(move: Move, promotedNow: bool)
      requires WellFormed(board) && Inside(move.dest.row, move.dest.col)
      modifies this
      ensures State() == AfterLanding(old(State()), move, promotedNow)
    {
      var newRow, newCol := move.dest.row, move.dest.col;
      if move.Capture? && !promotedNow {
        var nextMoves := GetValidMoves(newRow, newCol);
        var captureOnly := CaptureEntries(nextMoves);
        if |captureOnly| != 0 {
          selected := Some(Pos(newRow, newCol));
          validMoves := captureOnly;
          forcedPieces := [];
          return;
        }
      }

      ResetSelection();
      FinalizeTurn();
      var matchWinner := GetWinner();
      if matchWinner.Some? {
        winner := matchWinner;
      }
    }

    /** `selectPiece(row, col)`, as `SelectPieceOn` describes. */
    method SelectPiece(row: int, col: int)
      requires Valid() && Inside(row, col)
      modifies this
      ensures Valid()
      ensures State() == SelectPieceOn(old(State()), row, col)
    {
      SelectPieceKeepsConsistent(State(), row, col);
      var piece := board[row][col];
      if piece.None? || piece.value.color != turn || winner.Some? {
        return;
      }
      var forced := forcedPieces;
      if |forced| != 0 && Pos(row, col) !in forced {
        return;
      }
      var moves := GetValidMoves(row, col);
      if |moves| == 0 {
        return;
      }
      if |forced| != 0 {
        validMoves := CaptureEntries(moves);
      } else {
        validMoves := moves;
      }
      selected := Some(Pos(row, col));
    }

    /** `handleClick` on the board square (row, col). */
    method HandleClick(row: int, col: int)
      requires Valid()
      modifies this
      ensures Valid()
      ensures State() == Click(old(State()), row, col)
    {
      if winner.Some? {
        return;
      }
      if row < 0 || row >= Size || col < 0 || col >= Size {
        return;
      }
      if selected.Some? {
        AttemptMove(row, col);
      } else {
        SelectPiece(row, col);
      }
    }

    /** `restartGame`: a fresh board, white to move, its forced list, nothing selected, no winner. */
    method RestartGame()
      modifies this
      ensures Valid() && State() == Restarted()
    {
      board := CreateInitialBoard();
      turn := White;
      winner := None;
      forcedPieces := GetForcedCaptures(turn);
      ResetSelection();
    }
  }
}
