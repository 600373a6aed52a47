/**
 * The Phaser version of checkers, games/damas/web_build/main.js. The scene's
 * fields become the fields of `GameScene`; each click handler is a method
 * proved to produce the scene the pure function of the same name describes.
 *
 * It plays by the same single-ply rules as the Python engine, but scans the
 * diagonals in another order, locks the capturing piece for the rest of a
 * chain (`mustContinueCapture`, `lockedPiece`), and after a move looks only
 * at the opponent to decide the game: when the opponent has no piece or no
 * move, the side that just moved has won and keeps the turn.
 */
module DamasPhaser {
  import opened Common
  import opened CheckersRules
  import opened DamasLogic

  /** The fields of `GameScene` that the rules use (sprites, tiles and timers left aside). */
  datatype Scene = Scene(boardData: Board, currentPlayer: Color, selected: Option<Pos>,
                         possibleMoves: seq<Move>, mustContinueCapture: bool,
                         lockedPiece: Option<Pos>, gameOver: bool)

  /** `allDirs`, the order in which `scanMoves` tries captures (and king steps). */
  const AllDirs: seq<Dir> := [Dir(1, 1), Dir(1, -1), Dir(-1, 1), Dir(-1, -1)]

  /** `moveDirs`: every diagonal for a king, the two forward ones for a man. */
  function MoveDirs(p: Piece): (ds: seq<Dir>)
    ensures forall d :: d in ds <==> d in StepDirs(p)
  {
    if p.king then AllDirs
    else if p.color == White then [Dir(-1, 1), Dir(-1, -1)]
    else [Dir(1, 1), Dir(1, -1)]
  }

  /** The `moves` list of `scanMoves` for piece p on (r, c). */
  function StepScan(b: Board, r: int, c: int, p: Piece): seq<Move> {
    SimpleAlong(b, r, c, MoveDirs(p))
  }

  /** The `captures` list of `scanMoves` for a `color` piece on (r, c). */
  function CaptureScan(b: Board, r: int, c: int, color: Color): seq<Move> {
    JumpsAlong(b, r, c, color, AllDirs)
  }

  /** `getValidMoves(row, col, piece, captureOnly)`. */
  function ValidFor(b: Board, r: int, c: int, p: Piece, captureOnly: bool): seq<Move> {
    var captures := CaptureScan(b, r, c, p.color);
    if captureOnly then captures
    else if captures != [] then captures
    else StepScan(b, r, c, p)
  }

  /**
   * The scans find the moves of the shared rules: with captures allowed
   * freely, exactly the piece's legal moves; with captures only, exactly its
   * jumps; and there are captures exactly when the piece can capture.
   */
  lemma ValidForMeaning(b: Board, r: int, c: int, m: Move)
    requires At(b, r, c).Some?
    ensures var p := At(b, r, c).value;
      && (m in ValidFor(b, r, c, p, false) <==> m in Moves(b, r, c))
      && (m in ValidFor(b, r, c, p, true) <==> JumpOf(b, r, c, p.color, m))
      && (CaptureScan(b, r, c, p.color) != [] <==> CanCapture(b, r, c, p.color))
  {
    var p := At(b, r, c).value;
    assert forall d :: d in AllDirs <==> d in Diagonals;
    JumpsOfDiagonals(b, r, c, p.color, AllDirs, m);
    JumpsNonEmpty(b, r, c, p.color, AllDirs);
    JumpsNonEmpty(b, r, c, p.color, Diagonals);
    SimpleOfPiece(b, r, c, p, MoveDirs(p), m);
    MovesCharacterized(b, r, c, m);
  }

  /**
   * `getValidMoves` offers something exactly when the piece can capture
   * (captures only) or has a legal move (otherwise).
   */
  lemma ValidForOffers(b: Board, r: int, c: int, captureOnly: bool)
    requires At(b, r, c).Some?
    ensures var p := At(b, r, c).value;
      ValidFor(b, r, c, p, captureOnly) != []
      <==> if captureOnly then CanCapture(b, r, c, p.color) else Moves(b, r, c) != []
  {
    var p := At(b, r, c).value;
    var vs := ValidFor(b, r, c, p, captureOnly);
    ValidForMeaning(b, r, c, Move.Simple(Pos(r, c)));
    if !captureOnly {
      if Moves(b, r, c) != [] {
        ValidForMeaning(b, r, c, Moves(b, r, c)[0]);
      }
      if vs != [] {
        ValidForMeaning(b, r, c, vs[0]);
      }
    }
  }

  /** The step scans of a piece in two orders of the same directions find a step together. */
  lemma StepsAnyOrder(b: Board, r: int, c: int, p: Piece, dirs: seq<Dir>)
    requires forall d :: d in dirs <==> d in StepDirs(p)
    ensures SimpleAlong(b, r, c, dirs) != [] <==> HasStep(b, r, c, p)
  {
    var ours, theirs := SimpleAlong(b, r, c, dirs), SimpleAlong(b, r, c, StepDirs(p));
    if ours != [] {
      SimpleAlongMember(b, r, c, dirs, ours[0]);
      SimpleAlongMember(b, r, c, StepDirs(p), ours[0]);
    }
    if theirs != [] {
      SimpleAlongMember(b, r, c, dirs, theirs[0]);
      SimpleAlongMember(b, r, c, StepDirs(p), theirs[0]);
    }
    StepsNonEmpty(b, r, c, p);
  }

  /** The test of `playerHasAnyMoves` on one square: either scan finds something. */
  lemma ScanMovable(b: Board, color: Color, r: int, c: int)
    ensures Movable(b, color, r, c)
        <==> Owns(b, color, r, c)
             && (StepScan(b, r, c, At(b, r, c).value) != [] || CaptureScan(b, r, c, color) != [])
  {
    if Owns(b, color, r, c) {
      var p := At(b, r, c).value;
      assert forall d :: d in AllDirs <==> d in Diagonals;
      JumpsNonEmpty(b, r, c, color, AllDirs);
      StepsAnyOrder(b, r, c, p, MoveDirs(p));
    }
  }

  /** The test of `playerHasCapture` on one square: the capture scan finds something. */
  lemma ScanForced(b: Board, color: Color, r: int, c: int)
    ensures IsForced(b, color, r, c) <==> Owns(b, color, r, c) && CaptureScan(b, r, c, color) != []
  {
    assert forall d :: d in AllDirs <==> d in Diagonals;
    JumpsNonEmpty(b, r, c, color, AllDirs);
  }

  /** `setupState`: an empty board, white to move, nothing selected or locked, the game on. */
  function Fresh(): Scene {
    Scene(EmptyGrid(), White, None, [], false, None, false)
  }

  /** The scene once `create` has placed the pieces. */
  function Initial(): Scene {
    Fresh().(boardData := InitialBoard())
  }

  /**
   * `selectPiece(row, col)`: when captures are mandatory (inside a chain, or
   * when the side to move has one anywhere) only the piece's captures are
   * offered; a piece with nothing to offer is refused and the scene is kept.
   */
  function SelectPieceOn(st: Scene, row: int, col: int): Scene {
    match At(st.boardData, row, col)
    case None => st
    case Some(p) =>
      var mustCapture := st.mustContinueCapture || Forced(st.boardData, st.currentPlayer) != [];
      var moves := ValidFor(st.boardData, row, col, p, mustCapture);
      if |moves| == 0 then st
      else st.(selected := Some(Pos(row, col)), possibleMoves := moves)
  }

  /**
   * `endTurn`: when the opponent has no piece or no move, the game is over
   * and the side that moved keeps `currentPlayer`; otherwise the opponent
   * moves.
   */
  function EndTurnOn(st: Scene): Scene {
    var opponent := Opponent(st.currentPlayer);
    if Count(st.boardData, opponent) == 0 || !AnyMoves(st.boardData, opponent) then st.(gameOver := true)
    else st.(currentPlayer := opponent)
  }

  /**
   * `executeMove(from, m)`: the piece leaves its square, the jumped piece is
   * removed, the piece lands on the target and is crowned on its far row.
   * A capture that did not crown and leaves another capture locks the piece
   * and selects it again; otherwise the lock and the selection are cleared
   * and the turn ends.
   */
  function ExecuteOn(st: Scene, from: Pos, m: Move): Scene
    requires WellFormed(st.boardData) && m in Moves(st.boardData, from.row, from.col)
  {
    MoveSquares(st.boardData, from.row, from.col, m);
    var p := At(st.boardData, from.row, from.col).value;
    ConcludeOn(st.(boardData := AfterMove(st.boardData, from, m)), m, !p.king && CrownRow(p.color, m.dest.row), p.color)
  }

  /**
   * The end of `executeMove`, once a `color` piece has landed by m on the
   * board of st: a capture that did not crown and leaves another capture
   * locks the piece and selects it again; otherwise the lock and the
   * selection are cleared and the turn ends.
   */
  function ConcludeOn(st: Scene, m: Move, promoted: bool, color: Color): Scene
    requires WellFormed(st.boardData)
  {
    if m.Capture? && !promoted && CaptureScan(st.boardData, m.dest.row, m.dest.col, color) != [] then
      SelectPieceOn(st.(mustContinueCapture := true, lockedPiece := Some(m.dest)), m.dest.row, m.dest.col)
    else
      EndTurnOn(st.(mustContinueCapture := false, lockedPiece := None, selected := None))
  }

  /** The board after the piece on `from` has played its move m, crowned if it reached its far row. */
  function AfterMove(b: Board, from: Pos, m: Move): (b': Board)
    requires WellFormed(b) && m in Moves(b, from.row, from.col)
    ensures WellFormed(b')
    ensures forall x, y :: At(b', x, y)
                           == if Pos(x, y) == m.dest then Some(Crowned(At(b, from.row, from.col).value, m.dest.row))
                              else if Pos(x, y) == from || (m.Capture? && Pos(x, y) == m.jumped) then None
                              else At(b, x, y)
  {
    MoveSquares(b, from.row, from.col, m);
    Landed(b, from.row, from.col, Crowned(At(b, from.row, from.col).value, m.dest.row), m)
  }

  /**
   * The state the scene keeps between clicks: a chain holds exactly when a
   * piece is locked, and the locked piece is the selection, offered its
   * captures; a selection is a piece of the side to move, offered legal
   * moves only, and captures only when that side has one; a finished game
   * has no selection and no chain.
   */
  ghost predicate Consistent(st: Scene) {
    && WellFormed(st.boardData)
    && (st.mustContinueCapture <==> st.lockedPiece.Some?)
    && (st.mustContinueCapture ==>
          && st.selected == st.lockedPiece
          && st.possibleMoves == CaptureScan(st.boardData, st.lockedPiece.value.row, st.lockedPiece.value.col, st.currentPlayer))
    && (st.gameOver ==> st.selected.None? && !st.mustContinueCapture)
    && (st.selected.Some? ==>
          var s := st.selected.value;
          && Owns(st.boardData, st.currentPlayer, s.row, s.col)
          && (forall i :: 0 <= i < |st.possibleMoves| ==> st.possibleMoves[i] in Moves(st.boardData, s.row, s.col))
          && (Forced(st.boardData, st.currentPlayer) != [] ==>
                forall i :: 0 <= i < |st.possibleMoves| ==> st.possibleMoves[i].Capture?))
  }

  /**
   * `handleTileClick(row, col)`: nothing once the game is over. A piece of
   * the side to move is selected (inside a chain only the locked piece;
   * clicking the selected piece again outside a chain deselects it). Any
   * other square plays the offered move ending there, if there is one.
   */
  function TileClickOn(st: Scene, row: int, col: int): Scene
    requires Consistent(st)
  {
    if st.gameOver then st
    else if Owns(st.boardData, st.currentPlayer, row, col) then
      if st.mustContinueCapture && st.lockedPiece != Some(Pos(row, col)) then st
      else if st.selected == Some(Pos(row, col)) && !st.mustContinueCapture then
        st.(selected := None, possibleMoves := [])
      else SelectPieceOn(st, row, col)
    else if st.selected.None? then st
    else match FirstTo(st.possibleMoves, Pos(row, col))
      case None => st
      case Some(m) =>
        FirstToFound(st.possibleMoves, Pos(row, col));
        ExecuteOn(st, st.selected.value, m)
  }

  lemma InitialConsistent()
    ensures Consistent(Initial())
  {
  }

  /**
   * Selecting a piece of the side to move keeps the scene consistent.
   * Captures are mandatory inside a chain or when the side has one
   * anywhere; the piece is selected exactly when it then has something to
   * offer (a capture when they are mandatory, any legal move otherwise),
   * and is offered its captures or its legal moves accordingly. A piece
   * with nothing to offer is refused and the scene is kept.
   */
  lemma SelectKeepsConsistent(st: Scene, row: int, col: int)
    requires Consistent(st) && !st.gameOver && Owns(st.boardData, st.currentPlayer, row, col)
    requires st.mustContinueCapture ==> st.lockedPiece == Some(Pos(row, col))
    ensures var st' := SelectPieceOn(st, row, col);
      var mustCapture := st.mustContinueCapture || SideCanCapture(st.boardData, st.currentPlayer);
      var offers := (if mustCapture then CanCapture(st.boardData, row, col, st.currentPlayer)
                     else Moves(st.boardData, row, col) != []);
      && Consistent(st')
      && st'.boardData == st.boardData && st'.currentPlayer == st.currentPlayer
      && st'.mustContinueCapture == st.mustContinueCapture && st'.lockedPiece == st.lockedPiece
      && (!offers ==> st' == st)
      && (offers ==>
            && st'.selected == Some(Pos(row, col))
            && forall m :: m in st'.possibleMoves
                 <==> if mustCapture then JumpOf(st.boardData, row, col, st.currentPlayer, m)
                      else m in Moves(st.boardData, row, col))
  {
    var b := st.boardData;
    var p := At(b, row, col).value;
    var mustCapture := st.mustContinueCapture || Forced(b, st.currentPlayer) != [];
    var moves := ValidFor(b, row, col, p, mustCapture);
    forall m
      ensures m in moves <==> if mustCapture then JumpOf(b, row, col, p.color, m) else m in Moves(b, row, col)
      ensures m in moves ==> m in Moves(b, row, col)
      ensures mustCapture && m in moves ==> m.Capture?
    {
      ValidForMeaning(b, row, col, m);
      MovesCharacterized(b, row, col, m);
      if Forced(b, st.currentPlayer) != [] && !st.mustContinueCapture {
        ForcedMeansSideCanCapture(b, st.currentPlayer);
      }
    }
    ForcedMeansSideCanCapture(b, st.currentPlayer);
    ValidForOffers(b, row, col, mustCapture);
  }

  /**
   * The end of a turn: the game is declared over exactly when the opponent
   * has no piece or no piece that can move; the turn passes exactly when it
   * is not.
   */
  lemma EndTurnMeaning(st: Scene)
    ensures var st' := EndTurnOn(st); var opponent := Opponent(st.currentPlayer);
      && st'.boardData == st.boardData && st'.selected == st.selected
      && (st'.gameOver <==> st.gameOver || !HasPiece(st.boardData, opponent) || !SomeMovable(st.boardData, opponent))
      && (st'.currentPlayer == (if !HasPiece(st.boardData, opponent) || !SomeMovable(st.boardData, opponent)
                                then st.currentPlayer else opponent))
  {
    CountZero(st.boardData, Opponent(st.currentPlayer));
    AnyMovesMeaning(st.boardData, Opponent(st.currentPlayer));
  }

  /**
   * The Phaser end-of-game test against the winner rule of the Python
   * engine: a side that is declared the winner while it can still move is
   * the winner there too, and a side not declared the winner is not the
   * winner there (although the Python rule may name its opponent).
   */
  lemma EndTurnVersusWinner(st: Scene)
    requires HasPiece(st.boardData, st.currentPlayer)
    ensures var st' := EndTurnOn(st); var b := st.boardData;
      && ((st'.currentPlayer == st.currentPlayer && SomeMovable(b, st.currentPlayer))
            ==> Winner(b) == Some(st.currentPlayer))
      && (st'.currentPlayer != st.currentPlayer ==> Winner(b) != Some(st.currentPlayer))
  {
    EndTurnMeaning(st);
    WinnerMeaning(st.boardData);
  }

  /**
   * Playing an offered move: the board is that of the shared rules, and the
   * chain goes on exactly when the move captured without crowning and the
   * piece can capture again; the piece is then locked, selected and offered
   * exactly its jumps, and the side keeps the turn. Otherwise the lock and
   * selection are cleared and the turn ends as `EndTurnOn` says.
   */
  lemma ExecuteOutcome(st: Scene, m: Move)
    requires Consistent(st) && !st.gameOver && st.selected.Some?
    requires m in st.possibleMoves
    ensures var s := st.selected.value;
      var p := At(st.boardData, s.row, s.col).value;
      var q := Crowned(p, m.dest.row);
      var cont := m.Capture? && !(!p.king && q.king);
      m in Moves(st.boardData, s.row, s.col) &&
      var b' := AfterMove(st.boardData, s, m);
      var st' := ExecuteOn(st, s, m);
      && Consistent(st')
      && st'.boardData == b'
      && (st'.mustContinueCapture <==> cont && CanCapture(b', m.dest.row, m.dest.col, st.currentPlayer))
      && (st'.mustContinueCapture ==>
            && st'.lockedPiece == Some(m.dest) && st'.selected == Some(m.dest)
            && st'.currentPlayer == st.currentPlayer && !st'.gameOver
            && forall x :: x in st'.possibleMoves <==> JumpOf(b', m.dest.row, m.dest.col, st.currentPlayer, x))
      && (!st'.mustContinueCapture ==>
            st' == EndTurnOn(st.(boardData := b', mustContinueCapture := false, lockedPiece := None, selected := None)))
  {
    var s := st.selected.value;
    var b := st.boardData;
    var color := st.currentPlayer;
    MoveSquares(b, s.row, s.col, m);
    var p := At(b, s.row, s.col).value;
    var q := Crowned(p, m.dest.row);
    var b' := AfterMove(b, s, m);
    var to := m.dest;
    assert At(b', to.row, to.col) == Some(q);
    LockedCaptures(b', to.row, to.col, color);
    if m.Capture? && !(!p.king && q.king) && CaptureScan(b', to.row, to.col, color) != [] {
      var st' := st.(boardData := b', mustContinueCapture := true, lockedPiece := Some(to),
                     selected := Some(to), possibleMoves := CaptureScan(b', to.row, to.col, color));
      assert ExecuteOn(st, s, m) == st';
    } else {
      var st' := EndTurnOn(st.(boardData := b', mustContinueCapture := false, lockedPiece := None, selected := None));
      assert ExecuteOn(st, s, m) == st';
    }
  }

  /**
   * The captures a `color` piece on (r, c) finds: some exactly when it can
   * capture, exactly its jumps, and each one of its moves.
   */
  lemma LockedCaptures(b: Board, r: int, c: int, color: Color)
    requires Owns(b, color, r, c)
    ensures var cs := CaptureScan(b, r, c, color);
      && (cs != [] <==> CanCapture(b, r, c, color))
      && (forall x :: x in cs <==> JumpOf(b, r, c, color, x))
      && (forall i :: 0 <= i < |cs| ==> cs[i] in Moves(b, r, c) && cs[i].Capture?)
  {
    var cs := CaptureScan(b, r, c, color);
    forall x
      ensures x in cs <==> JumpOf(b, r, c, color, x)
    {
      ValidForMeaning(b, r, c, x);
    }
    forall i | 0 <= i < |cs|
      ensures cs[i] in Moves(b, r, c) && cs[i].Capture?
    {
      ValidForMeaning(b, r, c, cs[i]);
      MovesCharacterized(b, r, c, cs[i]);
    }
    ValidForMeaning(b, r, c, Simple(Pos(r, c)));
  }

  /**
   * A click on the target of an offered move plays that move (offered
   * moves are the selected piece's, and no two of them share a target).
   */
  lemma ClickPlaysOffered(st: Scene, m: Move)
    requires Consistent(st) && !st.gameOver && st.selected.Some? && m in st.possibleMoves
    ensures m in Moves(st.boardData, st.selected.value.row, st.selected.value.col)
    ensures TileClickOn(st, m.dest.row, m.dest.col) == ExecuteOn(st, st.selected.value, m)
  {
    var s := st.selected.value;
    MoveSquares(st.boardData, s.row, s.col, m);
    FirstToFound(st.possibleMoves, m.dest);
    MoveToUnique(st.boardData, s.row, s.col, m, FirstTo(st.possibleMoves, m.dest).value);
  }

  /**
   * Inside a chain only the locked piece moves: a click either leaves the
   * scene as it is or plays one of the locked piece's captures, the one
   * landing on the clicked square.
   */
  lemma ChainLocksPiece(st: Scene, row: int, col: int)
    requires Consistent(st) && st.mustContinueCapture
    ensures var st' := TileClickOn(st, row, col);
      || st' == st
      || exists m :: && m in st.possibleMoves && m.Capture? && m.dest == Pos(row, col)
                     && st' == ExecuteOn(st, st.lockedPiece.value, m)
  {
    var lock := st.lockedPiece.value;
    FirstToFound(st.possibleMoves, Pos(row, col));
    if !Owns(st.boardData, st.currentPlayer, row, col) && FirstTo(st.possibleMoves, Pos(row, col)).Some? {
      var m := FirstTo(st.possibleMoves, Pos(row, col)).value;
      ValidForMeaning(st.boardData, lock.row, lock.col, m);
      assert TileClickOn(st, row, col) == ExecuteOn(st, lock, m);
    }
  }

  /** Every click keeps the scene consistent. */
  lemma ClickKeepsConsistent(st: Scene, row: int, col: int)
    requires Consistent(st)
    ensures Consistent(TileClickOn(st, row, col))
  {
    if !st.gameOver {
      if Owns(st.boardData, st.currentPlayer, row, col) {
        if !(st.mustContinueCapture && st.lockedPiece != Some(Pos(row, col)))
           && !(st.selected == Some(Pos(row, col)) && !st.mustContinueCapture) {
          SelectKeepsConsistent(st, row, col);
        }
      } else if st.selected.Some? {
        FirstToFound(st.possibleMoves, Pos(row, col));
        if FirstTo(st.possibleMoves, Pos(row, col)).Some? {
          ExecuteOutcome(st, FirstTo(st.possibleMoves, Pos(row, col)).value);
        }
      }
    }
  }

  /**
   * The Phaser version agrees with the Python engine: a click that plays an
   * offered move makes a move `move` accepts, leaves the same board, and
   * goes on with a chain exactly when `move` reports an extra capture; if
   * the game goes on the same side moves next in both.
   */
  lemma ExecuteAgreesWithPlay(st: Scene, m: Move)
    requires Consistent(st) && !st.gameOver && st.selected.Some? && m in st.possibleMoves
    ensures var s := st.selected.value;
      var (g', r) := Play(Game(st.boardData, st.currentPlayer, None), s.row, s.col, m.dest.row, m.dest.col);
      m in Moves(st.boardData, s.row, s.col) &&
      var st' := ExecuteOn(st, s, m);
      && r.Moved?
      && st'.boardData == g'.board
      && (st'.mustContinueCapture <==> r.extraCapture)
      && (!st'.gameOver ==> st'.currentPlayer == g'.turn)
  {
    var s := st.selected.value;
    var b := st.boardData;
    var g := Game(b, st.currentPlayer, None);
    var tr, tc := m.dest.row, m.dest.col;
    ExecuteOutcome(st, m);
    PlayRefusal(g, s.row, s.col, tr, tc);
    assert HasMoveTo(b, s.row, s.col, Pos(tr, tc));
    ForcedMeansSideCanCapture(b, st.currentPlayer);
    if SideCanCapture(b, st.currentPlayer) {
      var i :| 0 <= i < |st.possibleMoves| && st.possibleMoves[i] == m;
      MovesAreAllOneKind(b, s.row, s.col);
      assert CanCapture(b, s.row, s.col, st.currentPlayer);
    }
    PlayAccepted(g, s.row, s.col, tr, tc);
    var m' := FirstTo(Moves(b, s.row, s.col), Pos(tr, tc)).value;
    MoveToUnique(b, s.row, s.col, m, m');
    var p := At(b, s.row, s.col).value;
    var q := Crowned(p, tr);
    var b' := AfterMove(b, s, m);
    assert Play(g, s.row, s.col, tr, tc) == Finish(g.turn, b', m, !p.king && q.king);
    FinishReport(g.turn, b', m, !p.king && q.king);
    FinishChain(g.turn, b', m, !p.king && q.king);
  }

  class GameScene {
    var boardData: Board
    var currentPlayer: Color
    var selected: Option<Pos>
    var possibleMoves: seq<Move>
    var mustContinueCapture: bool
    var lockedPiece: Option<Pos>
    var gameOver: bool

    function State(): Scene
      reads this
    {
      Scene(boardData, currentPlayer, selected, possibleMoves, mustContinueCapture, lockedPiece, gameOver)
    }

    ghost predicate Valid()
      reads this
    {
      Consistent(State())
    }

    /** The scene's constructor followed by `create`: `setupState`, then `placeInitialPieces`. */
    constructor()
      ensures Valid() && State() == Initial()
    {
      boardData := EmptyGrid();
      currentPlayer := White;
      selected := None;
      possibleMoves := [];
      mustContinueCapture := false;
      lockedPiece := None;
      gameOver := false;
      new;
      SetupState();
      PlaceInitialPieces();
      InitialConsistent();
    }

    /** `setupState`. */
    method SetupState()
      modifies this
      ensures State() == Fresh()
    {
      boardData := EmptyGrid();
      selected := None;
      possibleMoves := [];
      currentPlayer := White;
      mustContinueCapture := false;
      lockedPiece := None;
      gameOver := false;
    }

    /** `placeInitialPieces`: black men on the dark squares of rows 0-2, white men on rows 5-7. */
    method PlaceInitialPieces()
      requires WellFormed(boardData) && forall r, c :: At(boardData, r, c) == None
      modifies this
      ensures State() == old(State()).(boardData := InitialBoard())
    {
      var row := 0;
      while row < Size
        invariant 0 <= row <= Size
        invariant WellFormed(boardData)
        invariant forall r, c :: Inside(r, c) ==> At(boardData, r, c) == if r < row then StartCell(r, c) else None
        invariant State() == old(State()).(boardData := boardData)
      {
        var col := 0;
        while col < Size
          invariant 0 <= col <= Size
          invariant WellFormed(boardData)
          invariant forall r, c :: Inside(r, c) ==>
            At(boardData, r, c) == if r < row || (r == row && c < col) then StartCell(r, c) else None
          invariant State() == old(State()).(boardData := boardData)
        {
          if (row + col) % 2 == 0 {
            col := col + 1;
            continue;
          }
          if row <= 2 {
            boardData := Put(boardData, row, col, Some(Piece(Black, false)));
          }
          if row >= Size - 3 {
            boardData := Put(boardData, row, col, Some(Piece(White, false)));
          }
          col := col + 1;
        }
        row := row + 1;
      }
      GridsEqual(boardData, InitialBoard());
    }

    /** `scanMoves(row, col, piece)`: the steps and the captures of the piece, each in scan order. */
    method ScanMoves(row: int, col: int, piece: Piece) returns (moves: seq<Move>, captures: seq<Move>)
      requires WellFormed(boardData)
      ensures moves == StepScan(boardData, row, col, piece)
      ensures captures == CaptureScan(boardData, row, col, piece.color)
    {
      var allDirs := [Dir(1, 1), Dir(1, -1), Dir(-1, 1), Dir(-1, -1)];
      var moveDirs := if piece.king then allDirs
                      else if piece.color == White then [Dir(-1, 1), Dir(-1, -1)] else [Dir(1, 1), Dir(1, -1)];
      moves := ScanSteps(boardData, row, col, moveDirs);
      captures := ScanJumps(boardData, row, col, piece.color, allDirs);
    }

    /** `getValidMoves(row, col, piece, captureOnly)`. */
    method GetValidMoves(row: int, col: int, piece: Piece, captureOnly: bool) returns (ms: seq<Move>)
      requires WellFormed(boardData)
      ensures ms == ValidFor(boardData, row, col, piece, captureOnly)
    {
      var moves, captures := ScanMoves(row, col, piece);
      if captureOnly {
        return captures;
      }
      ms := if |captures| != 0 then captures else moves;
    }

    /** `hasCaptureFrom(row, col, piece)`. */
    method HasCaptureFrom(row: int, col: int, piece: Piece) returns (has: bool)
      requires WellFormed(boardData)
      ensures has <==> CaptureScan(boardData, row, col, piece.color) != []
    {
      var _, captures := ScanMoves(row, col, piece);
      has := |captures| > 0;
    }

    /** `playerHasPieces(player)`: some square holds a piece of `player`. */
    method PlayerHasPieces(player: Color) returns (has: bool)
      requires WellFormed(boardData)
      ensures has <==> Count(boardData, player) != 0
    {
      CountZero(boardData, player);
      var row := 0;
      while row < Size
        invariant 0 <= row <= Size
        invariant forall r, c :: 0 <= r < row && 0 <= c < Size ==> !Owns(boardData, player, r, c)
      {
        var col := 0;
        while col < Size
          invariant 0 <= col <= Size
          invariant forall r, c :: 0 <= r < row && 0 <= c < Size ==> !Owns(boardData, player, r, c)
          invariant forall c :: 0 <= c < col ==> !Owns(boardData, player, row, c)
        {
          var piece := boardData[row][col];
          if piece.Some? && piece.value.color == player {
            assert Owns(boardData, player, row, col);
            return true;
          }
          col := col + 1;
        }
        row := row + 1;
      }
      return false;
    }

    /** `playerHasAnyMoves(player)`: some piece of `player` has a step or a capture. */
    method PlayerHasAnyMoves(player: Color) returns (any: bool)
      requires WellFormed(boardData)
      ensures any == AnyMoves(boardData, player)
    {
      AnyMovesMeaning(boardData, player);
      var row := 0;
      while row < Size
        invariant 0 <= row <= Size
        invariant forall r, c :: 0 <= r < row && 0 <= c < Size ==> !Movable(boardData, player, r, c)
      {
        var col := 0;
        while col < Size
          invariant 0 <= col <= Size
          invariant forall r, c :: 0 <= r < row && 0 <= c < Size ==> !Movable(boardData, player, r, c)
          invariant forall c :: 0 <= c < col ==> !Movable(boardData, player, row, c)
        {
          var piece := boardData[row][col];
          ScanMovable(boardData, player, row, col);
          if piece.Some? && piece.value.color == player {
            var moves, captures := ScanMoves(row, col, piece.value);
            if |moves| > 0 || |captures| > 0 {
              return true;
            }
          }
          col := col + 1;
        }
        row := row + 1;
      }
      return false;
    }

    /** `playerHasCapture(player)`: some piece of `player` has a capture, that is, some square is forced. */
    method PlayerHasCapture(player: Color) returns (has: bool)
      requires WellFormed(boardData)
      ensures has <==> Forced(boardData, player) != []
    {
      var row := 0;
      while row < Size
        invariant 0 <= row <= Size
        invariant ForcedBefore(boardData, player, row, Size) == []
      {
        var col := 0;
        while col < Size
          invariant 0 <= col <= Size
          invariant ForcedBefore(boardData, player, row, Size) + ForcedInRow(boardData, player, row, col) == []
        {
          var piece := boardData[row][col];
          ScanForced(boardData, player, row, col);
          if piece.Some? && piece.value.color == player {
            var _, captures := ScanMoves(row, col, piece.value);
            if |captures| > 0 {
              ForcedMember(boardData, player, Pos(row, col));
              return true;
            }
          }
          assert ForcedInRow(boardData, player, row, col + 1) == ForcedInRow(boardData, player, row, col);
          col := col + 1;
        }
        row := row + 1;
      }
      return false;
    }

    /** `countPieces(player)`. */
    method CountPieces(player: Color) returns (total: nat)
      requires WellFormed(boardData)
      ensures total == Count(boardData, player)
    {
      total := 0;
      var row := 0;
      while row < Size
        invariant 0 <= row <= Size
        invariant total == CountBefore(boardData, player, row, Size)
      {
        var col := 0;
        while col < Size
          invariant 0 <= col <= Size
          invariant total == CountBefore(boardData, player, row, Size) + CountInRow(boardData, player, row, col)
        {
          var piece := boardData[row][col];
          if piece.Some? && piece.value.color == player {
            total := total + 1;
          }
          col := col + 1;
        }
        row := row + 1;
      }
    }

    /**
     * `maybePromote(piece, row)` for the piece standing on (row, col): a man
     * on its far row is crowned where it stands (the cell holds the very
     * piece object); the result says whether that happened.
     */
    method MaybePromote(row: int, col: int) returns (promoted: bool)
      requires WellFormed(boardData) && Inside(row, col) && boardData[row][col].Some?
      modifies this
      ensures var p := old(boardData)[row][col].value;
        && boardData == Put(old(boardData), row, col, Some(Crowned(p, row)))
        && promoted == (!p.king && CrownRow(p.color, row))
      ensures State() == old(State()).(boardData := boardData)
    {
      var piece := boardData[row][col].value;
      if piece.king {
        boardData := Put(boardData, row, col, Some(piece));
        return false;
      }
      if piece.color == White && row == 0 {
        piece := piece.(king := true);
      } else if piece.color == Black && row == Size - 1 {
        piece := piece.(king := true);
      }
      boardData := Put(boardData, row, col, Some(piece));
      return piece.king;
    }

    /** `clearSelection` (the marker and highlights aside). */
    method ClearSelection()
      modifies this
      ensures State() == old(State()).(selected := None, possibleMoves := [])
    {
      selected := None;
      possibleMoves := [];
    }

    /** `selectPiece(row, col)`, as `SelectPieceOn` describes. */
    method SelectPiece(row: int, col: int)
      requires WellFormed(boardData) && Inside(row, col)
      modifies this
      ensures State() == SelectPieceOn(old(State()), row, col)
    {
      var piece := boardData[row][col];
      if piece.None? {
        return;
      }
      var mustCapture := mustContinueCapture;
      if !mustCapture {
        mustCapture := PlayerHasCapture(currentPlayer);
      }
      var moves := GetValidMoves(row, col, piece.value, mustCapture);
      if mustCapture && |moves| == 0 {
        return;
      }
      if |moves| == 0 {
        return;
      }
      selected := Some(Pos(row, col));
      possibleMoves := moves;
    }

    /** `endTurn`, as `EndTurnOn` describes. */
    method EndTurn()
      requires WellFormed(boardData)
      modifies this
      ensures State() == EndTurnOn(old(State()))
    {
      var opponent := if currentPlayer == White then Black else White;
      var hasPieces := PlayerHasPieces(opponent);
      var hasMoves := PlayerHasAnyMoves(opponent);
      if !hasPieces || !hasMoves {
        gameOver := true;
        return;
      }
      currentPlayer := opponent;
    }

    /** `executeMove(fromRow, fromCol, move)`, as `ExecuteOn` describes. */
    method ExecuteMove(fromRow: int, fromCol: int, move: Move)
      requires WellFormed(boardData) && move in Moves(boardData, fromRow, fromCol)
      modifies this
      ensures State() == ExecuteOn(old(State()), Pos(fromRow, fromCol), move)
    {
      ghost var st := State();
      MoveSquares(boardData, fromRow, fromCol, move);
      ghost var p := boardData[fromRow][fromCol].value;
      Shift(fromRow, fromCol, move);
      var promoted := MaybePromote(move.dest.row, move.dest.col);
      GridsEqual(boardData, AfterMove(st.boardData, Pos(fromRow, fromCol), move));

      Conclude(move, promoted, boardData[move.dest.row][move.dest.col].value);
    }

    /** The rest of `executeMove` once `piece` has landed by `move`. */
    method Conclude(move: Move, promoted: bool, piece: Piece)
      requires WellFormed(boardData) && Inside(move.dest.row, move.dest.col)
      modifies this
      ensures State() == ConcludeOn(old(State()), move, promoted, piece.color)
    {
      var canContinue := false;
      if move.Capture? && !promoted {
        canContinue := HasCaptureFrom(move.dest.row, move.dest.col, piece);
      }
      if canContinue {
        mustContinueCapture := true;
        lockedPiece := Some(move.dest);
        SelectPiece(move.dest.row, move.dest.col);
        return;
      }

      mustContinueCapture := false;
      lockedPiece := None;
      selected := None;
      EndTurn();
    }

    /**
     * The board part of `executeMove` before promotion: the source is
     * emptied, each jumped square that holds a piece is emptied, and the
     * piece is put on the target.
     */
    method Shift(fromRow: int, fromCol: int, move: Move)
      requires WellFormed(boardData) && move in Moves(boardData, fromRow, fromCol)
      requires Inside(fromRow, fromCol) && boardData[fromRow][fromCol].Some?
      requires Inside(move.dest.row, move.dest.col) && move.dest != Pos(fromRow, fromCol)
      requires move.Capture? ==> Inside(move.jumped.row, move.jumped.col) && move.jumped != move.dest
      modifies this
      ensures boardData == Landed(old(boardData), fromRow, fromCol, old(boardData)[fromRow][fromCol].value, move)
      ensures State() == old(State()).(boardData := boardData)
    {
      ghost var b := boardData;
      MoveSquares(boardData, fromRow, fromCol, move);
      var piece := boardData[fromRow][fromCol].value;
      boardData := Put(boardData, fromRow, fromCol, None);
      if move.Capture? && boardData[move.jumped.row][move.jumped.col].Some? {
        boardData := Put(boardData, move.jumped.row, move.jumped.col, None);
      }
      boardData := Put(boardData, move.dest.row, move.dest.col, Some(piece));
      GridsEqual(boardData, Landed(b, fromRow, fromCol, piece, move));
    }

    /** `handleTileClick(row, col)`, as `TileClickOn` describes. */
    method HandleTileClick(row: int, col: int)
      requires Valid() && Inside(row, col)
      modifies this
      ensures Valid()
      ensures State() == TileClickOn(old(State()), row, col)
    {
      ClickKeepsConsistent(State(), row, col);
      if gameOver {
        return;
      }
      var piece := boardData[row][col];
      if piece.Some? && piece.value.color == currentPlayer {
        if mustContinueCapture && (lockedPiece.None? || lockedPiece.value.row != row || lockedPiece.value.col != col) {
          return;
        }
        if selected.Some? && selected.value.row == row && selected.value.col == col && !mustContinueCapture {
          ClearSelection();
          return;
        }
        SelectPiece(row, col);
        return;
      }
      if selected.None? {
        return;
      }
      var move := FindMove(possibleMoves, Pos(row, col));
      if move.Some? {
        FirstToFound(possibleMoves, Pos(row, col));
        ExecuteMove(selected.value.row, selected.value.col, move.value);
      }
    }
  }
}
