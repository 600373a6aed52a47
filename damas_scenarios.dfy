/**
 * The concrete positions of tests/test_damas_logic.py, played through the
 * model of games/damas/logic.py: the forced capture of the white man on
 * (5, 0), the double jump that follows it, and the winner of a board where
 * only one side is left. Each position is given by its cells, so the
 * lemmas hold for every board with those cells.
 */
module DamasScenarios {
  import opened Common
  import opened CheckersRules
  import opened DamasLogic

  const WhiteMan: Piece := Piece(White, false)
  const BlackMan: Piece := Piece(Black, false)

  /** The test position: a white man on (5, 0), black men on (4, 1) and (2, 3). */
  ghost predicate StartCells(b: Board) {
    && WellFormed(b)
    && forall r, c :: At(b, r, c)
                      == if r == 5 && c == 0 then Some(WhiteMan)
                         else if (r == 4 && c == 1) || (r == 2 && c == 3) then Some(BlackMan)
                         else None
  }

  /** After the first jump: the white man on (3, 2), the black man on (2, 3). */
  ghost predicate MidCells(b: Board) {
    && WellFormed(b)
    && forall r, c :: At(b, r, c)
                      == if r == 3 && c == 2 then Some(WhiteMan)
                         else if r == 2 && c == 3 then Some(BlackMan)
                         else None
  }

  /** After the second jump: the white man alone on (1, 4). */
  ghost predicate EndCells(b: Board) {
    && WellFormed(b)
    && forall r, c :: At(b, r, c) == if r == 1 && c == 4 then Some(WhiteMan) else None
  }

  /** The board the test builds, cell by cell. */
  function JumpBoard(): (b: Board)
    ensures StartCells(b)
  {
    Put(Put(Put(EmptyGrid(), 5, 0, Some(WhiteMan)), 4, 1, Some(BlackMan)), 2, 3, Some(BlackMan))
  }

  /**
   * With white to move on the test position, the man on (5, 0) is the only
   * forced piece, its jump over (4, 1) onto (3, 2) is offered, and a request
   * for the occupied square (4, 1) is turned down without changing the game.
   */
  lemma ForcedCaptureScenario(b: Board)
    requires StartCells(b)
    ensures forall p :: p in Forced(b, White) <==> p == Pos(5, 0)
    ensures Capture(Pos(3, 2), Pos(4, 1)) in Moves(b, 5, 0)
    ensures Play(Game(b, White, None), 5, 0, 4, 1) == (Game(b, White, None), Refused(None))
  {
    assert CanJump(b, 5, 0, White, Dir(-1, 1));
    forall p
      ensures p in Forced(b, White) <==> p == Pos(5, 0)
    {
      ForcedMember(b, White, p);
    }
    MovesCharacterized(b, 5, 0, Capture(Pos(3, 2), Pos(4, 1)));
    forall m | m in Moves(b, 5, 0)
      ensures m.dest != Pos(4, 1)
    {
      MoveSquares(b, 5, 0, m);
    }
    PlayRefusal(Game(b, White, None), 5, 0, 4, 1);
  }

  /**
   * The first jump, (5, 0) over (4, 1) onto (3, 2), goes through: the jumped
   * man is removed, white keeps the turn with (3, 2) selected, there is no
   * winner, and the jump on to (1, 4) over (2, 3) is offered.
   */
  lemma FirstJumpScenario(b: Board)
    requires StartCells(b)
    ensures var (g1, r) := Play(Game(b, White, None), 5, 0, 3, 2);
      && r.Moved? && r.extraCapture && r.selected == Pos(3, 2) && r.capture == Some(Pos(4, 1))
      && Capture(Pos(1, 4), Pos(2, 3)) in r.nextMoves
      && g1.turn == White && g1.winner.None? && MidCells(g1.board)
  {
    var g := Game(b, White, None);
    FirstJumpAccepted(b);
    var (g1, r) := Play(g, 5, 0, 3, 2);
    PlayBoard(g, 5, 0, 3, 2);
    assert MidCells(g1.board);
    PlayChain(g, 5, 0, 3, 2);
    assert CanJump(g1.board, 3, 2, White, Dir(-1, 1));
    MidCellsNoWinner(g1.board);
  }

  /** The jump onto (3, 2) is accepted, selects (3, 2) and captures the man on (4, 1). */
  lemma FirstJumpAccepted(b: Board)
    requires StartCells(b)
    ensures var r := Play(Game(b, White, None), 5, 0, 3, 2).1;
      r.Moved? && r.selected == Pos(3, 2) && r.capture == Some(Pos(4, 1))
  {
    var g := Game(b, White, None);
    var jump := Capture(Pos(3, 2), Pos(4, 1));
    assert CanJump(b, 5, 0, White, Dir(-1, 1));
    MovesCharacterized(b, 5, 0, jump);
    assert HasMoveTo(b, 5, 0, Pos(3, 2));
    PlayRefusal(g, 5, 0, 3, 2);
    PlayAccepted(g, 5, 0, 3, 2);
    MoveToUnique(b, 5, 0, jump, FirstTo(Moves(b, 5, 0), Pos(3, 2)).value);
    assert Play(g, 5, 0, 3, 2) == Apply(g, 5, 0, WhiteMan, jump);
  }

  /** Both sides can still move after the first jump, so nobody has won. */
  lemma MidCellsNoWinner(b: Board)
    requires MidCells(b)
    ensures Winner(b) == None
  {
    assert CanJump(b, 3, 2, White, Dir(-1, 1));
    assert Movable(b, White, 3, 2);
    assert CanJump(b, 2, 3, Black, Dir(1, -1));
    assert Movable(b, Black, 2, 3);
    WinnerMeaning(b);
  }

  /**
   * The second jump, (3, 2) over (2, 3) onto (1, 4), ends the sequence: no
   * further capture, black has no piece left and so white has won, and the
   * turn passes to black.
   */
  lemma SecondJumpScenario(b: Board)
    requires MidCells(b)
    ensures var (g2, r) := Play(Game(b, White, None), 3, 2, 1, 4);
      && r.Moved? && !r.extraCapture && g2.turn == Black
      && EndCells(g2.board) && g2.winner == Some(White)
  {
    var g := Game(b, White, None);
    var jump := Capture(Pos(1, 4), Pos(2, 3));
    assert CanJump(b, 3, 2, White, Dir(-1, 1));
    MovesCharacterized(b, 3, 2, jump);
    assert HasMoveTo(b, 3, 2, Pos(1, 4));
    PlayRefusal(g, 3, 2, 1, 4);
    PlayAccepted(g, 3, 2, 1, 4);
    MoveToUnique(b, 3, 2, jump, FirstTo(Moves(b, 3, 2), Pos(1, 4)).value);
    PlayBoard(g, 3, 2, 1, 4);
    PlayChain(g, 3, 2, 1, 4);
    var b2 := Play(g, 3, 2, 1, 4).0.board;
    assert EndCells(b2);
    EndCellsWinner(b2);
  }

  /** The lone white man on (1, 4) cannot capture, and white has won. */
  lemma EndCellsWinner(b: Board)
    requires EndCells(b)
    ensures !CanCapture(b, 1, 4, White)
    ensures Winner(b) == Some(White)
  {
    assert Owns(b, White, 1, 4);
    WinnerMeaning(b);
  }

  /** The last test: a lone white man on (0, 1), black to move; white has won. */
  lemma LoneWhiteScenario(b: Board)
    requires WellFormed(b) && forall r, c :: At(b, r, c) == if r == 0 && c == 1 then Some(WhiteMan) else None
    ensures Winner(b) == Some(White)
  {
    assert Owns(b, White, 0, 1);
    WinnerMeaning(b);
  }
}
