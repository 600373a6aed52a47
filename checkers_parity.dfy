/**
 * The squares pieces stand on: every move of the checkers rules keeps each
 * piece on a dark square, (row + col) odd, where the starting position puts
 * them, and so does every move games/damas/logic.py accepts.
 */
module CheckersParity {
  import opened Common
  import opened CheckersRules
  import opened DamasLogic

  /**
   * A move changes row + col by an even amount (a step by 0 or 2 either
   * way, a jump by 0 or 4), so it lands on a square of the colour of the
   * square it leaves.
   */
  lemma MoveParity(b: Board, r: int, c: int, m: Move)
    requires m in Moves(b, r, c)
    ensures var d := (m.dest.row + m.dest.col) - (r + c); d == -4 || d == -2 || d == 0 || d == 2 || d == 4
  {
    var p := At(b, r, c).value;
    MovesCharacterized(b, r, c, m);
    var d := (m.dest.row + m.dest.col) - (r + c);
    if CanCapture(b, r, c, p.color) {
      assert JumpOf(b, r, c, p.color, m);
      assert d == -4 || d == 0 || d == 4;
    } else {
      assert SimpleMoveOf(b, r, c, p, m);
      assert d == -2 || d == 0 || d == 2;
    }
  }

  /** Every piece stands on a dark square, (row + col) odd. */
  ghost predicate OnDarkSquares(b: Board) {
    forall r, c :: At(b, r, c).Some? ==> (r + c) % 2 == 1
  }

  /**
   * A board that differs from one with its pieces on dark squares only in
   * the square a piece left (now empty), possibly one more emptied square,
   * and the landing square, at an even distance in row + col from the
   * square left, still has its pieces on dark squares.
   */
  lemma MovedOnDarkSquares(b: Board, b': Board, from: Pos, to: Pos, cleared: Option<Pos>)
    requires OnDarkSquares(b) && At(b, from.row, from.col).Some?
    requires var d := (to.row + to.col) - (from.row + from.col); d == -4 || d == -2 || d == 0 || d == 2 || d == 4
    requires At(b', from.row, from.col).None? && (cleared.Some? ==> At(b', cleared.value.row, cleared.value.col).None?)
    requires forall x, y :: Pos(x, y) != from && Pos(x, y) != to && (cleared.Some? ==> Pos(x, y) != cleared.value)
                            ==> At(b', x, y) == At(b, x, y)
    ensures OnDarkSquares(b')
  {
    assert (from.row + from.col) % 2 == 1;
    forall x, y | At(b', x, y).Some?
      ensures (x + y) % 2 == 1
    {
      if Pos(x, y) != to {
        assert At(b, x, y).Some?;
      }
    }
  }

  /** The starting position has its pieces on dark squares only. */
  lemma InitialOnDarkSquares()
    ensures OnDarkSquares(InitialBoard())
  {
    forall r, c | At(InitialBoard(), r, c).Some?
      ensures (r + c) % 2 == 1
    {
      InitialLayout(r, c);
    }
  }

  /**
   * `move` keeps every piece on a dark square: a step and a jump both change
   * row and column by the same distance, so the landing square has the
   * colour of the square left, and the other changed cells are emptied.
   */
  lemma PlayKeepsDarkSquares(g: Game, fr: int, fc: int, tr: int, tc: int)
    requires WellFormed(g.board) && OnDarkSquares(g.board)
    ensures OnDarkSquares(Play(g, fr, fc, tr, tc).0.board)
  {
    PlayRefusal(g, fr, fc, tr, tc);
    var (g', r) := Play(g, fr, fc, tr, tc);
    if r.Moved? {
      PlayAccepted(g, fr, fc, tr, tc);
      PlayBoard(g, fr, fc, tr, tc);
      MoveParity(g.board, fr, fc, FirstTo(Moves(g.board, fr, fc), Pos(tr, tc)).value);
      MovedOnDarkSquares(g.board, g'.board, Pos(fr, fc), Pos(tr, tc), r.capture);
    }
  }
}
