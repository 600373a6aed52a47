/**
 * The selection state machine of games/damas/board.py: a `Board` holds a
 * `CheckersGame`, the selected square and the moves offered from it, keyed
 * by destination. A click either selects a piece of the side to move or,
 * with a piece selected, plays the move to the clicked square.
 */
module DamasSelection {
  import opened Common
  import opened CheckersRules
  import opened DamasLogic

  /** The `selected` square and the `valid_moves` dictionary. */
  datatype Selection = Selection(selected: Option<Pos>, moves: map<Pos, Move>)

  const Cleared := Selection(None, map[])

  /**
   * One click on (row, col): the game, the selection afterwards, and the
   * result of `select` (true exactly when a move was completed).
   */
  function SelectOn(g: Game, s: Selection, row: int, col: int): (Game, Selection, bool)
    requires WellFormed(g.board)
  {
    if g.winner.Some? then (g, s, false)
    else if s.selected.Some? then
      if Pos(row, col) !in s.moves then (g, Cleared, false)
      else
        var from := s.selected.value;
        var (g', r) := Play(g, from.row, from.col, row, col);
        if r.Refused? then (g', Cleared, false)
        else if r.extraCapture then (g', Selection(Some(r.selected), AsMap(r.nextMoves)), false)
        else (g', Cleared, true)
    else
      match At(g.board, row, col)
      case None => (g, s, false)
      case Some(p) =>
        if p.color != g.turn then (g, s, false)
        else
          var forced := Forced(g.board, g.turn);
          if forced != [] && Pos(row, col) !in forced then (g, s, false)
          else
            var offered := Offered(g.board, g.turn, row, col);
            if offered == [] then (g, s, false)
            else (g, Selection(Some(Pos(row, col)), AsMap(offered)), false)
  }

  /** The moves a newly selected piece is offered: only its captures when some piece of the side must capture. */
  function Offered(b: CheckersRules.Board, turn: Color, row: int, col: int): seq<Move> {
    if Forced(b, turn) != [] then CapturesIn(Moves(b, row, col)) else Moves(b, row, col)
  }

  /** A piece allowed to be selected is offered exactly its legal moves. */
  lemma OfferedAreMoves(b: CheckersRules.Board, turn: Color, row: int, col: int)
    requires Owns(b, turn, row, col)
    requires Forced(b, turn) != [] ==> Pos(row, col) in Forced(b, turn)
    ensures forall m :: m in Offered(b, turn, row, col) <==> m in Moves(b, row, col)
    ensures Forced(b, turn) != [] ==> forall m :: m in Offered(b, turn, row, col) ==> m.Capture?
  {
    var moves := Moves(b, row, col);
    if Forced(b, turn) != [] {
      ForcedMember(b, turn, Pos(row, col));
      MovesAreAllOneKind(b, row, col);
      forall m
        ensures m in CapturesIn(moves) <==> m in moves
      {
        CapturesInMember(moves, m);
      }
    }
  }

  /**
   * The selection agrees with the game while it runs: the selected square
   * holds a piece of the side to move, every offered move is a legal move
   * of that piece to the square it is filed under, and the offered moves
   * are captures whenever the side to move has a capture anywhere. Without
   * a selection nothing is offered.
   */
  ghost predicate Coherent(g: Game, s: Selection) {
    && (s.selected.None? ==> s.moves == map[])
    && (s.selected.Some? && g.winner.None? ==>
          var from := s.selected.value;
          && Owns(g.board, g.turn, from.row, from.col)
          && (forall k :: k in s.moves ==> s.moves[k] in Moves(g.board, from.row, from.col) && s.moves[k].dest == k)
          && (SideCanCapture(g.board, g.turn) ==> forall k :: k in s.moves ==> s.moves[k].Capture?))
  }

  /** A click once the game is won changes nothing and completes nothing. */
  lemma SelectAfterWin(g: Game, s: Selection, row: int, col: int)
    requires WellFormed(g.board) && g.winner.Some?
    ensures SelectOn(g, s, row, col) == (g, s, false)
  {
  }

  /**
   * With a piece selected, a click on a square that is not offered, or a
   * move the game turns down, clears the selection and leaves the game as
   * it is; an accepted move that can be continued keeps the landing square
   * selected with the follow-up captures on offer; any other accepted move
   * clears the selection and completes the turn.
   */
  lemma SelectWithSelection(g: Game, s: Selection, row: int, col: int)
    requires WellFormed(g.board) && g.winner.None? && s.selected.Some?
    ensures var (g', s', done) := SelectOn(g, s, row, col);
      var from := s.selected.value;
      var r := Play(g, from.row, from.col, row, col).1;
      && (Pos(row, col) !in s.moves ==> g' == g && s' == Cleared && !done)
      && (Pos(row, col) in s.moves && r.Refused? ==> g' == g && s' == Cleared && !done)
      && (Pos(row, col) in s.moves && r.Moved? ==>
            && g' == Play(g, from.row, from.col, row, col).0
            && (done <==> !r.extraCapture)
            && (r.extraCapture ==> s'.selected == Some(Pos(row, col))
                                   && forall k :: k in s'.moves <==> exists m :: m in r.nextMoves && m.dest == k)
            && (!r.extraCapture ==> s' == Cleared))
  {
    var from := s.selected.value;
    PlayRefusal(g, from.row, from.col, row, col);
    var r := Play(g, from.row, from.col, row, col).1;
    if Pos(row, col) in s.moves && r.Moved? && r.extraCapture {
      PlayIsLegal(g, from.row, from.col, row, col);
      AsMapKeys(r.nextMoves);
    }
  }

  /**
   * Without a selection, a click never changes the game; it selects a piece
   * only when that piece belongs to the side to move, is forced whenever a
   * capture is mandatory, and has a move; the moves offered are exactly its
   * legal moves (its captures under a mandatory capture).
   */
  lemma SelectWithoutSelection(g: Game, s: Selection, row: int, col: int)
    requires WellFormed(g.board) && g.winner.None? && s.selected.None?
    ensures var (g', s', done) := SelectOn(g, s, row, col);
      && g' == g && !done
      && (s'.selected.Some? <==>
            && Owns(g.board, g.turn, row, col)
            && (SideCanCapture(g.board, g.turn) ==> CanCapture(g.board, row, col, g.turn))
            && Moves(g.board, row, col) != [])
      && (s'.selected.None? ==> s' == s)
      && (s'.selected.Some? ==>
            && s'.selected == Some(Pos(row, col))
            && (forall k :: k in s'.moves <==> exists m :: m in Moves(g.board, row, col) && m.dest == k)
            && (forall k :: k in s'.moves ==> s'.moves[k] in Moves(g.board, row, col) && s'.moves[k].dest == k))
  {
    var b := g.board;
    ForcedMeansSideCanCapture(b, g.turn);
    ForcedMember(b, g.turn, Pos(row, col));
    if Owns(b, g.turn, row, col) && (Forced(b, g.turn) != [] ==> Pos(row, col) in Forced(b, g.turn)) {
      var offered := Offered(b, g.turn, row, col);
      OfferedAreMoves(b, g.turn, row, col);
      AsMapKeys(offered);
      if Moves(b, row, col) != [] {
        assert Moves(b, row, col)[0] in offered;
      }
    }
  }

  /** A coherent selection is never turned down by the game: the square clicked is either not offered or played. */
  lemma CoherentMoveAccepted(g: Game, s: Selection, row: int, col: int)
    requires WellFormed(g.board) && g.winner.None? && Coherent(g, s)
    requires s.selected.Some? && Pos(row, col) in s.moves
    ensures Play(g, s.selected.value.row, s.selected.value.col, row, col).1.Moved?
  {
    var from := s.selected.value;
    var m := s.moves[Pos(row, col)];
    PlayRefusal(g, from.row, from.col, row, col);
    assert m in Moves(g.board, from.row, from.col) && m.dest == Pos(row, col);
    assert HasMoveTo(g.board, from.row, from.col, Pos(row, col));
    if SideCanCapture(g.board, g.turn) {
      MovesAreAllOneKind(g.board, from.row, from.col);
    }
  }

  /** Every click keeps the selection coherent with the game. */
  lemma SelectKeepsCoherent(g: Game, s: Selection, row: int, col: int)
    requires WellFormed(g.board) && Coherent(g, s)
    ensures WellFormed(SelectOn(g, s, row, col).0.board)
    ensures Coherent(SelectOn(g, s, row, col).0, SelectOn(g, s, row, col).1)
  {
    if g.winner.None? {
      if s.selected.Some? {
        SelectWithSelection(g, s, row, col);
        var from := s.selected.value;
        var (g', r) := Play(g, from.row, from.col, row, col);
        if Pos(row, col) in s.moves && r.Moved? {
          PlayBoard(g, from.row, from.col, row, col);
          if r.extraCapture {
            ContinuationCoherent(g, from, row, col);
          }
        }
      } else {
        SelectWithoutSelection(g, s, row, col);
        var (g', s', done) := SelectOn(g, s, row, col);
        if s'.selected.Some? {
          ForcedMeansSideCanCapture(g.board, g.turn);
          ForcedMember(g.board, g.turn, Pos(row, col));
          OfferedAreMoves(g.board, g.turn, row, col);
          AsMapKeys(Offered(g.board, g.turn, row, col));
        }
      }
    }
  }

  /** After a move that can be continued, the follow-up captures offered from the landing square are coherent. */
  lemma ContinuationCoherent(g: Game, from: Pos, row: int, col: int)
    requires WellFormed(g.board)
    requires Play(g, from.row, from.col, row, col).1.Moved?
    requires Play(g, from.row, from.col, row, col).1.extraCapture
    ensures var (g', r) := Play(g, from.row, from.col, row, col);
      WellFormed(g'.board) && Coherent(g', Selection(Some(r.selected), AsMap(r.nextMoves)))
  {
    var (g', r) := Play(g, from.row, from.col, row, col);
    PlayBoard(g, from.row, from.col, row, col);
    PlayChain(g, from.row, from.col, row, col);
    PlayIsLegal(g, from.row, from.col, row, col);
    var b' := g'.board;
    assert Owns(b', g.turn, row, col);
    AsMapKeys(r.nextMoves);
    forall k | k in AsMap(r.nextMoves)
      ensures AsMap(r.nextMoves)[k] in Moves(b', row, col)
    {
      MovesCharacterized(b', row, col, AsMap(r.nextMoves)[k]);
    }
  }

  class Board {
    var game: CheckersGame
    var selected: Option<Pos>
    var validMoves: map<Pos, Move>

    /** The engine is well formed and its stored winner is the winner rule of its board. */
    ghost predicate Valid()
      reads this, game
    {
      game.Valid() && game.winner == Winner(game.board)
    }

    function Current(): Selection
      reads this
    {
      Selection(selected, validMoves)
    }

    /** A new game with nothing selected. */
    constructor()
      ensures Valid() && fresh(game)
      ensures game.State() == Game(InitialBoard(), White, None)
      ensures Current() == Cleared
    {
      game := new CheckersGame();
      selected := None;
      validMoves := map[];
      InitialWinner();
    }

    /** `select`: one click on (row, col), as `SelectOn` describes. */
    method Select(row: int, col: int) returns (done: bool)
      requires Valid()
      modifies this, game
      ensures Valid() && game == old(game)
      ensures (game.State(), Current(), done) == SelectOn(old(game.State()), old(Current()), row, col)
    {
      if game.winner.Some? {
        return false;
      }

      if selected.Some? {
        if Pos(row, col) !in validMoves {
          selected := None;
          validMoves := map[];
          return false;
        }
        var from := selected.value;
        var before := game.State();
        var result := game.Move(from.row, from.col, row, col);
        PlayKeepsWinner(before, from.row, from.col, row, col);
        if result.Refused? {
          selected := None;
          validMoves := map[];
          return false;
        }
        if result.extraCapture {
          selected := Some(result.selected);
          validMoves := AsMap(result.nextMoves);
          return false;
        }
        selected := None;
        validMoves := map[];
        return true;
      }

      var piece := game.PieceAt(row, col);
      if piece.None? || piece.value.color != game.turn {
        return false;
      }

      var forced := game.ForcedPieces(None);
      if forced != [] && Pos(row, col) !in forced {
        return false;
      }

      var moves := game.ValidMoves(row, col, true);
      if forced != [] {
        moves := CapturesIn(moves);
      }
      if moves == [] {
        return false;
      }

      selected := Some(Pos(row, col));
      validMoves := AsMap(moves);
      return false;
    }

    /** `get_winner`: the winner of the game, if any, which is always the winner rule of the current board. */
    function GetWinner(): (w: Option<Color>)
      requires Valid()
      reads this, game
      ensures w == Winner(game.board)
    {
      game.winner
    }
  }
}
