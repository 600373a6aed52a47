/**
 * The older pygame checkers board of damas/board.py, with the `Piece`
 * record of damas/piece.py folded in: every cell holds a piece that knows
 * its own square. Men step and capture one square forward only, kings
 * also backward; a capture chain goes on with the same piece, and a
 * crowning in the middle of a chain does not end it. There is no winner
 * rule: the caller switches sides whenever `select` returns true.
 */
module DamasPygame {
  import opened Common
  import opened CheckersRules

  /** A piece record: its square, its colour and its crown. */
  datatype Man = Man(row: int, col: int, color: Color, king: bool)

  /** The `board` list of lists; `0` is an empty cell. */
  type Squares = Grid<Man>

  /**
   * The dictionary of `get_valid_moves`, keyed by destination: None for a
   * step, the jumped square for a capture.
   */
  type MoveMap = map<Pos, Option<Pos>>

  /** Every piece on the board records the square it stands on. */
  ghost predicate Placed(b: Squares) {
    forall r, c :: At(b, r, c).Some? ==> At(b, r, c).value.row == r && At(b, r, c).value.col == c
  }

  predicate Free(b: Squares, r: int, c: int) {
    Inside(r, c) && At(b, r, c).None?
  }

  // ---------------------------------------------------------------------
  // The opening position (`create_board`)

  /** The opening content of (r, c): black men on rows 0-2, white men on rows 5-7, dark squares only. */
  function StartMan(r: int, c: int): Option<Man> {
    if r < 3 && (r + c) % 2 == 1 then Some(Man(r, c, Black, false))
    else if r > 4 && (r + c) % 2 == 1 then Some(Man(r, c, White, false))
    else None
  }

  /**
   * The opening board. Its pieces stand where the shared opening position
   * has them, with the same colours, as uncrowned men that know their squares.
   */
  function InitialSquares(): (b: Squares)
    ensures WellFormed(b) && Placed(b)
    ensures forall r, c | Inside(r, c) ::
      && (At(b, r, c).Some? <==> StartCell(r, c).Some?)
      && (At(b, r, c).Some? ==> At(b, r, c).value.color == StartCell(r, c).value.color && !At(b, r, c).value.king)
  {
    seq(Size, r => seq(Size, c => StartMan(r, c)))
  }

  // ---------------------------------------------------------------------
  // Moves of one piece (`get_valid_moves`)

  /** The directions of a piece: its two forward diagonals, then for a king their opposites. */
  function ManDirs(m: Man): seq<Dir> {
    var fwd := ForwardDirs(m.color);
    if m.king then fwd + [Dir(-fwd[0].dr, -fwd[0].dc), Dir(-fwd[1].dr, -fwd[1].dc)] else fwd
  }

  /** The directions of a piece are distinct diagonals. */
  lemma ManDirsDistinct(m: Man)
    ensures forall i :: 0 <= i < |ManDirs(m)| ==> ManDirs(m)[i] in Diagonals
    ensures forall i, j :: 0 <= i < j < |ManDirs(m)| ==> ManDirs(m)[i] != ManDirs(m)[j]
  {
    if m.color == White {
      assert m.king ==> ManDirs(m) == [Dir(-1, -1), Dir(-1, 1), Dir(1, 1), Dir(1, -1)];
    } else {
      assert m.king ==> ManDirs(m) == [Dir(1, -1), Dir(1, 1), Dir(-1, 1), Dir(-1, -1)];
    }
  }

  /**
   * Men move and capture only forward; kings move in all four diagonals,
   * each direction listed once.
   */
  lemma ManDirsMeaning(m: Man)
    ensures forall d :: d in ManDirs(m) <==> d in Diagonals && (m.king || d.dr == Forward(m.color))
    ensures forall i, j :: 0 <= i < j < |ManDirs(m)| ==> ManDirs(m)[i] != ManDirs(m)[j]
  {
    var ds := ManDirs(m);
    if m.color == White {
      assert m.king ==> ds == [Dir(-1, -1), Dir(-1, 1), Dir(1, 1), Dir(1, -1)];
    } else {
      assert m.king ==> ds == [Dir(1, -1), Dir(1, 1), Dir(-1, 1), Dir(-1, -1)];
    }
  }

  /**
   * The entry direction d gives piece m: its empty neighbour maps to None;
   * an opposing neighbour with an empty square beyond maps that square to
   * the neighbour; anything else gives no entry.
   */
  function Entry(b: Squares, m: Man, d: Dir): Option<(Pos, Option<Pos>)> {
    var r := m.row + d.dr;
    var c := m.col + d.dc;
    if Free(b, r, c) then Some((Pos(r, c), None))
    else if Inside(r, c) && At(b, r, c).Some? && At(b, r, c).value.color != m.color && Free(b, r + d.dr, c + d.dc) then
      Some((Pos(r + d.dr, c + d.dc), Some(Pos(r, c))))
    else None
  }

  /** The dictionary filled by scanning `dirs` in order, later entries overwriting earlier ones. */
  function MovesAlong(b: Squares, m: Man, dirs: seq<Dir>): MoveMap
    decreases |dirs|
  {
    if dirs == [] then map[]
    else
      var rest := MovesAlong(b, m, dirs[..|dirs| - 1]);
      var e := Entry(b, m, dirs[|dirs| - 1]);
      if e.Some? then rest[e.value.0 := e.value.1] else rest
  }

  /** The entry of a direction, read off the rows of a well-formed board. */
  lemma EntryCells(b: Squares, m: Man, d: Dir)
    requires WellFormed(b)
    ensures Entry(b, m, d) ==
      var r := m.row + d.dr;
      var c := m.col + d.dc;
      if Inside(r, c) && b[r][c].None? then Some((Pos(r, c), None))
      else if Inside(r, c) && b[r][c].Some? && b[r][c].value.color != m.color
        && Inside(r + d.dr, c + d.dc) && b[r + d.dr][c + d.dc].None? then
        Some((Pos(r + d.dr, c + d.dc), Some(Pos(r, c))))
      else None
  {
  }

  /** Scanning one more direction adds that direction's entry, if any. */
  lemma MovesAlongNext(b: Squares, m: Man, dirs: seq<Dir>, i: int)
    requires 0 <= i < |dirs|
    ensures MovesAlong(b, m, dirs[..i + 1]) ==
      var e := Entry(b, m, dirs[i]);
      if e.Some? then MovesAlong(b, m, dirs[..i])[e.value.0 := e.value.1] else MovesAlong(b, m, dirs[..i])
  {
    assert dirs[..i + 1][..i] == dirs[..i];
  }

  function ValidMoves(b: Squares, m: Man): MoveMap {
    MovesAlong(b, m, ManDirs(m))
  }

  /** Entries of two different diagonals never share a destination. */
  lemma EntryKeysDiffer(b: Squares, m: Man, d1: Dir, d2: Dir)
    requires d1 in Diagonals && d2 in Diagonals && d1 != d2
    requires Entry(b, m, d1).Some? && Entry(b, m, d2).Some?
    ensures Entry(b, m, d1).value.0 != Entry(b, m, d2).value.0
  {
  }

  /**
   * Scanning distinct diagonals: a destination maps to v exactly when one
   * of the directions gives that entry, so no entry is lost to overwriting.
   */
  lemma {:induction false} MovesAlongMember(b: Squares, m: Man, dirs: seq<Dir>, k: Pos, v: Option<Pos>)
    requires forall i :: 0 <= i < |dirs| ==> dirs[i] in Diagonals
    requires forall i, j :: 0 <= i < j < |dirs| ==> dirs[i] != dirs[j]
    ensures (k in MovesAlong(b, m, dirs) && MovesAlong(b, m, dirs)[k] == v)
        <==> exists d :: d in dirs && Entry(b, m, d) == Some((k, v))
    decreases |dirs|
  {
    if dirs != [] {
      var init := dirs[..|dirs| - 1];
      var last := dirs[|dirs| - 1];
      assert forall i :: 0 <= i < |init| ==> init[i] == dirs[i];
      MovesAlongMember(b, m, init, k, v);
      assert forall d :: d in dirs <==> d in init || d == last;
      var e := Entry(b, m, last);
      if e.Some? && e.value.0 == k {
        forall d | d in init && Entry(b, m, d).Some?
          ensures Entry(b, m, d).value.0 != k
        {
          var i :| 0 <= i < |init| && init[i] == d;
          EntryKeysDiffer(b, m, d, last);
        }
      }
    }
  }

  /** Direction d takes m one square onto the empty square k. */
  predicate StepShape(b: Squares, m: Man, d: Dir, k: Pos) {
    k == Pos(m.row + d.dr, m.col + d.dc) && Free(b, k.row, k.col)
  }

  /** Direction d takes m over the opposing piece on j onto the empty square k. */
  predicate JumpShape(b: Squares, m: Man, d: Dir, k: Pos, j: Pos) {
    && j == Pos(m.row + d.dr, m.col + d.dc) && k == Pos(j.row + d.dr, j.col + d.dc)
    && At(b, j.row, j.col).Some? && At(b, j.row, j.col).value.color != m.color
    && Free(b, k.row, k.col)
  }

  /** m can step to k in one of its directions. */
  ghost predicate StepsTo(b: Squares, m: Man, k: Pos) {
    exists d :: d in ManDirs(m) && StepShape(b, m, d, k)
  }

  /** m can jump over j onto k in one of its directions. */
  ghost predicate JumpsTo(b: Squares, m: Man, k: Pos, j: Pos) {
    exists d :: d in ManDirs(m) && JumpShape(b, m, d, k, j)
  }

  /** The entry of one direction is a step or a capture of that direction. */
  lemma EntryShape(b: Squares, m: Man, d: Dir, k: Pos, v: Option<Pos>)
    ensures Entry(b, m, d) == Some((k, v)) <==>
      if v.None? then StepShape(b, m, d, k) else JumpShape(b, m, d, k, v.value)
  {
  }

  /** The dictionary maps k to None exactly when m can step to k. */
  lemma StepsMeaning(b: Squares, m: Man, k: Pos)
    ensures (k in ValidMoves(b, m) && ValidMoves(b, m)[k].None?) <==> StepsTo(b, m, k)
  {
    ManDirsDistinct(m);
    MovesAlongMember(b, m, ManDirs(m), k, None);
    if StepsTo(b, m, k) {
      var d :| d in ManDirs(m) && StepShape(b, m, d, k);
      EntryShape(b, m, d, k, None);
    }
    if k in ValidMoves(b, m) && ValidMoves(b, m)[k].None? {
      var d :| d in ManDirs(m) && Entry(b, m, d) == Some((k, None));
      EntryShape(b, m, d, k, None);
    }
  }

  /** The dictionary maps k to j exactly when m can jump over j onto k. */
  lemma JumpsMeaning(b: Squares, m: Man, k: Pos, j: Pos)
    ensures (k in ValidMoves(b, m) && ValidMoves(b, m)[k] == Some(j)) <==> JumpsTo(b, m, k, j)
  {
    ManDirsDistinct(m);
    MovesAlongMember(b, m, ManDirs(m), k, Some(j));
    if JumpsTo(b, m, k, j) {
      var d :| d in ManDirs(m) && JumpShape(b, m, d, k, j);
      EntryShape(b, m, d, k, Some(j));
    }
    if k in ValidMoves(b, m) && ValidMoves(b, m)[k] == Some(j) {
      var d :| d in ManDirs(m) && Entry(b, m, d) == Some((k, Some(j)));
      EntryShape(b, m, d, k, Some(j));
    }
  }

  /** A man's captures always land two rows forward. */
  lemma MenCaptureForward(b: Squares, m: Man, k: Pos)
    requires !m.king && k in ValidMoves(b, m) && ValidMoves(b, m)[k].Some?
    ensures k.row == m.row + 2 * Forward(m.color)
  {
    var j := ValidMoves(b, m)[k].value;
    JumpsMeaning(b, m, k, j);
    ManDirsMeaning(m);
  }

  /** The dictionary has a capture entry (`any(v is not None ...)`). */
  predicate HasCaptureEntry(mm: MoveMap) {
    exists k | k in mm :: mm[k].Some?
  }

  /** The capture entries of a dictionary. */
  function CaptureOnly(mm: MoveMap): (cs: MoveMap)
    ensures forall k :: k in cs <==> k in mm && mm[k].Some?
    ensures forall k | k in cs :: cs[k] == mm[k]
  {
    map k | k in mm && mm[k].Some? :: mm[k]
  }

  lemma CaptureOnlyEmpty(mm: MoveMap)
    ensures (|CaptureOnly(mm)| == 0) <==> !HasCaptureEntry(mm)
  {
    if HasCaptureEntry(mm) {
      var k :| k in mm && mm[k].Some?;
      assert k in CaptureOnly(mm);
    }
  }

  // ---------------------------------------------------------------------
  // Forced captures (`get_forced_captures`)

  /** The piece on (r, c) is of `color` and has a capture entry. */
  predicate IsCapturer(b: Squares, color: Color, r: int, c: int) {
    At(b, r, c).Some? && At(b, r, c).value.color == color && HasCaptureEntry(ValidMoves(b, At(b, r, c).value))
  }

  /** Some piece of `color` has a capture somewhere on the board. */
  predicate ForcedCapture(b: Squares, color: Color) {
    exists r, c | 0 <= r < Size && 0 <= c < Size :: IsCapturer(b, color, r, c)
  }

  // ---------------------------------------------------------------------
  // Moving a piece (`move`) and clicking (`select`)

  /** The piece after `move`: it records its new square and is crowned on its far row. */
  function Promote(m: Man, row: int, col: int): (q: Man)
    ensures q.row == row && q.col == col && q.color == m.color
    ensures q.king <==> m.king || CrownRow(m.color, row)
  {
    Man(row, col, m.color, m.king || (m.color == White && row == 0) || (m.color == Black && row == Size - 1))
  }

  /** The board after `move`: the old cell emptied, the piece, updated, on the new one. */
  function Relocate(b: Squares, m: Man, row: int, col: int): (b': Squares)
    requires WellFormed(b) && Inside(m.row, m.col) && Inside(row, col)
    ensures WellFormed(b')
  {
    Put(Put(b, m.row, m.col, None), row, col, Some(Promote(m, row, col)))
  }

  /** The fields of a `Board`: the board, `selected_piece` and `valid_moves`. */
  datatype Pick = Pick(board: Squares, selected: Option<Man>, validMoves: MoveMap)

  /**
   * The board holds placed pieces; a selected piece stands on its own
   * square, and the moves offered for it are entries of its dictionary.
   * Nothing is offered without a selection.
   */
  ghost predicate Consistent(st: Pick) {
    && WellFormed(st.board) && Placed(st.board)
    && (st.selected.None? ==> st.validMoves == map[])
    && (st.selected.Some? ==>
          var s := st.selected.value;
          && At(st.board, s.row, s.col) == Some(s)
          && forall k | k in st.validMoves ::
               k in ValidMoves(st.board, s) && st.validMoves[k] == ValidMoves(st.board, s)[k])
  }

  /** Entries of a dictionary of a placed piece lie on the board; a capture's jumped square too. */
  lemma EntryInside(b: Squares, m: Man, k: Pos)
    requires k in ValidMoves(b, m)
    ensures Inside(k.row, k.col)
    ensures ValidMoves(b, m)[k].Some? ==> Inside(ValidMoves(b, m)[k].value.row, ValidMoves(b, m)[k].value.col)
    ensures ValidMoves(b, m)[k].Some? ==> At(b, ValidMoves(b, m)[k].value.row, ValidMoves(b, m)[k].value.col).Some?
  {
    if ValidMoves(b, m)[k].Some? {
      JumpsMeaning(b, m, k, ValidMoves(b, m)[k].value);
    } else {
      StepsMeaning(b, m, k);
    }
  }

  /**
   * Playing the offered entry to `dest` with the selected piece: its move,
   * the removal of the jumped piece, and the chain test with the same
   * (possibly just crowned) piece. The boolean is the result of `select`.
   */
  function Played(st: Pick, dest: Pos): (Pick, bool)
    requires Consistent(st) && st.selected.Some? && dest in st.validMoves
  {
    var s := st.selected.value;
    EntryInside(st.board, s, dest);
    var captured := st.validMoves[dest];
    var moved := Promote(s, dest.row, dest.col);
    var b1 := Relocate(st.board, s, dest.row, dest.col);
    var b2 := if captured.Some? then Put(b1, captured.value.row, captured.value.col, None) else b1;
    var captureOnly := CaptureOnly(ValidMoves(b2, moved));
    if captured.Some? && |captureOnly| != 0 then (Pick(b2, Some(moved), captureOnly), false)
    else (Pick(b2, None, map[]), true)
  }

  /** Selecting the piece on (row, col) for `current`, with no piece selected. */
  function PickPiece(st: Pick, row: int, col: int, current: Color): (Pick, bool)
    requires WellFormed(st.board)
  {
    var piece := At(st.board, row, col);
    if piece.None? || piece.value.color != current then (st, false)
    else
      var forced := ForcedCapture(st.board, current);
      var pieceMoves := ValidMoves(st.board, piece.value);
      if forced && !HasCaptureEntry(pieceMoves) then (st, false)
      else (st.(selected := Some(piece.value), validMoves := if forced then CaptureOnly(pieceMoves) else pieceMoves), false)
  }

  /** One click on (row, col) with `current` to move: the new fields and the result of `select`. */
  function SelectOn(st: Pick, row: int, col: int, current: Color): (Pick, bool)
    requires Consistent(st)
  {
    if st.selected.Some? then
      if Pos(row, col) in st.validMoves then Played(st, Pos(row, col))
      else (st.(selected := None, validMoves := map[]), false)
    else PickPiece(st, row, col, current)
  }

  // ---------------------------------------------------------------------
  // Properties of `select`

  /** A piece with no capture is refused while some piece of its side can capture; a forced selection offers only captures. */
  lemma PickRespectsForced(st: Pick, row: int, col: int, current: Color)
    requires Consistent(st) && st.selected.None? && Inside(row, col)
    ensures var (st', turnOver) := SelectOn(st, row, col, current);
      && !turnOver && st'.board == st.board
      && (st'.selected.Some? <==>
            IsCapturer(st.board, current, row, col)
            || (At(st.board, row, col).Some? && At(st.board, row, col).value.color == current && !ForcedCapture(st.board, current)))
      && (st'.selected.Some? ==> st'.selected == At(st.board, row, col) && st'.selected.value.row == row && st'.selected.value.col == col)
      && (st'.selected.Some? && ForcedCapture(st.board, current) ==>
            st'.validMoves == CaptureOnly(ValidMoves(st.board, st'.selected.value)) && |st'.validMoves| != 0)
      && (st'.selected.Some? && !ForcedCapture(st.board, current) ==>
            st'.validMoves == ValidMoves(st.board, st'.selected.value))
  {
    var piece := At(st.board, row, col);
    if piece.Some? {
      CaptureOnlyEmpty(ValidMoves(st.board, piece.value));
      if piece.value.color == current && !ForcedCapture(st.board, current) {
        assert !IsCapturer(st.board, current, row, col);
      }
    }
  }

  /** A click off the offered squares while a piece is selected only clears the selection. */
  lemma MissClearsSelection(st: Pick, row: int, col: int, current: Color)
    requires Consistent(st) && st.selected.Some? && Pos(row, col) !in st.validMoves
    ensures SelectOn(st, row, col, current) == (Pick(st.board, None, map[]), false)
  {
  }

  /**
   * Playing an offered entry: the piece leaves its square and stands,
   * updated and possibly crowned, on the destination; a jumped piece is
   * removed; every other cell is unchanged.
   */
  lemma PlayMovesPiece(st: Pick, dest: Pos)
    requires Consistent(st) && st.selected.Some? && dest in st.validMoves
    ensures var s := st.selected.value;
      var captured := st.validMoves[dest];
      var b' := Played(st, dest).0.board;
      && WellFormed(b')
      && At(b', dest.row, dest.col) == Some(Promote(s, dest.row, dest.col))
      && At(b', s.row, s.col) == None
      && (captured.Some? ==> At(b', captured.value.row, captured.value.col) == None)
      && forall r, c | Pos(r, c) != dest && Pos(r, c) != Pos(s.row, s.col) && Some(Pos(r, c)) != captured ::
           At(b', r, c) == At(st.board, r, c)
  {
    var s := st.selected.value;
    EntryInside(st.board, s, dest);
    var captured := st.validMoves[dest];
    if captured.Some? {
      JumpsMeaning(st.board, s, dest, captured.value);
    } else {
      StepsMeaning(st.board, s, dest);
    }
  }

  /**
   * After a capture, the same piece keeps the selection (and the side its
   * turn) exactly when it can capture again, even just crowned; it is then
   * offered exactly its captures. Otherwise the selection is cleared and
   * the turn is over.
   */
  lemma PlayContinuation(st: Pick, dest: Pos)
    requires Consistent(st) && st.selected.Some? && dest in st.validMoves
    ensures var s := st.selected.value;
      var (st', turnOver) := Played(st, dest);
      var moved := Promote(s, dest.row, dest.col);
      && (!turnOver <==> st.validMoves[dest].Some? && HasCaptureEntry(ValidMoves(st'.board, moved)))
      && (!turnOver ==> st'.selected == Some(moved) && st'.validMoves == CaptureOnly(ValidMoves(st'.board, moved)))
      && (turnOver ==> st'.selected.None? && st'.validMoves == map[])
  {
    var s := st.selected.value;
    var (st', _) := Played(st, dest);
    CaptureOnlyEmpty(ValidMoves(st'.board, Promote(s, dest.row, dest.col)));
  }

  /** Every click keeps the fields consistent. */
  lemma SelectKeepsConsistent(st: Pick, row: int, col: int, current: Color)
    requires Consistent(st) && Inside(row, col)
    ensures Consistent(SelectOn(st, row, col, current).0)
  {
    var (st', _) := SelectOn(st, row, col, current);
    if st.selected.Some? && Pos(row, col) in st.validMoves {
      var dest := Pos(row, col);
      var s := st.selected.value;
      var b' := st'.board;
      PlayMovesPiece(st, dest);
      var captured := st.validMoves[dest];
      forall r, c | At(b', r, c).Some?
        ensures At(b', r, c).value.row == r && At(b', r, c).value.col == c
      {
        if Pos(r, c) != dest {
          assert At(b', r, c) == At(st.board, r, c);
        }
      }
      assert Placed(b');
    }
  }

  // ---------------------------------------------------------------------
  // The `Board` object

  class Board {
    var board: Squares
    var selectedPiece: Option<Man>
    var validMoves: MoveMap

    function State(): Pick
      reads this
    {
      Pick(board, selectedPiece, validMoves)
    }

    ghost predicate Valid()
      reads this
    {
      Consistent(State())
    }

    constructor ()
      ensures Valid() && State() == Pick(InitialSquares(), None, map[])
    {
      board := [];
      selectedPiece := None;
      validMoves := map[];
      new;
      CreateBoard();
    }

    /** `create_board`: appends the opening rows to an empty board. */
    method CreateBoard()
      requires board == []
      modifies this
      ensures board == InitialSquares()
      ensures selectedPiece == old(selectedPiece) && validMoves == old(validMoves)
    {
      var row := 0;
      while row < Size
        invariant 0 <= row <= Size
        invariant board == InitialSquares()[..row]
        invariant selectedPiece == old(selectedPiece) && validMoves == old(validMoves)
      {
        var line: seq<Option<Man>> := [];
        var col := 0;
        while col < Size
          invariant 0 <= col <= Size
          invariant line == InitialSquares()[row][..col]
        {
          if row < 3 && (row + col) % 2 == 1 {
            line := line + [Some(Man(row, col, Black, false))];
          } else if row > 4 && (row + col) % 2 == 1 {
            line := line + [Some(Man(row, col, White, false))];
          } else {
            line := line + [None];
          }
          col := col + 1;
        }
        assert line == InitialSquares()[row];
        assert InitialSquares()[..row + 1] == InitialSquares()[..row] + [InitialSquares()[row]];
        board := board + [line];
        row := row + 1;
      }
    }

    /** `get_piece`: the cell, whose piece records that very square. */
    method GetPiece(row: int, col: int) returns (piece: Option<Man>)
      requires Valid() && Inside(row, col)
      ensures piece == At(board, row, col)
      ensures piece.Some? ==> piece.value.row == row && piece.value.col == col
    {
      piece := board[row][col];
    }

    /** `move`: empties the piece's cell, updates and crowns it, and stores it on (row, col). */
    method Move(piece: Man, row: int, col: int) returns (moved: Man)
      requires WellFormed(board) && Inside(piece.row, piece.col) && Inside(row, col)
      modifies this
      ensures moved == Promote(piece, row, col)
      ensures board == Relocate(old(board), piece, row, col)
      ensures selectedPiece == old(selectedPiece) && validMoves == old(validMoves)
    {
      board := board[piece.row := board[piece.row][piece.col := None]];
      moved := piece.(row := row, col := col);
      if moved.color == White && moved.row == 0 {
        moved := moved.(king := true);
      } else if moved.color == Black && moved.row == Size - 1 {
        moved := moved.(king := true);
      }
      board := board[row := board[row][col := Some(moved)]];
    }

    /** `get_valid_moves`: the dictionary filled direction by direction. */
    method GetValidMoves(piece: Man) returns (moves: MoveMap)
      requires WellFormed(board)
      ensures moves == ValidMoves(board, piece)
    {
      var directions := if piece.color == White then [Dir(-1, -1), Dir(-1, 1)] else [Dir(1, -1), Dir(1, 1)];
      if piece.king {
        directions := directions + [Dir(-directions[0].dr, -directions[0].dc), Dir(-directions[1].dr, -directions[1].dc)];
      }
      assert directions == ManDirs(piece);
      moves := map[];
      var i := 0;
      while i < |directions|
        invariant 0 <= i <= |directions|
        invariant moves == MovesAlong(board, piece, directions[..i])
      {
        var d := directions[i];
        MovesAlongNext(board, piece, directions, i);
        EntryCells(board, piece, d);
        var r := piece.row + d.dr;
        var c := piece.col + d.dc;
        if 0 <= r < Size && 0 <= c < Size && board[r][c].None? {
          moves := moves[Pos(r, c) := None];
        } else if 0 <= r < Size && 0 <= c < Size {
          var target := board[r][c];
          var jumpR := r + d.dr;
          var jumpC := c + d.dc;
          if target.Some? && target.value.color != piece.color
            && 0 <= jumpR < Size && 0 <= jumpC < Size && board[jumpR][jumpC].None?
          {
            moves := moves[Pos(jumpR, jumpC) := Some(Pos(r, c))];
          }
        }
        i := i + 1;
      }
      assert directions[..|directions|] == directions;
    }

    /** `get_forced_captures`: whether some piece of `color` has a capture entry. */
    method GetForcedCaptures(color: Color) returns (found: bool)
      requires WellFormed(board)
      ensures found == ForcedCapture(board, color)
    {
      var r := 0;
      while r < Size
        invariant 0 <= r <= Size
        invariant forall r', c' | 0 <= r' < r && 0 <= c' < Size :: !IsCapturer(board, color, r', c')
      {
        var c := 0;
        while c < Size
          invariant 0 <= c <= Size
          invariant forall r', c' | 0 <= r' < r && 0 <= c' < Size :: !IsCapturer(board, color, r', c')
          invariant forall c' | 0 <= c' < c :: !IsCapturer(board, color, r, c')
        {
          var p := board[r][c];
          if p.Some? && p.value.color == color {
            var moves := GetValidMoves(p.value);
            if exists k | k in moves :: moves[k].Some? {
              assert IsCapturer(board, color, r, c);
              return true;
            }
          }
          c := c + 1;
        }
        r := r + 1;
      }
      return false;
    }

    /**
     * The branch of `select` that plays the offered entry to `dest`:
     * the move, the removal of a jumped piece and the chain test.
     */
    method PlayOffered(dest: Pos) returns (turnOver: bool)
      requires Valid() && selectedPiece.Some? && dest in validMoves
      modifies this
      ensures (State(), turnOver) == Played(old(State()), dest)
    {
      var captured := validMoves[dest];
      ghost var st := State();
      EntryInside(board, selectedPiece.value, dest);
      var moved := Move(selectedPiece.value, dest.row, dest.col);
      selectedPiece := Some(moved);
      if captured.Some? {
        board := board[captured.value.row := board[captured.value.row][captured.value.col := None]];
      }
      var nextMoves := GetValidMoves(moved);
      var captureOnly := map m | m in nextMoves && nextMoves[m].Some? :: nextMoves[m];
      if captured.Some? && |captureOnly| != 0 {
        validMoves := captureOnly;
        assert (State(), false) == Played(st, dest);
        return false;
      } else {
        selectedPiece := None;
        validMoves := map[];
        assert (State(), true) == Played(st, dest);
        return true;
      }
    }

    /**
     * `select`: one click on (row, col) with `currentColor` to move;
     * true exactly when a move was completed and the turn passes.
     */
    method Select(row: int, col: int, currentColor: Color) returns (turnOver: bool)
      requires Valid() && Inside(row, col)
      modifies this
      ensures Valid()
      ensures (State(), turnOver) == SelectOn(old(State()), row, col, currentColor)
    {
      SelectKeepsConsistent(State(), row, col, currentColor);
      var piece := GetPiece(row, col);
      if selectedPiece.Some? {
        if Pos(row, col) in validMoves {
          turnOver := PlayOffered(Pos(row, col));
          return turnOver;
        } else {
          selectedPiece := None;
          validMoves := map[];
          return false;
        }
      } else if piece.Some? && piece.value.color == currentColor {
        var forced := GetForcedCaptures(currentColor);
        var pieceMoves := GetValidMoves(piece.value);
        var pieceHasCapture := exists k | k in pieceMoves :: pieceMoves[k].Some?;
        if forced && !pieceHasCapture {
          return false;
        }
        selectedPiece := piece;
        if forced {
          validMoves := map m | m in pieceMoves && pieceMoves[m].Some? :: pieceMoves[m];
        } else {
          validMoves := pieceMoves;
        }
        return false;
      }
      return false;
    }
  }
}
