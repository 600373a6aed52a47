/**
 * The vocabulary and the single-ply rules shared by the checkers ("damas")
 * engines: an 8x8 board of optional pieces, diagonal steps and jumps,
 * forced captures, promotion, piece counts and the winner rule.
 *
 * The rule set is the house one of games/damas/logic.py: men step one
 * square forward, kings one square in any diagonal, and every piece
 * (men included) captures by jumping over an adjacent opposing piece in
 * any of the four diagonals onto an empty square. When a piece has a
 * capture, only its captures are offered.
 */
module CheckersRules {
  import opened Common

  const Size: int := 8

  datatype Color = White | Black

  function Opponent(c: Color): (o: Color)
    ensures o != c
  {
    if c == White then Black else White
  }

  datatype Piece = Piece(color: Color, king: bool)
  datatype Pos = Pos(row: int, col: int)
  datatype Dir = Dir(dr: int, dc: int)

  /** A move is a step to `dest`, or a jump to `dest` over the piece on `jumped`. */
  datatype Move = Simple(dest: Pos) | Capture(dest: Pos, jumped: Pos)

  /** A grid of rows of optional cells; boards are grids of pieces. */
  type Grid<T> = seq<seq<Option<T>>>
  type Board = Grid<Piece>

  predicate Inside(r: int, c: int) {
    0 <= r < Size && 0 <= c < Size
  }

  predicate WellFormed<T>(b: Grid<T>) {
    |b| == Size && forall r | 0 <= r < Size :: |b[r]| == Size
  }

  /** The cell at (r, c), or None off the board (`piece_at`). */
  function At<T>(b: Grid<T>, r: int, c: int): Option<T> {
    if WellFormed(b) && Inside(r, c) then b[r][c] else None
  }

  /** The grid with cell (r, c) replaced by `v` and every other cell kept. */
  function Put<T>(b: Grid<T>, r: int, c: int, v: Option<T>): (b': Grid<T>)
    requires WellFormed(b) && Inside(r, c)
    ensures WellFormed(b')
    ensures forall r', c' :: At(b', r', c') == if r' == r && c' == c then v else At(b, r', c')
  {
    b[r := b[r][c := v]]
  }

  /** Two well-formed grids with the same cells are the same grid. */
  lemma GridsEqual<T>(a: Grid<T>, b: Grid<T>)
    requires WellFormed(a) && WellFormed(b)
    requires forall r, c :: Inside(r, c) ==> At(a, r, c) == At(b, r, c)
    ensures a == b
  {
    forall r | 0 <= r < Size
      ensures a[r] == b[r]
    {
      forall c | 0 <= c < Size
        ensures a[r][c] == b[r][c]
      {
        assert At(a, r, c) == At(b, r, c);
      }
    }
  }

  function EmptyGrid<T>(): (b: Grid<T>)
    ensures WellFormed(b)
    ensures forall r, c :: At(b, r, c) == None
  {
    seq(Size, _ => seq(Size, _ => None))
  }

  /** The square (r, c) holds a piece of `color`. */
  predicate Owns(b: Board, color: Color, r: int, c: int) {
    At(b, r, c).Some? && At(b, r, c).value.color == color
  }

  /** Some square of the board holds a piece of `color`. */
  ghost predicate HasPiece(b: Board, color: Color) {
    exists r, c | 0 <= r < Size && 0 <= c < Size :: Owns(b, color, r, c)
  }

  // ---------------------------------------------------------------------
  // Directions, steps and jumps

  /** The four diagonals in the order games/damas/logic.py lists them. */
  const Diagonals: seq<Dir> := [Dir(-1, -1), Dir(-1, 1), Dir(1, -1), Dir(1, 1)]

  /** Row direction of a man of `color`: white moves up, black moves down. */
  function Forward(color: Color): int {
    if color == White then -1 else 1
  }

  function ForwardDirs(color: Color): seq<Dir> {
    if color == White then [Dir(-1, -1), Dir(-1, 1)] else [Dir(1, -1), Dir(1, 1)]
  }

  /** Directions a piece may step in: all four for a king, forward for a man. */
  function StepDirs(p: Piece): seq<Dir> {
    if p.king then Diagonals else ForwardDirs(p.color)
  }

  /** The neighbour of (r, c) in direction d is on the board and empty. */
  predicate CanStep(b: Board, r: int, c: int, d: Dir) {
    Inside(r + d.dr, c + d.dc) && At(b, r + d.dr, c + d.dc).None?
  }

  /** A piece of `color` on (r, c) can jump in direction d. */
  predicate CanJump(b: Board, r: int, c: int, color: Color, d: Dir) {
    && Inside(r + d.dr, c + d.dc)
    && Inside(r + 2 * d.dr, c + 2 * d.dc)
    && At(b, r + d.dr, c + d.dc).Some?
    && At(b, r + d.dr, c + d.dc).value.color != color
    && At(b, r + 2 * d.dr, c + 2 * d.dc).None?
  }

  /** The step of (r, c) in direction d. */
  function StepTo(r: int, c: int, d: Dir): Move {
    Simple(Pos(r + d.dr, c + d.dc))
  }

  /** The jump of (r, c) in direction d, over the neighbour onto the square beyond. */
  function JumpTo(r: int, c: int, d: Dir): Move {
    Capture(Pos(r + 2 * d.dr, c + 2 * d.dc), Pos(r + d.dr, c + d.dc))
  }

  /** The simple moves found by scanning `dirs` in order. */
  function SimpleAlong(b: Board, r: int, c: int, dirs: seq<Dir>): seq<Move>
    decreases |dirs|
  {
    if dirs == [] then []
    else
      var d := dirs[|dirs| - 1];
      SimpleAlong(b, r, c, dirs[..|dirs| - 1])
        + (if CanStep(b, r, c, d) then [StepTo(r, c, d)] else [])
  }

  /** The captures found by scanning `dirs` in order. */
  function JumpsAlong(b: Board, r: int, c: int, color: Color, dirs: seq<Dir>): seq<Move>
    decreases |dirs|
  {
    if dirs == [] then []
    else
      var d := dirs[|dirs| - 1];
      JumpsAlong(b, r, c, color, dirs[..|dirs| - 1])
        + (if CanJump(b, r, c, color, d) then [JumpTo(r, c, d)] else [])
  }

  /** Scanning one more direction appends that direction's step, if any. */
  lemma SimpleAlongNext(b: Board, r: int, c: int, dirs: seq<Dir>, i: int)
    requires 0 <= i < |dirs|
    ensures SimpleAlong(b, r, c, dirs[..i + 1])
         == SimpleAlong(b, r, c, dirs[..i]) + (if CanStep(b, r, c, dirs[i]) then [StepTo(r, c, dirs[i])] else [])
  {
    assert dirs[..i + 1][..i] == dirs[..i];
  }

  /** Scanning one more direction appends that direction's jump, if any. */
  lemma JumpsAlongNext(b: Board, r: int, c: int, color: Color, dirs: seq<Dir>, i: int)
    requires 0 <= i < |dirs|
    ensures JumpsAlong(b, r, c, color, dirs[..i + 1])
         == JumpsAlong(b, r, c, color, dirs[..i])
            + (if CanJump(b, r, c, color, dirs[i]) then [JumpTo(r, c, dirs[i])] else [])
  {
    assert dirs[..i + 1][..i] == dirs[..i];
  }

  /**
   * The moves of the piece on (r, c), ignoring whose turn it is: its captures
   * when it has any, its simple moves otherwise, none for an empty square.
   */
  function Moves(b: Board, r: int, c: int): seq<Move> {
    match At(b, r, c)
    case None => []
    case Some(p) =>
      var jumps := JumpsAlong(b, r, c, p.color, Diagonals);
      if jumps != [] then jumps else SimpleAlong(b, r, c, StepDirs(p))
  }

  /** Some move of `ms` is a capture (Python's `any(m["capture"] ...)`). */
  predicate HasCapture(ms: seq<Move>) {
    exists i :: 0 <= i < |ms| && ms[i].Capture?
  }

  /** The captures of `ms`, in order. */
  function CapturesIn(ms: seq<Move>): seq<Move>
    decreases |ms|
  {
    if ms == [] then []
    else CapturesIn(ms[..|ms| - 1]) + (if ms[|ms| - 1].Capture? then [ms[|ms| - 1]] else [])
  }

  /** The first move of `ms` whose destination is `to` (the search loop of `move`). */
  function FirstTo(ms: seq<Move>, to: Pos): Option<Move>
    decreases |ms|
  {
    if ms == [] then None
    else if ms[0].dest == to then Some(ms[0])
    else FirstTo(ms[1..], to)
  }

  /** A list of moves keyed by destination (a JavaScript `Map`, a Python dict). */
  function AsMap(ms: seq<Move>): map<Pos, Move>
    decreases |ms|
  {
    if ms == [] then map[]
    else AsMap(ms[..|ms| - 1])[ms[|ms| - 1].dest := ms[|ms| - 1]]
  }

  /** The capture entries of a move map. */
  function CaptureEntries(m: map<Pos, Move>): map<Pos, Move> {
    map k | k in m && m[k].Capture? :: m[k]
  }

  // ---------------------------------------------------------------------
  // Declarative descriptions of a legal move

  /** m is a one-square diagonal step of p from (r, c) onto an empty square. */
  predicate SimpleMoveOf(b: Board, r: int, c: int, p: Piece, m: Move) {
    && m.Simple?
    && Inside(m.dest.row, m.dest.col)
    && At(b, m.dest.row, m.dest.col).None?
    && (m.dest.col == c - 1 || m.dest.col == c + 1)
    && (if p.king then m.dest.row == r - 1 || m.dest.row == r + 1
        else m.dest.row == r + Forward(p.color))
  }

  /**
   * m is a jump of a `color` piece from (r, c) over the diagonal neighbour
   * m.jumped, which holds an opposing piece, onto the empty square beyond it.
   */
  predicate JumpOf(b: Board, r: int, c: int, color: Color, m: Move) {
    && m.Capture?
    && (m.jumped.row == r - 1 || m.jumped.row == r + 1)
    && (m.jumped.col == c - 1 || m.jumped.col == c + 1)
    && m.dest == Pos(2 * m.jumped.row - r, 2 * m.jumped.col - c)
    && Inside(m.jumped.row, m.jumped.col)
    && Inside(m.dest.row, m.dest.col)
    && Owns(b, Opponent(color), m.jumped.row, m.jumped.col)
    && At(b, m.dest.row, m.dest.col).None?
  }

  /** A piece of `color` on (r, c) has a capture in some diagonal. */
  predicate CanCapture(b: Board, r: int, c: int, color: Color) {
    || CanJump(b, r, c, color, Dir(-1, -1))
    || CanJump(b, r, c, color, Dir(-1, 1))
    || CanJump(b, r, c, color, Dir(1, -1))
    || CanJump(b, r, c, color, Dir(1, 1))
  }

  lemma {:induction false} SimpleAlongMember(b: Board, r: int, c: int, dirs: seq<Dir>, m: Move)
    ensures m in SimpleAlong(b, r, c, dirs)
        <==> exists d :: d in dirs && CanStep(b, r, c, d) && m == StepTo(r, c, d)
    decreases |dirs|
  {
    if dirs != [] {
      var init, d := dirs[..|dirs| - 1], dirs[|dirs| - 1];
      assert dirs == init + [d];
      SimpleAlongMember(b, r, c, init, m);
    }
  }

  lemma {:induction false} JumpsAlongMember(b: Board, r: int, c: int, color: Color, dirs: seq<Dir>, m: Move)
    ensures m in JumpsAlong(b, r, c, color, dirs)
        <==> exists d :: d in dirs && CanJump(b, r, c, color, d) && m == JumpTo(r, c, d)
    decreases |dirs|
  {
    if dirs != [] {
      var init, d := dirs[..|dirs| - 1], dirs[|dirs| - 1];
      assert dirs == init + [d];
      JumpsAlongMember(b, r, c, color, init, m);
    }
  }

  /** Every scan of the four diagonals, in any order, finds exactly the jumps. */
  lemma JumpsOfDiagonals(b: Board, r: int, c: int, color: Color, dirs: seq<Dir>, m: Move)
    requires forall d :: d in dirs <==> d in Diagonals
    ensures m in JumpsAlong(b, r, c, color, dirs) <==> JumpOf(b, r, c, color, m)
  {
    JumpsAlongMember(b, r, c, color, dirs, m);
    if JumpOf(b, r, c, color, m) {
      var d := Dir(m.jumped.row - r, m.jumped.col - c);
      assert d in Diagonals;
      assert CanJump(b, r, c, color, d);
    }
  }

  /** A scan of the four diagonals, in any order, finds a jump iff one exists. */
  lemma JumpsNonEmpty(b: Board, r: int, c: int, color: Color, dirs: seq<Dir>)
    requires forall d :: d in dirs <==> d in Diagonals
    ensures JumpsAlong(b, r, c, color, dirs) != [] <==> CanCapture(b, r, c, color)
  {
    var js := JumpsAlong(b, r, c, color, dirs);
    if CanCapture(b, r, c, color) {
      var d :| d in Diagonals && CanJump(b, r, c, color, d);
      JumpsAlongMember(b, r, c, color, dirs, JumpTo(r, c, d));
    }
    if js != [] {
      JumpsAlongMember(b, r, c, color, dirs, js[0]);
    }
  }

  /** The simple-move scan of a piece finds exactly its legal steps. */
  lemma SimpleOfPiece(b: Board, r: int, c: int, p: Piece, dirs: seq<Dir>, m: Move)
    requires forall d :: d in dirs <==> d in StepDirs(p)
    ensures m in SimpleAlong(b, r, c, dirs) <==> SimpleMoveOf(b, r, c, p, m)
  {
    SimpleAlongMember(b, r, c, dirs, m);
    if SimpleMoveOf(b, r, c, p, m) {
      var d := Dir(m.dest.row - r, m.dest.col - c);
      assert d in StepDirs(p);
      assert CanStep(b, r, c, d);
    }
  }

  /**
   * The moves of a piece: when it can capture, exactly its jumps (in any of
   * the four diagonals, men included); otherwise exactly its steps (forward
   * for a man, any diagonal for a king), always onto an empty square.
   */
  lemma MovesCharacterized(b: Board, r: int, c: int, m: Move)
    requires At(b, r, c).Some?
    ensures var p := At(b, r, c).value;
      m in Moves(b, r, c)
      <==> if CanCapture(b, r, c, p.color) then JumpOf(b, r, c, p.color, m)
           else SimpleMoveOf(b, r, c, p, m)
  {
    var p := At(b, r, c).value;
    JumpsNonEmpty(b, r, c, p.color, Diagonals);
    JumpsOfDiagonals(b, r, c, p.color, Diagonals, m);
    SimpleOfPiece(b, r, c, p, StepDirs(p), m);
  }

  /** A square has a simple move exactly when its piece cannot capture. */
  lemma MovesAreAllOneKind(b: Board, r: int, c: int)
    requires At(b, r, c).Some?
    ensures HasCapture(Moves(b, r, c)) <==> CanCapture(b, r, c, At(b, r, c).value.color)
    ensures CanCapture(b, r, c, At(b, r, c).value.color) ==> forall m :: m in Moves(b, r, c) ==> m.Capture?
    ensures !CanCapture(b, r, c, At(b, r, c).value.color) ==> forall m :: m in Moves(b, r, c) ==> m.Simple?
  {
    var p := At(b, r, c).value;
    var ms := Moves(b, r, c);
    forall m | m in ms
      ensures CanCapture(b, r, c, p.color) ==> m.Capture?
      ensures !CanCapture(b, r, c, p.color) ==> m.Simple?
    {
      MovesCharacterized(b, r, c, m);
    }
    if CanCapture(b, r, c, p.color) {
      JumpsNonEmpty(b, r, c, p.color, Diagonals);
      assert ms[0] in ms;
    }
  }

  /**
   * Every move of a piece starts from a square on the board, lands on an
   * empty square on the board, and a capture jumps over an opposing piece
   * on a third square.
   */
  lemma MoveSquares(b: Board, r: int, c: int, m: Move)
    requires m in Moves(b, r, c)
    ensures Inside(r, c) && At(b, r, c).Some?
    ensures Inside(m.dest.row, m.dest.col) && m.dest != Pos(r, c) && At(b, m.dest.row, m.dest.col).None?
    ensures m.Capture? ==> && Inside(m.jumped.row, m.jumped.col)
                           && m.jumped != m.dest && m.jumped != Pos(r, c)
                           && Owns(b, Opponent(At(b, r, c).value.color), m.jumped.row, m.jumped.col)
  {
    MovesCharacterized(b, r, c, m);
  }

  lemma {:induction false} CapturesInMember(ms: seq<Move>, m: Move)
    ensures m in CapturesIn(ms) <==> m in ms && m.Capture?
    decreases |ms|
  {
    if ms != [] {
      assert ms == ms[..|ms| - 1] + [ms[|ms| - 1]];
      CapturesInMember(ms[..|ms| - 1], m);
    }
  }

  lemma {:induction false} FirstToFound(ms: seq<Move>, to: Pos)
    ensures FirstTo(ms, to).Some? <==> exists i :: 0 <= i < |ms| && ms[i].dest == to
    ensures FirstTo(ms, to).Some? ==> FirstTo(ms, to).value in ms && FirstTo(ms, to).value.dest == to
    decreases |ms|
  {
    if ms != [] && ms[0].dest != to {
      FirstToFound(ms[1..], to);
      if exists i :: 0 <= i < |ms| && ms[i].dest == to {
        var i :| 0 <= i < |ms| && ms[i].dest == to;
        assert ms[1..][i - 1].dest == to;
      }
    }
  }

  /** A move map is keyed by the destinations of the list, and holds under each one a move of the list to it. */
  lemma {:induction false} AsMapMember(ms: seq<Move>, k: Pos)
    ensures k in AsMap(ms) <==> exists i :: 0 <= i < |ms| && ms[i].dest == k
    ensures k in AsMap(ms) ==> AsMap(ms)[k] in ms && AsMap(ms)[k].dest == k
    decreases |ms|
  {
    if ms != [] {
      var init := ms[..|ms| - 1];
      AsMapMember(init, k);
      assert ms == init + [ms[|ms| - 1]];
      if exists i :: 0 <= i < |ms| && ms[i].dest == k {
        var i :| 0 <= i < |ms| && ms[i].dest == k;
        if i < |ms| - 1 { assert init[i].dest == k; }
      }
    }
  }

  /** `AsMapMember` for every key at once, by moves rather than indices. */
  lemma AsMapKeys(ms: seq<Move>)
    ensures forall k :: k in AsMap(ms) <==> exists m :: m in ms && m.dest == k
    ensures forall k :: k in AsMap(ms) ==> AsMap(ms)[k] in ms && AsMap(ms)[k].dest == k
  {
    forall k
      ensures k in AsMap(ms) <==> exists m :: m in ms && m.dest == k
      ensures k in AsMap(ms) ==> AsMap(ms)[k] in ms && AsMap(ms)[k].dest == k
    {
      AsMapMember(ms, k);
      if exists m :: m in ms && m.dest == k {
        var m :| m in ms && m.dest == k;
        var i :| 0 <= i < |ms| && ms[i] == m;
      }
    }
  }

  /** Adding one move to the list files it under its destination. */
  lemma AsMapSnoc(ms: seq<Move>, m: Move)
    ensures AsMap(ms + [m]) == AsMap(ms)[m.dest := m]
  {
    assert (ms + [m])[..|ms|] == ms;
  }

  /** A move map is empty exactly when the list is. */
  lemma AsMapEmpty(ms: seq<Move>)
    ensures AsMap(ms) == map[] <==> ms == []
  {
    if ms != [] {
      assert ms[|ms| - 1].dest in AsMap(ms);
    }
  }

  /** Two moves of the same piece to the same square are the same move. */
  lemma MoveToUnique(b: Board, r: int, c: int, m1: Move, m2: Move)
    requires m1 in Moves(b, r, c) && m2 in Moves(b, r, c) && m1.dest == m2.dest
    ensures m1 == m2
  {
    MoveSquares(b, r, c, m1);
    MovesAreAllOneKind(b, r, c);
    MovesCharacterized(b, r, c, m1);
    MovesCharacterized(b, r, c, m2);
  }

  // ---------------------------------------------------------------------
  // Board scans: forced pieces, counts, movable pieces

  /** `color` owns (r, c) and that piece can capture. */
  predicate IsForced(b: Board, color: Color, r: int, c: int) {
    Owns(b, color, r, c) && CanCapture(b, r, c, color)
  }

  /** The test of `forced_pieces`: the piece's moves include a capture. */
  lemma IsForcedByMoves(b: Board, color: Color, r: int, c: int)
    ensures IsForced(b, color, r, c) <==> Owns(b, color, r, c) && HasCapture(Moves(b, r, c))
  {
    if Owns(b, color, r, c) {
      MovesAreAllOneKind(b, r, c);
    }
  }

  /** The piece p on (r, c) has an empty square to step to. */
  predicate HasStep(b: Board, r: int, c: int, p: Piece) {
    || CanStep(b, r, c, Dir(Forward(p.color), -1))
    || CanStep(b, r, c, Dir(Forward(p.color), 1))
    || (p.king && (CanStep(b, r, c, Dir(-Forward(p.color), -1)) || CanStep(b, r, c, Dir(-Forward(p.color), 1))))
  }

  /** `color` owns (r, c) and that piece can capture or step. */
  predicate Movable(b: Board, color: Color, r: int, c: int) {
    Owns(b, color, r, c) && (CanCapture(b, r, c, color) || HasStep(b, r, c, At(b, r, c).value))
  }

  /** No step is found along `dirs` exactly when none of its directions is open. */
  lemma {:induction false} SimpleAlongEmpty(b: Board, r: int, c: int, dirs: seq<Dir>)
    ensures SimpleAlong(b, r, c, dirs) == [] <==> forall i :: 0 <= i < |dirs| ==> !CanStep(b, r, c, dirs[i])
    decreases |dirs|
  {
    if dirs != [] {
      var init := dirs[..|dirs| - 1];
      SimpleAlongEmpty(b, r, c, init);
      assert forall i :: 0 <= i < |init| ==> init[i] == dirs[i];
    }
  }

  /** A piece has a simple move exactly when it has an empty square to step to. */
  lemma StepsNonEmpty(b: Board, r: int, c: int, p: Piece)
    ensures SimpleAlong(b, r, c, StepDirs(p)) != [] <==> HasStep(b, r, c, p)
  {
    var ds := StepDirs(p);
    SimpleAlongEmpty(b, r, c, ds);
    var f := Forward(p.color);
    if p.king {
      assert ds == [Dir(-f, -1), Dir(-f, 1), Dir(f, -1), Dir(f, 1)] || ds == [Dir(f, -1), Dir(f, 1), Dir(-f, -1), Dir(-f, 1)];
      assert (forall i :: 0 <= i < |ds| ==> !CanStep(b, r, c, ds[i]))
          <==> !CanStep(b, r, c, ds[0]) && !CanStep(b, r, c, ds[1]) && !CanStep(b, r, c, ds[2]) && !CanStep(b, r, c, ds[3]);
    } else {
      assert ds == [Dir(f, -1), Dir(f, 1)];
    }
  }

  /** The test of `has_any_moves`: the piece's move list is not empty. */
  lemma MovableByMoves(b: Board, color: Color, r: int, c: int)
    ensures Movable(b, color, r, c) <==> Owns(b, color, r, c) && Moves(b, r, c) != []
  {
    if Owns(b, color, r, c) {
      var p := At(b, r, c).value;
      JumpsNonEmpty(b, r, c, p.color, Diagonals);
      StepsNonEmpty(b, r, c, p);
    }
  }

  /** The squares (r, 0) .. (r, n-1) whose `color` piece must capture, left to right. */
  function ForcedInRow(b: Board, color: Color, r: int, n: nat): seq<Pos>
  {
    if n == 0 then []
    else ForcedInRow(b, color, r, n - 1) + (if IsForced(b, color, r, n - 1) then [Pos(r, n - 1)] else [])
  }

  /** The forced squares of rows 0 .. n-1 (columns 0 .. w-1), in row-major order. */
  function ForcedBefore(b: Board, color: Color, n: nat, w: nat): seq<Pos>
  {
    if n == 0 then [] else ForcedBefore(b, color, n - 1, w) + ForcedInRow(b, color, n - 1, w)
  }

  lemma {:induction false} ForcedInRowMember(b: Board, color: Color, r: int, n: nat, p: Pos)
    ensures p in ForcedInRow(b, color, r, n) <==> p.row == r && 0 <= p.col < n && IsForced(b, color, r, p.col)
    decreases n
  {
    if n > 0 {
      ForcedInRowMember(b, color, r, n - 1, p);
      assert p in ForcedInRow(b, color, r, n)
          <==> p in ForcedInRow(b, color, r, n - 1) || (IsForced(b, color, r, n - 1) && p == Pos(r, n - 1));
    }
  }

  lemma {:induction false} ForcedBeforeSound(b: Board, color: Color, n: nat, w: nat, p: Pos)
    ensures p in ForcedBefore(b, color, n, w) ==> 0 <= p.row < n && p in ForcedInRow(b, color, p.row, w)
    decreases n
  {
    if n > 0 {
      ForcedBeforeSound(b, color, n - 1, w, p);
      ForcedInRowMember(b, color, n - 1, w, p);
    }
  }

  lemma {:induction false} ForcedBeforeComplete(b: Board, color: Color, n: nat, w: nat, p: Pos)
    ensures 0 <= p.row < n && p in ForcedInRow(b, color, p.row, w) ==> p in ForcedBefore(b, color, n, w)
    decreases n
  {
    if n > 0 {
      ForcedBeforeComplete(b, color, n - 1, w, p);
    }
  }

  /** The squares whose `color` piece must capture, row by row (`forced_pieces`). */
  function Forced(b: Board, color: Color): seq<Pos> {
    ForcedBefore(b, color, Size, Size)
  }

  /**
   * A square is listed as forced exactly when it holds a `color` piece that
   * has a capture in some diagonal.
   */
  lemma ForcedMember(b: Board, color: Color, p: Pos)
    ensures p in Forced(b, color)
        <==> Inside(p.row, p.col) && Owns(b, color, p.row, p.col) && CanCapture(b, p.row, p.col, color)
  {
    ForcedBeforeSound(b, color, Size, Size, p);
    ForcedBeforeComplete(b, color, Size, Size, p);
    ForcedInRowMember(b, color, p.row, Size, p);
  }

  /** No square is forced exactly when no `color` piece can capture. */
  lemma ForcedEmpty(b: Board, color: Color)
    ensures Forced(b, color) == []
        <==> forall r, c :: Inside(r, c) && Owns(b, color, r, c) ==> !CanCapture(b, r, c, color)
  {
    if Forced(b, color) != [] {
      ForcedMember(b, color, Forced(b, color)[0]);
    }
    forall r, c | Inside(r, c) && Owns(b, color, r, c) && CanCapture(b, r, c, color)
      ensures Forced(b, color) != []
    {
      ForcedMember(b, color, Pos(r, c));
    }
  }

  /** How many of (r, 0) .. (r, n-1) hold a `color` piece. */
  function CountInRow(b: Board, color: Color, r: int, n: nat): nat
  {
    if n == 0 then 0 else CountInRow(b, color, r, n - 1) + (if Owns(b, color, r, n - 1) then 1 else 0)
  }

  /** How many squares of rows 0 .. n-1 (columns 0 .. w-1) hold a `color` piece. */
  function CountBefore(b: Board, color: Color, n: nat, w: nat): nat
  {
    if n == 0 then 0 else CountBefore(b, color, n - 1, w) + CountInRow(b, color, n - 1, w)
  }

  lemma {:induction false} CountInRowZero(b: Board, color: Color, r: int, n: nat)
    ensures CountInRow(b, color, r, n) == 0 <==> forall c :: 0 <= c < n ==> !Owns(b, color, r, c)
    decreases n
  {
    if n > 0 {
      CountInRowZero(b, color, r, n - 1);
    }
  }

  lemma {:induction false} CountBeforeZero(b: Board, color: Color, n: nat, w: nat)
    ensures CountBefore(b, color, n, w) == 0 <==> forall r, c :: 0 <= r < n && 0 <= c < w ==> !Owns(b, color, r, c)
    decreases n
  {
    if n > 0 {
      CountBeforeZero(b, color, n - 1, w);
      CountInRowZero(b, color, n - 1, w);
    }
  }

  /** Number of `color` pieces on the board. */
  function Count(b: Board, color: Color): nat {
    CountBefore(b, color, Size, Size)
  }

  /** The count of a colour is zero exactly when no square holds such a piece. */
  lemma CountZero(b: Board, color: Color)
    ensures Count(b, color) == 0 <==> !HasPiece(b, color)
  {
    CountBeforeZero(b, color, Size, Size);
  }

  /** How many of (r, 0) .. (r, n-1) hold a `color` piece that can move. */
  function MovableInRow(b: Board, color: Color, r: int, n: nat): nat
  {
    if n == 0 then 0 else MovableInRow(b, color, r, n - 1) + (if Movable(b, color, r, n - 1) then 1 else 0)
  }

  /** How many squares of rows 0 .. n-1 (columns 0 .. w-1) hold a `color` piece that can move. */
  function MovableBefore(b: Board, color: Color, n: nat, w: nat): nat
  {
    if n == 0 then 0 else MovableBefore(b, color, n - 1, w) + MovableInRow(b, color, n - 1, w)
  }

  lemma {:induction false} MovableInRowZero(b: Board, color: Color, r: int, n: nat)
    ensures MovableInRow(b, color, r, n) == 0 <==> forall c :: 0 <= c < n ==> !Movable(b, color, r, c)
    decreases n
  {
    if n > 0 {
      MovableInRowZero(b, color, r, n - 1);
    }
  }

  lemma {:induction false} MovableBeforeZero(b: Board, color: Color, n: nat, w: nat)
    ensures MovableBefore(b, color, n, w) == 0 <==> forall r, c :: 0 <= r < n && 0 <= c < w ==> !Movable(b, color, r, c)
    decreases n
  {
    if n > 0 {
      MovableBeforeZero(b, color, n - 1, w);
      MovableInRowZero(b, color, n - 1, w);
    }
  }

  /** Some `color` piece has a move (`has_any_moves`): the scan of the board finds one. */
  predicate AnyMoves(b: Board, color: Color) {
    MovableBefore(b, color, Size, Size) != 0
  }

  /** Some square holds a `color` piece that has a move. */
  ghost predicate SomeMovable(b: Board, color: Color) {
    exists r, c :: Inside(r, c) && Movable(b, color, r, c)
  }

  lemma AnyMovesMeaning(b: Board, color: Color)
    ensures AnyMoves(b, color) <==> SomeMovable(b, color)
  {
    MovableBeforeZero(b, color, Size, Size);
  }

  /**
   * The winner rule of `get_winner`: none on an empty board; the other side
   * when one side has no pieces; otherwise black when white cannot move,
   * then white when black cannot move.
   */
  function Winner(b: Board): Option<Color> {
    var whites := Count(b, White);
    var blacks := Count(b, Black);
    if whites == 0 && blacks == 0 then None
    else if whites == 0 then Some(Black)
    else if blacks == 0 then Some(White)
    else if !AnyMoves(b, White) then Some(Black)
    else if !AnyMoves(b, Black) then Some(White)
    else None
  }

  /** What each outcome of the winner rule says about the two sides. */
  lemma WinnerMeaning(b: Board)
    ensures Winner(b) == Some(White)
        <==> HasPiece(b, White)
             && (!HasPiece(b, Black) || (SomeMovable(b, White) && !SomeMovable(b, Black)))
    ensures Winner(b) == Some(Black)
        <==> HasPiece(b, Black) && (!HasPiece(b, White) || !SomeMovable(b, White))
    ensures Winner(b) == None
        <==> (!HasPiece(b, White) && !HasPiece(b, Black))
             || (HasPiece(b, White) && HasPiece(b, Black) && SomeMovable(b, White) && SomeMovable(b, Black))
  {
    CountZero(b, White);
    CountZero(b, Black);
    AnyMovesMeaning(b, White);
    AnyMovesMeaning(b, Black);
  }

  // ---------------------------------------------------------------------
  // Promotion and the starting position

  /** The far row of `color`: row 0 for white, row 7 for black. */
  predicate CrownRow(color: Color, row: int) {
    (color == White && row == 0) || (color == Black && row == Size - 1)
  }

  /** A man arriving on its far row is crowned; kings stay kings. */
  function Crowned(p: Piece, row: int): (q: Piece)
    ensures q.color == p.color
    ensures q.king <==> p.king || CrownRow(p.color, row)
  {
    if !p.king && CrownRow(p.color, row) then p.(king := true) else p
  }

  /** The starting cell: black men on rows 0-2, white men on rows 5-7, dark squares only. */
  function StartCell(r: int, c: int): Option<Piece> {
    if (r + c) % 2 == 1 then
      if r < 3 then Some(Piece(Black, false))
      else if r > 4 then Some(Piece(White, false))
      else None
    else None
  }

  function InitialBoard(): (b: Board)
    ensures WellFormed(b)
    ensures forall r, c :: At(b, r, c) == if Inside(r, c) then StartCell(r, c) else None
  {
    seq(Size, r => seq(Size, c => StartCell(r, c)))
  }

  /**
   * The starting position: every piece is a man on a dark square ((row + col)
   * odd), black exactly on the dark squares of rows 0-2, white exactly on
   * those of rows 5-7.
   */
  lemma InitialLayout(r: int, c: int)
    requires Inside(r, c)
    ensures At(InitialBoard(), r, c).Some? ==> (r + c) % 2 == 1 && !At(InitialBoard(), r, c).value.king
    ensures Owns(InitialBoard(), Black, r, c) <==> r < 3 && (r + c) % 2 == 1
    ensures Owns(InitialBoard(), White, r, c) <==> r > 4 && (r + c) % 2 == 1
  {
  }

  /** In the starting position no piece can capture: each neighbour is empty, a friend, or has no empty square behind it. */
  lemma InitialNoCapture(r: int, c: int, color: Color)
    requires Inside(r, c) && Owns(InitialBoard(), color, r, c)
    ensures !CanCapture(InitialBoard(), r, c, color)
  {
    InitialLayout(r, c);
  }

  /**
   * A row whose `color` pieces stand exactly on its dark squares, when `full`,
   * and nowhere otherwise, holds one of them in each pair of columns.
   */
  lemma {:induction false} DarkRowCount(b: Board, color: Color, r: int, k: nat, full: bool)
    requires forall c :: 0 <= c < 2 * k ==> (Owns(b, color, r, c) <==> full && (r + c) % 2 == 1)
    ensures CountInRow(b, color, r, 2 * k) == if full then k else 0
    decreases k
  {
    if k > 0 {
      DarkRowCount(b, color, r, k - 1, full);
      assert ((r + 2 * k - 2) % 2 == 1) != ((r + 2 * k - 1) % 2 == 1);
      assert CountInRow(b, color, r, 2 * k)
          == CountInRow(b, color, r, 2 * k - 2)
             + (if Owns(b, color, r, 2 * k - 2) then 1 else 0)
             + (if Owns(b, color, r, 2 * k - 1) then 1 else 0);
    }
  }

  /** In the starting position each row holds four men of its side and none of the other. */
  lemma InitialRowCount(color: Color, r: int)
    requires 0 <= r < Size
    ensures CountInRow(InitialBoard(), color, r, Size)
         == if (color == Black && r < 3) || (color == White && r > 4) then 4 else 0
  {
    var full := (color == Black && r < 3) || (color == White && r > 4);
    forall c | 0 <= c < Size
      ensures Owns(InitialBoard(), color, r, c) <==> full && (r + c) % 2 == 1
    {
      InitialLayout(r, c);
    }
    DarkRowCount(InitialBoard(), color, r, 4, full);
  }

  lemma {:induction false} InitialRowsCount(color: Color, n: nat)
    requires n <= Size
    ensures CountBefore(InitialBoard(), color, n, Size)
         == if color == Black then 4 * (if n < 3 then n else 3)
            else 4 * (if n > 5 then n - 5 else 0)
    decreases n
  {
    if n > 0 {
      InitialRowsCount(color, n - 1);
      InitialRowCount(color, n - 1);
    }
  }

  /** Each side starts with twelve men. */
  lemma InitialCounts()
    ensures Count(InitialBoard(), White) == 12
    ensures Count(InitialBoard(), Black) == 12
  {
    InitialRowsCount(White, Size);
    InitialRowsCount(Black, Size);
  }

  /** The starting position has no winner: both sides have men, and a man of each can step forward. */
  lemma InitialWinner()
    ensures Winner(InitialBoard()) == None
  {
    InitialCounts();
    InitialWhiteMoves();
    InitialBlackMoves();
  }

  /** The white man on (5, 0) can step onto the empty (4, 1). */
  lemma InitialWhiteMoves()
    ensures AnyMoves(InitialBoard(), White)
  {
    var b := InitialBoard();
    InitialLayout(5, 0);
    InitialLayout(4, 1);
    assert CanStep(b, 5, 0, Dir(-1, 1));
    assert Movable(b, White, 5, 0);
    AnyMovesMeaning(b, White);
  }

  /** The black man on (2, 1) can step onto the empty (3, 0). */
  lemma InitialBlackMoves()
    ensures AnyMoves(InitialBoard(), Black)
  {
    var b := InitialBoard();
    InitialLayout(2, 1);
    InitialLayout(3, 0);
    assert CanStep(b, 2, 1, Dir(1, -1));
    assert Movable(b, Black, 2, 1);
    AnyMovesMeaning(b, Black);
  }
}
