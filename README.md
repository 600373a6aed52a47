# Kraw-Hub game rules in Dafny

Kraw-Hub is a small hub of browser and desktop games. This project models its
two rule engines, with each version modelled on its own source file.

**Checkers ("damas").** The game is played on an 8x8 board of optional
`{color, king}` pieces under a house rule set:
- men step one square diagonally forward and kings one square in any
  diagonal;
- every piece, men included, captures by a single jump in any of the four
  diagonals;
- capturing is mandatory;
- a man reaching the far row is crowned;
- a capture that did not crown and can be followed by another capture keeps
  the turn;
- a side without pieces or without moves loses.

There are five versions:

| module | source | what it is |
|---|---|---|
| `DamasLogic` | `games/damas/logic.py` | the canonical Python `CheckersGame` |
| `DamasSelection` | `games/damas/board.py` | its click/selection state machine |
| `DamasCanvas` | `kraw_hub/static/games/damas/web_build/script.js` | the canvas port, with global state |
| `DamasPhaser` | `games/damas/web_build/main.js` | the Phaser scene, with a locked-piece chain |
| `DamasPygame` | `damas/board.py` | the older pygame board, where men also capture only forward and crowning does not end a chain |

The shared rules live in `CheckersRules`: the board, the directions, move
generation, forced pieces, counts, the winner rule, crowning and the
opening position. `DamasScenarios` plays the positions of
`tests/test_damas_logic.py` through `DamasLogic`.

**Tetris.** A 20x10 board of colour cells and a falling piece. There are two
versions:
- `TetrisClassic` models `games/tetris/script.js`;
- `TetrisWeb` models `games/tetris/web_build/script.js`, which adds the
  hold/swap rule.

The grid code of the two scripts is line for line the same (collision,
merge, rotation, line clearing, scoring, the drop depth). It lives once, in
`TetrisGrid`. Its rows below cite the classic script. The same code sits in
the web build at:

| operation | lines |
|---|---|
| `collide` | 201-219 |
| `merge` | 221-233 |
| `rotate` | 235-246 |
| `clearLines` | 248-270 |

**How the model is built.**
- Each object the source updates in place is a Dafny `class` with the same
  fields. Each of its methods is tied to a pure function of the old state.
  For example, `CheckersGame.Move` ensures that `(State(), res)` equals
  `Play(old(State()), ...)`. The lemmas then state the source's promises
  about those functions.
- Loops over the grid (`valid_moves`, `forced_pieces`, `has_any_moves`,
  `countPieces`, `collide`, `merge`, `clearLines`, `hardDrop`) are `while`
  loops with invariants. Each is proved equal to a recursive specification
  function.
- Randomness (`Math.random` choosing the next piece type) is a `kind`
  parameter.
- The Phaser `isInside` is the shared `Inside` predicate.
- `games/damas/board.py`'s `get_winner` is the accessor
  `DamasSelection.Board.GetWinner`. The board's invariant keeps the
  engine's stored winner equal to the winner rule of its board.

## Model

| member | source | states |
|---|---|---|
| CheckersRules.Opponent | games/damas/logic.py:219-220 | the side the turn passes to is never the side that moved |
| CheckersRules.Put | games/damas/logic.py:195-196 | writing a board cell changes that cell and leaves every other cell as it was |
| CheckersRules.EmptyGrid | games/damas/logic.py:28-30 | the board is created 8x8 with every cell empty |
| CheckersRules.SimpleAlongMember | games/damas/logic.py:98-103 | a step is found exactly when one of the scanned directions leads to an empty square on the board |
| CheckersRules.JumpsAlongMember | games/damas/logic.py:105-122 | a capture is found exactly when a scanned direction has an opposing neighbour and an empty landing square, both on the board |
| CheckersRules.JumpsOfDiagonals | games/damas/logic.py:96-122 | scanning the four diagonals finds exactly the jumps over an adjacent opponent onto the empty square beyond, recording the jumped square |
| CheckersRules.JumpsNonEmpty | games/damas/logic.py:105-124 | the capture list is non-empty exactly when the piece can capture in some diagonal |
| CheckersRules.SimpleOfPiece | games/damas/logic.py:89-103 | steps go one square diagonally: white men to row-1, black men to row+1, kings either way, always onto an empty square on the board |
| CheckersRules.MovesCharacterized | games/damas/logic.py:82-124 | a piece's moves are its jumps when it can capture and its steps otherwise, in both directions of the iff |
| CheckersRules.MovesAreAllOneKind | games/damas/logic.py:124 | captures take precedence: the move list holds only captures when a capture exists and only steps when none does |
| CheckersRules.MoveSquares | games/damas/logic.py:98-122 | every move starts from an occupied square and ends on an empty square on the board; a capture's jumped square holds an opponent and differs from both ends |
| CheckersRules.CapturesInMember | games/damas/logic.py:213-216 | filtering keeps exactly the captures of a move list |
| CheckersRules.FirstToFound | games/damas/logic.py:182-189 | the chosen move exists exactly when some move ends on the target square, and it is one of the moves and ends there |
| CheckersRules.AsMapMember | kraw_hub/static/games/damas/web_build/script.js:187-213 | a move map keyed by destination has a key exactly for each destination in the list, holding a move of the list with that destination |
| CheckersRules.AsMapKeys | kraw_hub/static/games/damas/web_build/script.js:187-213 | the same, stated for all keys at once |
| CheckersRules.AsMapSnoc | kraw_hub/static/games/damas/web_build/script.js:192 | adding a move to the map sets its destination key and keeps the other keys |
| CheckersRules.AsMapEmpty | kraw_hub/static/games/damas/web_build/script.js:213 | the map is empty exactly when the list of moves is empty |
| CheckersRules.MoveToUnique | games/damas/logic.py:182-189 | two legal moves of a piece with the same destination are the same move, so finding by destination is unambiguous |
| CheckersRules.IsForcedByMoves | games/damas/logic.py:131-135 | a square is forced exactly when it holds a piece of the colour whose move list contains a capture |
| CheckersRules.StepsNonEmpty | games/damas/logic.py:89-103 | a piece has some step exactly when one of its forward (or, for a king, any) diagonal neighbours is empty and on the board |
| CheckersRules.MovableByMoves | games/damas/logic.py:138-145 | a square counts for `has_any_moves` exactly when it holds a piece of the colour with a non-empty move list |
| CheckersRules.ForcedMember | games/damas/logic.py:126-136 | the forced list holds exactly the on-board squares of the colour's pieces that can capture |
| CheckersRules.ForcedEmpty | games/damas/logic.py:126-136 | the forced list is empty exactly when no piece of the colour can capture |
| CheckersRules.CountZero | games/damas/logic.py:147-158 | the count of a colour is zero exactly when no square holds a piece of that colour |
| CheckersRules.AnyMovesMeaning | games/damas/logic.py:138-145 | `has_any_moves` is true exactly when some piece of the colour has a move |
| CheckersRules.WinnerMeaning | games/damas/logic.py:160-172 | white wins exactly when it has pieces and black has none or black is blocked while white can move; black wins exactly when it has pieces and white has none or white is blocked; there is no winner exactly when the board is empty or both sides have pieces and moves |
| CheckersRules.Crowned | games/damas/logic.py:198-205 | crowning keeps the colour; the piece is a king afterwards exactly when it was one or it reached its far row (row 0 for white, row 7 for black), so kings are never demoted |
| CheckersRules.InitialBoard | games/damas/logic.py:27-38 | the opening board is 8x8, with black men on the odd squares of rows 0-2, white men on those of rows 5-7, and nothing else |
| CheckersRules.InitialLayout | games/damas/logic.py:27-38 | in the opening position every piece is an uncrowned man on a square with (row+col) odd; black owns exactly those of rows 0-2 and white exactly those of rows 5-7 |
| CheckersRules.InitialNoCapture | games/damas/logic.py:27-38 | no piece has a capture in the opening position |
| CheckersRules.InitialRowCount | games/damas/logic.py:31-37 | each of the six occupied opening rows holds four pieces of its colour, and the other rows none |
| CheckersRules.InitialCounts | tests/test_damas_logic.py:8-15 | the opening position has 12 white and 12 black pieces |
| CheckersRules.InitialWinner | games/damas/logic.py:160-172 | the winner rule finds no winner in the opening position |
| CheckersParity.InitialOnDarkSquares | games/damas/logic.py:27-38 | every piece of the opening position stands on a square with (row+col) odd |
| CheckersParity.MoveParity | games/damas/logic.py:96-122 | a step changes row+col by 0 or 2 either way and a jump by 0 or 4, so a move lands on a square of the colour it leaves |
| CheckersParity.MovedOnDarkSquares | games/damas/logic.py:195-210 | emptying the source and a jumped square and filling a landing square of the source's colour keeps every piece on a (row+col)-odd square |
| DamasLogic.Landed | games/damas/logic.py:195-210 | after a move exactly three cells change: the destination holds the (possibly crowned) piece, the source is empty, and the jumped square of a capture is empty |
| DamasLogic.PlayAccepted | games/damas/logic.py:174-193 | an accepted move had no winner, a piece of the side to move, a legal move to the target, and was not a step while captures were forced |
| DamasLogic.PlayTurnedDown | games/damas/logic.py:174-193 | a refused move leaves the game unchanged; after a win the refusal carries the board, turn, winner and an empty forced list |
| DamasLogic.PlayGoesThrough | games/damas/logic.py:174-193 | a request that none of the checks turns down is played with the first move found to the target |
| DamasLogic.PlayRefusedOn | games/damas/logic.py:174-193 | `success` is false exactly when one of the checks fails; the game is then unchanged and the refusal carries the state exactly when there is a winner |
| DamasLogic.TurnedDownMeaning | games/damas/logic.py:174-193 | the checks fail exactly when there is a winner, the source is not the mover's, no legal move reaches the target, or the mover can capture somewhere but this piece cannot |
| DamasLogic.PlayRefusal | games/damas/logic.py:174-193 | `move` fails exactly in the four cases of the rules (winner set, wrong or empty source, target not among the moves, a step while a capture is forced), and a failure changes nothing |
| DamasLogic.PlayIsLegal | games/damas/logic.py:174-242 | a successful move is a legal move of a piece of the side to move to the reported square, and it is a capture whenever the side had one |
| DamasLogic.FinishReport | games/damas/logic.py:231-242 | the report carries the board after the move, the landing square as `selected`, the promoted flag, and the jumped square exactly for a capture |
| DamasLogic.PlayBoard | games/damas/logic.py:195-210 | a successful move puts the crowned piece on the target and empties the source and the captured opponent's square; `promoted` is true exactly when a man reached its far row; no other cell changes |
| DamasLogic.FinishChain | games/damas/logic.py:212-229 | `extra_capture` holds exactly after a non-crowning capture from whose landing square the piece can capture again; `next_moves` are exactly those captures; the turn flips otherwise; the winner is recomputed; `forced` is empty after a win, the landing square during a chain, and the new side's forced list otherwise |
| DamasLogic.CapturesFrom | games/damas/logic.py:212-216 | the follow-up captures are exactly the jumps of the landed piece, and they exist exactly when it can capture |
| DamasLogic.PlayChain | games/damas/logic.py:212-229 | the same chaining, turn, winner and forced-list rules stated for a whole successful `move` |
| DamasLogic.PlayKeepsWinner | games/damas/logic.py:174-222 | when the stored winner is the winner rule of the board, it still is after any `move`: a refusal changes nothing and a played move recomputes it on the new board |
| CheckersParity.PlayKeepsDarkSquares | games/damas/logic.py:174-210 | `move`, accepted or refused, keeps every piece on a square with (row+col) odd |
| DamasLogic.CreateInitialBoard | games/damas/logic.py:27-38 | the nested loops build the opening position |
| DamasLogic.InitialSnapshot | games/damas/logic.py:60-75 | right after a reset nothing is forced |
| DamasLogic.ScanSteps | games/damas/logic.py:98-103 | the step loop finds the steps of the scanned directions, in order |
| DamasLogic.ScanJumps | games/damas/logic.py:105-122 | the capture loop finds the jumps of the scanned directions, in order |
| DamasLogic.FindMove | games/damas/logic.py:182-189 | the search loop returns the first move ending on the target, or nothing |
| DamasLogic.KeepCaptures | games/damas/logic.py:212-216 | the filter loop keeps exactly the captures, in order |
| DamasLogic.CountBoard | games/damas/logic.py:147-158 | the counting loop returns the number of white and of black pieces |
| DamasLogic.CheckersGame.constructor | games/damas/logic.py:54-58 | a new game has the opening board, white to move and no winner |
| DamasLogic.CheckersGame.Reset | games/damas/logic.py:60-65 | reset restores the opening board, white to move and no winner, and returns a snapshot with nothing forced |
| DamasLogic.CheckersGame.TakeSnapshot | games/damas/logic.py:67-75 | the snapshot's forced list is empty once there is a winner and otherwise holds exactly the mover's pieces that can capture |
| DamasLogic.CheckersGame.PieceAt | games/damas/logic.py:77-80 | a square on the board returns its cell and a square off the board returns nothing |
| DamasLogic.CheckersGame.ValidMoves | games/damas/logic.py:82-124 | nothing for an empty square or, when the turn is respected and the game is not won, for a piece of the side not to move; the piece's legal moves otherwise |
| DamasLogic.CheckersGame.ForcedPieces | games/damas/logic.py:126-136 | the loops return the forced list of the given colour, or of the side to move when none is given |
| DamasLogic.CheckersGame.HasAnyMoves | games/damas/logic.py:138-145 | the loops answer whether some piece of the colour has a move |
| DamasLogic.CheckersGame.CountPieces | games/damas/logic.py:147-158 | the white and black piece counts of the current board |
| DamasLogic.CheckersGame.GetWinner | games/damas/logic.py:160-172 | the winner rule applied to the current board |
| DamasLogic.CheckersGame.Move | games/damas/logic.py:174-242 | the new state and the report are those of `Play`, whose refusal, board and chaining rules the lemmas above state |
| DamasLogic.CheckersGame.Commit | games/damas/logic.py:195-242 | playing an accepted move gives the state and report of `Apply` |
| DamasLogic.CheckersGame.Land | games/damas/logic.py:195-210 | the cell writes and the crowning produce the three-cell change of `Landed`, and `promoted` is true exactly when a man was crowned |
| DamasLogic.CheckersGame.Conclude | games/damas/logic.py:212-242 | the chain check, turn flip, winner and forced list produce the state and report of `Finish` |
| DamasScenarios.JumpBoard | tests/test_damas_logic.py:20-25 | the test board has a white man on (5, 0), black men on (4, 1) and (2, 3), and nothing else |
| DamasScenarios.ForcedCaptureScenario | tests/test_damas_logic.py:18-33 | on the test board with white to move, the forced list is exactly [(5, 0)], the jump over (4, 1) onto (3, 2) is offered, and the request to (4, 1) is refused with the game unchanged |
| DamasScenarios.FirstJumpScenario | tests/test_damas_logic.py:35-39 | the jump onto (3, 2) succeeds with `extra_capture`, `selected == [3, 2]`, the jump on to (1, 4) among `next_moves`, white still to move and no winner |
| DamasScenarios.MidCellsNoWinner | games/damas/logic.py:160-172 | after the first jump both sides can move, so there is no winner |
| DamasScenarios.SecondJumpScenario | tests/test_damas_logic.py:42-55 | the second jump onto (1, 4) succeeds without `extra_capture`, the turn passes to black, and white has won |
| DamasScenarios.EndCellsWinner | games/damas/logic.py:160-172 | a lone white man on (1, 4) cannot capture, and white is the winner |
| DamasScenarios.LoneWhiteScenario | tests/test_damas_logic.py:58-65 | a board with only a white man on (0, 1) has white as its winner |
| DamasSelection.OfferedAreMoves | games/damas/board.py:94-105 | a piece that may be selected is offered exactly its legal moves, and only captures when captures are forced |
| DamasSelection.SelectAfterWin | games/damas/board.py:62-64 | once the game is won a click changes nothing and returns False |
| DamasSelection.SelectWithSelection | games/damas/board.py:66-88 | with a piece selected: a square not offered, or a move the game refuses, clears the selection and returns False; an extra capture selects the landing square with exactly `next_moves` offered and returns False; a completed move plays the game's move, clears the selection and returns True |
| DamasSelection.SelectWithoutSelection | games/damas/board.py:90-106 | without a selection the game is untouched and False is returned; the square becomes selected exactly when it holds a piece of the side to move that can capture whenever the side can, and that has moves; its moves are offered keyed by destination |
| DamasSelection.CoherentMoveAccepted | games/damas/board.py:66-77 | a move offered by a coherent selection is always accepted by the game |
| DamasSelection.SelectKeepsCoherent | games/damas/board.py:62-106 | every click keeps the selection coherent: the selected square holds a piece of the side to move and every offered move is one of its legal moves, captures only when forced |
| DamasSelection.ContinuationCoherent | games/damas/board.py:79-84 | the selection set up for an extra capture is coherent with the game after the move |
| DamasSelection.Board.constructor | games/damas/board.py:13-17 | a new board wraps a new game in its opening position, with nothing selected |
| DamasSelection.Board.GetWinner | games/damas/board.py:108-109 | the winner returned is the winner rule of the current board |
| DamasSelection.Board.Select | games/damas/board.py:62-106 | the game, the selection and the result afterwards are those `SelectOn` gives, whose cases the lemmas above state |
| DamasCanvas.MoveMapMeaning | kraw_hub/static/games/damas/web_build/script.js:153-214 | the map of an occupied square is keyed by exactly the destinations of the piece's legal moves; it holds only captures when the piece can capture and only steps otherwise |
| DamasCanvas.RestartedMeaning | kraw_hub/static/games/damas/web_build/script.js:423-432 | a restarted game is consistent and has nothing forced |
| DamasCanvas.SelectPieceKeepsConsistent | kraw_hub/static/games/damas/web_build/script.js:375-402 | a square is selected exactly when it holds a piece of the side to move, there is no winner, the piece is in the forced list when that list is non-empty, and the piece has a legal move; any other square is refused and nothing changes; a selected piece is offered its move map, keyed by exactly its legal destinations, when nothing is forced, and otherwise only the capture entries, keyed by exactly its jumps; the board, turn, forced list and winner are kept |
| DamasCanvas.AttemptOutcome | kraw_hub/static/games/damas/web_build/script.js:330-373 | an offered target moves the (crowned) piece, clears its source and the jumped square, and changes no other cell; the piece stays selected exactly after a non-crowning capture that can continue, with the turn kept, nothing forced and exactly its jumps offered; otherwise the turn flips, the forced list is recomputed and a winner is recorded |
| DamasCanvas.ChainCaptures | kraw_hub/static/games/damas/web_build/script.js:350-355 | the capture-only map is non-empty exactly when the landed piece can capture, and is keyed by exactly its jumps' destinations |
| DamasCanvas.AttemptAgreesWithPlay | kraw_hub/static/games/damas/web_build/script.js:330-373 | when the selected piece belongs to the side to move and every offered move is a capture whenever that side can capture somewhere, an offered move gives the same board, turn and continuation as the Python rules' `move` on the same position (the invariant does not keep the second condition: see `ChainMissBypassesForcing`) |
| DamasCanvas.ChainMissBypassesForcing | kraw_hub/static/games/damas/web_build/script.js:330-402 | during a capture chain (forced list emptied, the selected piece able to capture), a click on a square not offered only drops the selection; another piece of the side may then be selected and offered its step, playing it moves the piece and passes the turn, while the Python `move` turns the same step down on the same board |
| DamasCanvas.ClickKeepsConsistent | kraw_hub/static/games/damas/web_build/script.js:404-421 | every click keeps the offered moves those of the selected piece |
| DamasCanvas.StepMap | kraw_hub/static/games/damas/web_build/script.js:187-194 | the step loop builds the map of the scanned directions' steps |
| DamasCanvas.JumpMap | kraw_hub/static/games/damas/web_build/script.js:196-211 | the capture loop builds the map of the scanned directions' jumps |
| DamasCanvas.CanvasGame.constructor | kraw_hub/static/games/damas/web_build/script.js:423-432 | the initial state is the restarted game |
| DamasCanvas.CanvasGame.GetValidMoves | kraw_hub/static/games/damas/web_build/script.js:153-214 | the map of the piece on the square, empty for an empty square |
| DamasCanvas.CanvasGame.GetForcedCaptures | kraw_hub/static/games/damas/web_build/script.js:216-230 | the loops list the forced squares of the colour in row-major order |
| DamasCanvas.CanvasGame.HasAnyMoves | kraw_hub/static/games/damas/web_build/script.js:232-244 | the loops answer whether some piece of the colour has a move |
| DamasCanvas.CanvasGame.GetWinner | kraw_hub/static/games/damas/web_build/script.js:246-268 | the counts and the winner rule applied to the board |
| DamasCanvas.CanvasGame.MovePiece | kraw_hub/static/games/damas/web_build/script.js:270-284 | the destination gets the crowned piece, the source is emptied, and the result is true exactly when a man was crowned by this move |
| DamasCanvas.CanvasGame.ResetSelection | kraw_hub/static/games/damas/web_build/script.js:319-322 | the selection and the offered moves are cleared, nothing else changes |
| DamasCanvas.CanvasGame.FinalizeTurn | kraw_hub/static/games/damas/web_build/script.js:324-328 | the turn flips and the forced list is recomputed for the new side |
| DamasCanvas.CanvasGame.AttemptMove | kraw_hub/static/games/damas/web_build/script.js:330-373 | the new state is that of `Attempt`, whose outcome the lemmas above state |
| DamasCanvas.CanvasGame.FollowUp | kraw_hub/static/games/damas/web_build/script.js:348-372 | after the cell writes the chain continues or the turn is finalised as `AfterLanding` says |
| DamasCanvas.CanvasGame.SelectPiece | kraw_hub/static/games/damas/web_build/script.js:375-402 | the new state is that of `SelectPieceOn` |
| DamasCanvas.CanvasGame.HandleClick | kraw_hub/static/games/damas/web_build/script.js:404-421 | a click is ignored after a win, attempts a move with a selection, and selects otherwise; consistency is kept |
| DamasCanvas.CanvasGame.RestartGame | kraw_hub/static/games/damas/web_build/script.js:423-432 | the state becomes the restarted game |
| DamasPhaser.MoveDirs | games/damas/web_build/main.js:284-287 | the step directions are the same set as the shared rules': all four for a king, the two forward ones for a man |
| DamasPhaser.ValidForMeaning | games/damas/web_build/main.js:275-322 | captures allowed freely give exactly the piece's legal moves; capture-only gives exactly its jumps; the capture list is non-empty exactly when it can capture |
| DamasPhaser.StepsAnyOrder | games/damas/web_build/main.js:293-302 | scanning the step directions in any order finds a step exactly when the piece has one |
| DamasPhaser.ScanMovable | games/damas/web_build/main.js:414-428 | a square counts for `playerHasAnyMoves` exactly when it holds a piece of the player with a step or a capture |
| DamasPhaser.ScanForced | games/damas/web_build/main.js:430-444 | a square counts for `playerHasCapture` exactly when it holds a piece of the player with a capture |
| DamasPhaser.AfterMove | games/damas/web_build/main.js:324-348 | the source and the captured square are emptied, the destination holds the crowned piece, no other cell changes |
| DamasPhaser.InitialConsistent | games/damas/web_build/main.js:49-72 | the scene created at start is consistent |
| DamasPhaser.SelectKeepsConsistent | games/damas/web_build/main.js:249-273 | selecting keeps the board, player and lock; with captures mandatory (a chain, or a capture anywhere for the side) the piece is selected exactly when it can capture, and otherwise exactly when it has a legal move; a piece with nothing to offer is refused and the scene is unchanged; a selected piece is offered exactly its jumps when captures are mandatory and exactly its legal moves otherwise |
| DamasPhaser.ValidForOffers | games/damas/web_build/main.js:275-281 | `getValidMoves` returns something exactly when the piece can capture (capture-only) or has a legal move (otherwise) |
| DamasPhaser.EndTurnMeaning | games/damas/web_build/main.js:388-402 | the game ends exactly when the opponent has no piece or no move, and the current player is then kept; otherwise the opponent moves; board and selection are untouched |
| DamasPhaser.EndTurnVersusWinner | games/damas/web_build/main.js:388-402 | judged against the full winner rule: a declared winner who can still move is also the rule's winner, and a turn passed means the mover has not won under the rule |
| DamasPhaser.ExecuteOutcome | games/damas/web_build/main.js:324-364 | an offered move produces the board of `AfterMove`; the chain lock is set exactly after a non-crowning capture whose piece can capture again, then selecting it with exactly its jumps offered; otherwise lock and selection are cleared and `endTurn` runs |
| DamasPhaser.LockedCaptures | games/damas/web_build/main.js:383-386 | the captures of a piece exist exactly when it can capture, and are exactly its jumps |
| DamasPhaser.ClickPlaysOffered | games/damas/web_build/main.js:239-246 | clicking the destination of an offered move executes that move |
| DamasPhaser.ChainLocksPiece | games/damas/web_build/main.js:220-247 | during a chain a click either changes nothing or executes one of the locked piece's offered captures |
| DamasPhaser.ClickKeepsConsistent | games/damas/web_build/main.js:220-247 | every click keeps the scene consistent: the lock and the chain flag agree, a chain offers exactly the locked piece's captures, and every offered move is legal |
| DamasPhaser.ExecuteAgreesWithPlay | games/damas/web_build/main.js:324-364 | an offered move gives the same board and continuation as the Python rules' `move`, and the same turn while the game goes on |
| DamasPhaser.GameScene.constructor | games/damas/web_build/main.js:35-59 | creating the scene sets the fresh state and places the opening pieces |
| DamasPhaser.GameScene.SetupState | games/damas/web_build/main.js:61-72 | the board is empty, white moves, nothing is selected or locked and the game is on |
| DamasPhaser.GameScene.PlaceInitialPieces | games/damas/web_build/main.js:102-126 | the loops put the opening position on the empty board |
| DamasPhaser.GameScene.ScanMoves | games/damas/web_build/main.js:283-322 | the two loops return the piece's steps and its captures |
| DamasPhaser.GameScene.GetValidMoves | games/damas/web_build/main.js:275-281 | capture-only returns the captures; otherwise captures take precedence over steps |
| DamasPhaser.GameScene.HasCaptureFrom | games/damas/web_build/main.js:383-386 | true exactly when the capture scan is non-empty |
| DamasPhaser.GameScene.PlayerHasPieces | games/damas/web_build/main.js:410-412 | true exactly when the player's count is non-zero |
| DamasPhaser.GameScene.PlayerHasAnyMoves | games/damas/web_build/main.js:414-428 | the loops answer whether some piece of the player has a move |
| DamasPhaser.GameScene.PlayerHasCapture | games/damas/web_build/main.js:430-444 | true exactly when the player's forced list is non-empty |
| DamasPhaser.GameScene.CountPieces | games/damas/web_build/main.js:504-515 | the loops count the player's pieces |
| DamasPhaser.GameScene.MaybePromote | games/damas/web_build/main.js:366-381 | the piece on the square is crowned on its far row; the result is true exactly when a man was crowned |
| DamasPhaser.GameScene.ClearSelection | games/damas/web_build/main.js:446-451 | selection and offered moves are cleared, nothing else changes |
| DamasPhaser.GameScene.SelectPiece | games/damas/web_build/main.js:249-273 | the new state is that of `SelectPieceOn` |
| DamasPhaser.GameScene.EndTurn | games/damas/web_build/main.js:388-402 | the new state is that of `EndTurnOn` |
| DamasPhaser.GameScene.ExecuteMove | games/damas/web_build/main.js:324-364 | the new state is that of `ExecuteOn` |
| DamasPhaser.GameScene.Conclude | games/damas/web_build/main.js:351-363 | the continuation or the end of the turn, as `ConcludeOn` says |
| DamasPhaser.GameScene.Shift | games/damas/web_build/main.js:325-347 | the cell writes give the three-cell change of the shared `Landed` |
| DamasPhaser.GameScene.HandleTileClick | games/damas/web_build/main.js:220-247 | the new state is that of `TileClickOn`, and consistency is kept |
| DamasPygame.InitialSquares | damas/board.py:18-27 | `create_board` puts pieces exactly where the opening position has them, with the same colours, as uncrowned men that know their squares |
| DamasPygame.ManDirsDistinct | damas/board.py:125-128 | a piece's directions are distinct diagonals |
| DamasPygame.ManDirsMeaning | damas/board.py:125-128 | a man uses exactly its two forward diagonals, and a king adds exactly the two opposite ones |
| DamasPygame.MovesAlongMember | damas/board.py:130-151 | with distinct diagonals, the dictionary holds an entry exactly when one direction yields it, so no entry is overwritten |
| DamasPygame.StepsMeaning | damas/board.py:134-137 | a None entry for k exists exactly when k is the empty on-board neighbour in one of the piece's directions |
| DamasPygame.JumpsMeaning | damas/board.py:138-149 | an entry k to j exists exactly when j is an opposing neighbour in one of the piece's directions and k the empty on-board square beyond |
| DamasPygame.MenCaptureForward | damas/board.py:125-149 | a man's capture lands two rows forward: men capture only forward in this version |
| DamasPygame.CaptureOnly | damas/board.py:77 | the capture-only dictionary keeps exactly the entries with a captured square, unchanged |
| DamasPygame.CaptureOnlyEmpty | damas/board.py:79 | the capture-only dictionary is empty exactly when there is no capture entry |
| DamasPygame.Promote | damas/board.py:44-48 | the moved piece records its new square, keeps its colour, and is a king exactly when it was or reached its far row |
| DamasPygame.EntryInside | damas/board.py:130-149 | every entry lies on the board, and the captured square of a capture entry holds a piece |
| DamasPygame.PickRespectsForced | damas/board.py:96-116 | without a selection the turn never ends; a piece is selected exactly when it is the mover's and it captures, or nothing is forced; under forced capture only its captures are offered, otherwise all its moves |
| DamasPygame.MissClearsSelection | damas/board.py:89-93 | a click off the offered squares clears the selection and returns False |
| DamasPygame.PlayMovesPiece | damas/board.py:62-72 | playing an offered square puts the promoted piece there, clears its old square and the captured square, and changes nothing else |
| DamasPygame.PlayContinuation | damas/board.py:74-88 | the turn goes on exactly after a capture from which the moved piece has another capture, even when it was just crowned; the selection is then kept with only captures offered; otherwise it is cleared |
| DamasPygame.SelectKeepsConsistent | damas/board.py:54-116 | every click keeps the board placed and the offered entries those of the selected piece |
| DamasPygame.Board.constructor | damas/board.py:6-10 | a new board holds the opening position with nothing selected |
| DamasPygame.Board.CreateBoard | damas/board.py:18-27 | the loops append the opening rows to the empty board |
| DamasPygame.Board.GetPiece | damas/board.py:38-39 | the cell of the square, whose piece knows that square |
| DamasPygame.Board.Move | damas/board.py:41-48 | the piece is relocated and promoted as `Relocate` and `Promote` say |
| DamasPygame.Board.GetValidMoves | damas/board.py:118-151 | the loop fills the dictionary of the piece's directions |
| DamasPygame.Board.GetForcedCaptures | damas/board.py:153-164 | true exactly when some piece of the colour has a capture entry |
| DamasPygame.Board.PlayOffered | damas/board.py:62-88 | playing an offered square gives the state and result of `Played` |
| DamasPygame.Board.Select | damas/board.py:54-116 | the state and result are those of `SelectOn`, and consistency is kept |
| TetrisGrid.BlankRow | games/tetris/script.js:61-65 | a new row has 10 empty cells |
| TetrisGrid.EmptyBoard | games/tetris/script.js:61-65 | `createBoard` gives 20 rows of 10 empty cells |
| TetrisGrid.ShapesOK | games/tetris/script.js:10-46 | each of the seven shapes is a rectangle of at most 4x4 entries with a filled entry, and has a colour |
| TetrisGrid.Rotated | games/tetris/script.js:165-168 | the rotation of an r x c matrix is c x r |
| TetrisGrid.RotatedOK | games/tetris/script.js:165-168 | rotating a well-formed shape gives a well-formed shape with the dimensions swapped |
| TetrisGrid.RotatedTwice | games/tetris/script.js:165-168 | two rotations turn the shape half around: entry (i, j) becomes entry (r-1-i, c-1-j) |
| TetrisGrid.RotatedClockwise | games/tetris/script.js:165-168 | the turn is clockwise: the L piece turns into `[[1, 1], [0, 1], [0, 1]]` and not into the counter-clockwise `[[1, 0], [1, 0], [1, 1]]` |
| TetrisGrid.RotatedFourTimes | games/tetris/script.js:165-168 | four rotations give back the shape |
| TetrisGrid.FreeMeansEmptyUnder | games/tetris/script.js:131-149 | a placement without collision has every filled entry between the side walls and above the floor, and every one on the board over an empty cell |
| TetrisGrid.AboveTopNeverOverlaps | games/tetris/script.js:131-149 | a piece wholly above the top collides exactly when it sticks out sideways: cells above the top never overlap |
| TetrisGrid.PaintCell | games/tetris/script.js:154-159 | one step of `merge` keeps the board 20x10 |
| TetrisGrid.PaintedCells | games/tetris/script.js:151-163 | after `merge` has visited some entries, exactly the visited filled entries on the board show the colour, and every other cell is unchanged |
| TetrisGrid.MergedCells | games/tetris/script.js:151-163 | after `merge`, exactly the cells under filled entries with y >= 0 hold the colour, and every other cell is unchanged |
| TetrisGrid.MergedBlocksPiece | games/tetris/script.js:151-163 | after `merge` the piece collides where it stands whenever one of its cells is on the board |
| TetrisGrid.MergedRowsOutside | games/tetris/script.js:151-163 | rows outside the piece's rows are untouched by `merge` |
| TetrisGrid.BlankRowNotFull | games/tetris/script.js:189 | the rows put on top by `clearLines` are not full |
| TetrisGrid.EmptyNoFullRow | games/tetris/script.js:61-65 | the new board has no full row |
| TetrisGrid.FullCount | games/tetris/script.js:178-192 | the number of full rows is at most the number of rows |
| TetrisGrid.Blanks | games/tetris/script.js:189 | n blank rows |
| TetrisGrid.KeptAppend | games/tetris/script.js:178-192 | keeping the non-full rows preserves their order: it commutes with concatenation, and so does the count of full rows |
| TetrisGrid.KeptMeaning | games/tetris/script.js:178-192 | the kept rows are exactly the non-full ones, and kept plus removed rows add up to all rows |
| TetrisGrid.NoFullKeptAll | games/tetris/script.js:178-192 | a board without a full row is kept as it is and nothing is cleared |
| TetrisGrid.ClearedMeaning | games/tetris/script.js:178-192 | after clearing, the board is still 20x10 with no full row; the removed count of blank rows is on top, followed by the non-full rows in their order |
| TetrisGrid.MergedFullRows | games/tetris/script.js:151-192 | merging a piece into a board without a full row creates at most as many full rows as the piece has rows, so at most 4 and the score table is never indexed beyond 4 |
| TetrisGrid.CreditMeaning | games/tetris/script.js:194-200 | after clearing n lines, `lines` grows by n, `score` by the table entry times the old level, the level follows the line count and never drops, and the drop interval follows the level between 100 and 1000 and never grows |
| TetrisGrid.StartTracks | games/tetris/script.js:258-265 | the starting counters (score 0, level 1, lines 0, interval 1000) are in step |
| TetrisGrid.DropDepthMeaning | games/tetris/script.js:219-223 | the hard-drop loop stops at the drop depth: every row down to it is free, and the next one collides |
| TetrisGrid.DropDepthUnique | games/tetris/script.js:219-223 | the drop depth is the only depth with that property |
| TetrisGrid.LandingFits | games/tetris/script.js:219-223 | the landed piece still fits between the walls and above the floor |
| TetrisGrid.RemoveFullRow | games/tetris/script.js:188-191 | removing the full row under scan and putting a blank row on top keeps the scan invariant, and the index stays on the row that slid down |
| TetrisGrid.KeepRow | games/tetris/script.js:181-185 | a row that is not full is passed over and the invariant holds one row up |
| TetrisGrid.ClearRows | games/tetris/script.js:178-192 | the splice/unshift loop produces the cleared board (blank rows on top of the kept rows in order) and counts exactly the full rows |
| TetrisGrid.PaintRow | games/tetris/script.js:153-161 | the inner loop of `merge` paints one row of the shape |
| TetrisClassic.CreatePiece | games/tetris/script.js:67-75 | a new piece is well-formed and fits on the board |
| TetrisClassic.SpawnPlacement | games/tetris/script.js:67-75 | the piece has the shape and colour of its type, stands on row 0 at column floor(10/2) - floor(width/2), centred to within one column, and does not collide on an empty board |
| TetrisClassic.SettleOn | games/tetris/script.js:207-208 | after merging and clearing, the board is 20x10 with no full row and the counters are in step |
| TetrisClassic.LandedPlayable | games/tetris/script.js:219-223 | the hard-drop descent keeps the game playable |
| TetrisClassic.StartPlayable | games/tetris/script.js:258-267 | the started game is playable |
| TetrisClassic.MoveKeepsPlayable | games/tetris/script.js:228-232 | `move` changes at most the piece's column, only to a collision-free one, and keeps the game playable |
| TetrisClassic.RotateKeepsPlayable | games/tetris/script.js:165-176 | `rotate` either keeps the shape or takes the rotation with dimensions swapped, and keeps the game playable |
| TetrisClassic.LockOutcome | games/tetris/script.js:203-217 | locking leaves the cleared merged board, at most 4 cleared lines, the next piece current, a newly drawn next piece, the lines and score credited, and game over exactly when it was over or the new piece collides |
| TetrisClassic.DropKeepsPlayable | games/tetris/script.js:203-217 | `drop` keeps the game playable |
| TetrisClassic.HardDropLands | games/tetris/script.js:219-223 | the descent moves the piece straight down by d >= 0 rows, each free, the next one blocked, adds 2d points, and changes nothing else |
| TetrisClassic.HardDropLocks | games/tetris/script.js:219-226 | a hard drop is the descent followed by a lock of the landed piece |
| TetrisClassic.Game.constructor | games/tetris/script.js:258-267 | the started game: empty board, two drawn pieces, starting counters, not over |
| TetrisClassic.Game.Collide | games/tetris/script.js:131-149 | the loops answer whether the shifted piece collides |
| TetrisClassic.Game.Merge | games/tetris/script.js:151-163 | the board becomes the merged board; nothing else changes |
| TetrisClassic.Game.ClearLines | games/tetris/script.js:178-200 | the board becomes the cleared board, and the counters are credited for the removed lines when there are any |
| TetrisClassic.Game.Settle | games/tetris/script.js:207-208 | merge then clear lines |
| TetrisClassic.Game.Spawn | games/tetris/script.js:209-215 | the next piece becomes current, a new one is drawn, and the game ends if the new current piece collides |
| TetrisClassic.Game.Lock | games/tetris/script.js:206-216 | the state becomes that of `LockOn`, whose outcome `LockOutcome` states |
| TetrisClassic.Game.Drop | games/tetris/script.js:203-217 | the state becomes that of `DropOn`, and the game stays playable |
| TetrisClassic.Game.DropStep | games/tetris/script.js:203-217 | the piece falls one row when free and locks otherwise |
| TetrisClassic.Game.Fall | games/tetris/script.js:219-223 | the state becomes that of `Landed` |
| TetrisClassic.Game.Descend | games/tetris/script.js:219-223 | the loop lowers the piece by exactly the drop depth and adds 2 points per row |
| TetrisClassic.Game.HardDrop | games/tetris/script.js:219-226 | the state becomes that of `HardDropOn` |
| TetrisClassic.Game.Move | games/tetris/script.js:228-232 | the state becomes that of `MoveOn` |
| TetrisClassic.Game.Rotate | games/tetris/script.js:165-176 | the state becomes that of `RotateOn` |
| TetrisWeb.CreatePiece | games/tetris/web_build/script.js:94-103 | a new piece is well-formed, records its type and fits on the board |
| TetrisWeb.SpawnPlacement | games/tetris/web_build/script.js:94-103 | the piece has the shape, colour and type asked for, stands on row 0 at column floor(10/2) - floor(width/2), and does not collide on an empty board |
| TetrisWeb.SettleOn | games/tetris/web_build/script.js:277-278 | after merging and clearing, the board is 20x10 with no full row and the counters are in step |
| TetrisWeb.LandedPlayable | games/tetris/web_build/script.js:291-295 | the hard-drop descent keeps the game playable |
| TetrisWeb.StartPlayable | games/tetris/web_build/script.js:370-381 | the started game, with nothing held and holding allowed, is playable |
| TetrisWeb.MoveKeepsPlayable | games/tetris/web_build/script.js:300-304 | `move` changes at most the piece's column, only to a collision-free one, and keeps the game playable |
| TetrisWeb.RotateKeepsPlayable | games/tetris/web_build/script.js:235-246 | `rotate` either keeps the shape or takes the rotation with dimensions swapped, and keeps the game playable |
| TetrisWeb.LockOutcome | games/tetris/web_build/script.js:273-289 | locking leaves the cleared merged board, at most 4 cleared lines, the next piece current, a new next piece, the held piece kept, holding allowed again, the counters credited, and game over exactly when it was over or the new piece collides |
| TetrisWeb.DropKeepsPlayable | games/tetris/web_build/script.js:273-289 | `drop` keeps the game playable |
| TetrisWeb.HardDropLands | games/tetris/web_build/script.js:291-295 | the descent moves the piece straight down by d >= 0 free rows onto a blocked one, adds 2d points and changes nothing else |
| TetrisWeb.HardDropLocks | games/tetris/web_build/script.js:291-298 | a hard drop is the descent followed by a lock of the landed piece |
| TetrisWeb.HoldKeepsPlayable | games/tetris/web_build/script.js:306-343 | holding keeps the game playable and never touches the board, the counters or the game-over flag |
| TetrisWeb.HoldOncePerLock | games/tetris/web_build/script.js:306-343 | after a hold, holding is disabled and a second hold changes nothing; an allowed hold parks the current piece's type |
| TetrisWeb.HoldExchange | games/tetris/web_build/script.js:309-339 | the first hold takes the next piece and draws a new one; a later hold keeps the next piece, re-spawns the held type unrotated at the spawn position, and only swaps the two types |
| TetrisWeb.SwapBack | games/tetris/web_build/script.js:320-339 | two swaps with holding re-enabled between them give back the original piece type freshly spawned, the original held piece and the same next piece |
| TetrisWeb.Game.constructor | games/tetris/web_build/script.js:370-381 | the started game: empty board, two drawn pieces, nothing held, holding allowed, starting counters, not over |
| TetrisWeb.Game.Collide | games/tetris/web_build/script.js:201-219 | the loops answer whether the shifted piece collides |
| TetrisWeb.Game.Merge | games/tetris/web_build/script.js:221-233 | the board becomes the merged board; nothing else changes |
| TetrisWeb.Game.ClearLines | games/tetris/web_build/script.js:248-270 | the board becomes the cleared board, and the counters are credited for the removed lines when there are any |
| TetrisWeb.Game.Settle | games/tetris/web_build/script.js:277-278 | merge then clear lines |
| TetrisWeb.Game.Spawn | games/tetris/web_build/script.js:279-287 | the next piece becomes current, a new one is drawn, holding is allowed again, and the game ends if the new piece collides |
| TetrisWeb.Game.Lock | games/tetris/web_build/script.js:276-288 | the state becomes that of `LockOn`, whose outcome `LockOutcome` states |
| TetrisWeb.Game.Drop | games/tetris/web_build/script.js:273-289 | the state becomes that of `DropOn`, and the game stays playable |
| TetrisWeb.Game.DropStep | games/tetris/web_build/script.js:273-289 | the piece falls one row when free and locks otherwise |
| TetrisWeb.Game.Fall | games/tetris/web_build/script.js:291-295 | the state becomes that of `Landed` |
| TetrisWeb.Game.Descend | games/tetris/web_build/script.js:291-295 | the loop lowers the piece by exactly the drop depth and adds 2 points per row |
| TetrisWeb.Game.HardDrop | games/tetris/web_build/script.js:291-298 | the state becomes that of `HardDropOn` |
| TetrisWeb.Game.HoldCurrentPiece | games/tetris/web_build/script.js:306-343 | the state becomes that of `HoldOn`, whose rules the hold lemmas state, and the game stays playable |
| TetrisWeb.Game.Move | games/tetris/web_build/script.js:300-304 | the state becomes that of `MoveOn` |
| TetrisWeb.Game.Rotate | games/tetris/web_build/script.js:235-246 | the state becomes that of `RotateOn` |

## Left out

- Drawing, sprites, tweens, highlights, HUD and scoreboard text, overlays, flash messages and their timers: they are user interface with no game state.
- Canvas click coordinates, pygame and Phaser event loops, Tetris key handlers with key repeat, and the keybinding dialog with its storage are input plumbing. The model starts at the row and column (or the action) they deliver.
- The Tetris `ArrowDown` key handler, which adds one point per soft drop, is input plumbing of this kind and is not modelled. `drop` is.
- `requestAnimationFrame` loops, pause and timestamps: a drop is an explicit step.
- `Math.random` in `createPiece` is the `kind` parameter of each operation that draws a piece.
- String keys (`toKey`/`fromKey`) and the dictionaries of `_serialize_board`/`to_payload` are not modelled. Squares are integer pairs and moves are the `Simple | Capture` datatype. A snapshot carries the board as a value.
- The pygame `Piece` object is folded into the cell value `Man(row, col, color, king)`. `ROWS`/`COLS` come from a `constants.py` that is not part of this model; they are taken as 8.
- Aliasing of piece objects: the sources mutate a piece (`king`, `row`, `col`) after storing it in a cell. The model stores the updated piece value in the destination cell, so no other reference to the piece is modelled.
- In-place `splice`/`unshift` and cell writes on the Tetris board are modelled on a `seq` of rows that the method reassigns. The loops work on a local copy, which then replaces the field.
- TetrisClassic.Game.Merge: requires that the piece fits between the walls and above the floor. Its only caller, `Settle`, holds this through `PieceOK` of the current piece, part of `Playable` and so of `Valid()`; the source would write outside the board otherwise.
- TetrisWeb.Game.Merge: the same precondition as the classic `Merge`, held the same way through `PieceOK` in `Valid()`. This includes a piece brought in by the hold, which may overlap the stack but still lies inside the walls.
- TetrisClassic.Game.ClearLines: requires at most 4 full rows. The caller proves this with `MergedFullRows`, since the score table has five entries.
- TetrisWeb.Game.ClearLines: the same precondition as the classic `ClearLines`.
- DamasPygame.Board.Select: requires the clicked square to be on the board. The event loop only delivers squares on the board.
- In the pygame version, a piece with no moves may still be selected when nothing is forced; the model follows this. The version has no winner rule.
- In `games/damas/board.py` and the canvas port, clicking away in the middle of a capture chain drops the selection, and the turn is not switched. The model follows this.
- In the canvas port this also lifts the forced-capture rule for the rest of the turn: a chain empties `forcedPieces`, a miss leaves it empty, and `selectPiece` then offers another piece's steps although the chain piece can still capture. The model follows this and states it in `ChainMissBypassesForcing`. No corrected canvas engine is modelled.
- DamasCanvas.AttemptAgreesWithPlay: requires that only captures are offered whenever the side to move can capture. The canvas invariant does not keep this after a missed click in a chain, and there the two engines disagree, as the line above says.
- The web `holdCurrentPiece` does not test whether the swapped-in piece collides. The model follows this, so `HoldOn` can place a piece over filled cells. `Playable` does not claim otherwise.
- The Flappy Bird game, the hub's page script, web serving and the game registry are outside these rule engines.
