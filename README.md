# Console checkers and a falling-block game, modelled in Dafny

This project models two small C++ games and proves properties of them.

**Checkers** (`checkersGame.cpp`). An 8x8 board holds optional pieces. Each
piece has an owner (RED or BLACK), a king flag and its own record of its
row and column. The game object (`CheckersGame`) has these parts:

- The move predicates `isSimpleMoveValid` and `isJumpValid`.
- Generators that list the jumps of one piece, all jumps of the player to
  move and all simple moves of that player.
- `executeMove`: move, capture, stop for a multi-jump, otherwise king the
  piece and pass the turn.
- `checkForWin`.
- The `"A6 to B5"` notation read by `parseInput`.
- The checks `run()` makes between reading a line and executing the move.

**Tetris** (`tetris_game.cpp`). A 20x10 grid holds colour indices. The
seven tetrominoes have four rotations each, and each rotation is a 4x4 mask
of '0'/'1' characters. The game has these parts:

- Collision of a piece with the walls, the floor and locked blocks.
- Locking a piece into the grid.
- Spawning a piece, which also detects game over.
- Hard drop.
- The move/rotate rule of the key handler.
- Line clearing and its points table.
- One gravity step of the main loop.

The files:

- `checkers_board.dfy`: pieces and the board.
  - The source's `Piece*` cells become `Option<Piece>` values.
  - `Board` is a class whose `grid` field its methods reassign.
- `checkers_rules.dfy`: the rules as pure functions of a board value.
- `checkers_notation.dfy`: the move notation.
- `checkers_engine.dfy`: the `CheckersGame` class.
  - Each method with a loop is proved to compute the matching function of
    `checkers_rules.dfy`.
  - The turn loop of `run()` is proved against the pure functions `Step`
    and `Turn`.
- `tetris_shapes.dfy`: the tetromino table and `get_piece_block`.
- `tetris_board.dfy`: the playfield as a value.
  - Collision, stamping a piece, the landing row, line clearing and scoring.
  - The shift loop as written, which is a finding (see Findings).
- `tetris_game.dfy`: the global state as a `State` value with pure
  transitions, and a `Game` class whose methods run the source's loops.
  Each method is proved to perform its transition.
- `wrappers.dfy`: the `Option` type.

The source's input, randomness and clock become parameters:

- The lines a player types are a finite `seq<string>`.
- The piece type `rand()` would pick is a parameter of every operation that
  spawns a piece.
- A gravity step is an operation of its own, taken once the drop interval
  has elapsed.

The code differs from its own comments in three places. The model follows
the code each time:

- `parseInput` guards on a length of at least 7, but it reads the
  destination row at index 7 (checkersGame.cpp:393, 403).
  - A 7-character input therefore reads the string's terminator and fails
    the bounds check, so a parse needs at least 8 characters.
  - Modelled by `CharAt`, `ParseInput` and `SevenCharactersRejected`.
- After a capture with a further jump available, executeMove's message says
  the player must continue jumping from the landing square
  (checkersGame.cpp:339-344).
  - But run() only keeps the turn and the turn-start forced-jump flag
    (checkersGame.cpp:441-442, 484-490).
  - The continuation therefore accepts a valid jump by any of the player's
    pieces, not only by the piece that just jumped.
  - Modelled by `CheckersRules.Verdict`, `CheckersEngine.Step` and
    `CheckersEngine.Turn`, which take the flag computed once per turn and
    accept any own piece (`VerdictAccepts`).
- The comment at tetris_game.cpp:152 says the rows above a cleared line
  shift down, but the loop at line 153 tests the wrong counter. This one is
  a bug and is recorded under Findings.

## Model

| member | source | states |
|---|---|---|
| `CheckersBoard.Piece.MakeKing` | checkersGame.cpp:63-65 | the piece becomes a king; owner and position are kept |
| `CheckersBoard.Piece.SetPosition` | checkersGame.cpp:68-71 | the piece records the new row and column; owner and rank are kept |
| `CheckersBoard.NewPiece` | checkersGame.cpp:47 | a new piece has the given owner and cell and is not a king |
| `CheckersBoard.GetPiece` | checkersGame.cpp:159-165 | an off-board square reads as empty; an on-board square reads its cell |
| `CheckersBoard.InBounds` | checkersGame.cpp:206-208 | definition: a square is on the board iff its row and column are both 0-7; `GetPiece` reads every other square as empty |
| `CheckersBoard.MovedGrid` | checkersGame.cpp:168-177 | an empty origin changes nothing; otherwise the origin is emptied, the target holds the piece with its new position, and no other cell changes |
| `CheckersBoard.RemovedGrid` | checkersGame.cpp:180-186 | the square becomes empty and no other cell changes |
| `CheckersBoard.Board.constructor` | checkersGame.cpp:86-93 | every square is empty |
| `CheckersBoard.Board.InitializeBoard` | checkersGame.cpp:106-133 | clearing and the two placement loops leave exactly the initial layout, and keep the board invariant |
| `CheckersBoard.Board.MovePiece` | checkersGame.cpp:168-177 | the grid becomes `MovedGrid` of the old grid, and the invariant holds |
| `CheckersBoard.Board.RemovePiece` | checkersGame.cpp:180-186 | the grid becomes `RemovedGrid` of the old grid, and the invariant holds |
| `CheckersBoard.InitialSetup` | checkersGame.cpp:106-133 | the layout: a square holds a piece iff row + column is odd and the row is 0-2 or 5-7; BLACK holds rows 0-2 and RED rows 5-7; no piece is a king; each piece records its own cell; 12 pieces per side |
| `CheckersBoard.InitialRowCount` | checkersGame.cpp:116-131 | the first k cells of a starting row hold (k + r mod 2) / 2 pieces of its side and none of the other |
| `CheckersBoard.CountSetCell` | checkersGame.cpp:168-186 | writing one cell changes a side's count by what left that cell and what arrived there |
| `CheckersBoard.MovedGridCount` | checkersGame.cpp:168-177 | moving a piece never adds a piece to either side |
| `CheckersBoard.RemovedGridCount` | checkersGame.cpp:180-186 | removing a piece never adds a piece to either side |
| `CheckersRules.Opponent` | checkersGame.cpp:322-324 | RED passes to BLACK and BLACK to RED; the result is a real player other than the argument |
| `CheckersRules.IsSimpleMoveValid` | checkersGame.cpp:211-229 | valid iff the origin is occupied, the target is empty, both distances are 1, and a man moves forward (RED to a smaller row, BLACK to a larger one) |
| `CheckersRules.IsJumpValid` | checkersGame.cpp:233-261 | valid iff the origin is occupied, the target is empty, both distances are 2, the midpoint (with C++ truncating division) holds a piece of another real owner, and a man moves forward |
| `CheckersRules.SimpleAndJumpExclusive` | checkersGame.cpp:211-261 | no square pair is both a valid simple move and a valid jump |
| `CheckersRules.JumpsAlongMembers` | checkersGame.cpp:272-279 | the direction loop lists a move iff it is a legal on-board jump of that piece in one of the directions tried |
| `CheckersRules.PieceJumpsExactly` | checkersGame.cpp:264-281 | getPossibleJumpsForPiece lists exactly the legal on-board jumps of the piece |
| `CheckersRules.EmptySquareNoJumps` | checkersGame.cpp:266-267 | an empty square has no jumps, so the early return loses nothing |
| `CheckersRules.StepsAlongMembers` | checkersGame.cpp:306-314 | the direction loop lists a move iff it is a legal on-board simple move of that piece in one of the directions tried |
| `CheckersRules.PieceStepsExactly` | checkersGame.cpp:305-314 | the four diagonals give exactly the legal on-board simple moves of the piece |
| `CheckersRules.AllJumpsUpToMembers` | checkersGame.cpp:286-294 | after k cells of the row-major scan, the list holds exactly the legal jumps of the player's pieces on those cells |
| `CheckersRules.AllStepsUpToMembers` | checkersGame.cpp:301-317 | after k cells of the row-major scan, the list holds exactly the legal simple moves of the player's pieces on those cells |
| `CheckersRules.AllJumpsExactly` | checkersGame.cpp:284-296 | getAllPossibleJumps lists a move iff it is a legal jump of one of the player's pieces |
| `CheckersRules.AllSimpleMovesExactly` | checkersGame.cpp:299-319 | getAllPossibleSimpleMoves lists a move iff it is a legal simple move of one of the player's pieces |
| `CheckersRules.NoMovesIff` | checkersGame.cpp:382 | both generators are empty iff the player has no legal jump and no legal simple move |
| `CheckersRules.AfterMove` | checkersGame.cpp:328-335 | definition: the piece is moved, and when the row changes by 2 the square at the truncated midpoint is emptied; its effect is stated by `JumpEffect` and `StepEffect` |
| `CheckersRules.ContinuesJump` | checkersGame.cpp:331-344 | definition: the move was a jump and the piece on its landing square has a jump on the board after the capture |
| `CheckersRules.PromotedGrid` | checkersGame.cpp:347-357 | definition: a RED piece on row 0 or a BLACK piece on row 7 becomes a king; any other board is unchanged |
| `CheckersRules.ExecutedGrid` | checkersGame.cpp:327-361 | definition: the moved and captured board, kept as it is when the jump continues and promoted otherwise; `JumpEffect`, `StepEffect`, `ExecutedCount`, `ExecutedConsistent` and `ExecutedOnDark` state what it does |
| `CheckersRules.PlayerAfter` | checkersGame.cpp:339-361 | definition: the same player while the jump continues, the opponent otherwise |
| `CheckersRules.JumpEffect` | checkersGame.cpp:327-357 | a jump empties the origin and the midpoint, puts the mover on the target with its new position, and changes no other square; the mover is a king afterwards iff it was one, or it reached the far rank with no further jump |
| `CheckersRules.StepEffect` | checkersGame.cpp:327-357 | a simple move never continues; it empties the origin, puts the mover on the target (kinged iff it was a king or reached the far rank), and changes no other square |
| `CheckersRules.ExecutedCount` | checkersGame.cpp:327-335 | executeMove never adds a piece to either side |
| `CheckersRules.ExecutedConsistent` | checkersGame.cpp:327-357 | executeMove keeps every piece owned and aware of its own cell |
| `CheckersRules.DiagonalParity` | checkersGame.cpp:218 | a diagonal move keeps the colour of the square |
| `CheckersRules.DiagonalOnDark` | checkersGame.cpp:327-357 | a diagonal move of one or two squares keeps every piece on a dark square |
| `CheckersRules.OnDarkElsewhere` | checkersGame.cpp:119 | a grid that agrees with a dark-square grid except for one piece on a dark square is itself on dark squares |
| `CheckersRules.ExecutedOnDark` | checkersGame.cpp:327-357 | a validated move keeps every piece on a dark square |
| `CheckersRules.VerdictAccepts` | checkersGame.cpp:473-512 | a candidate is accepted iff it moves the player's own piece by a valid jump, or by a valid simple move when no jump is forced |
| `CheckersRules.AcceptedAreGenerated` | checkersGame.cpp:441-512 | with the forced flag computed on the current board, an on-board candidate is accepted iff it is among the generated jumps (when a jump exists) or the generated simple moves (otherwise) |
| `CheckersRules.MandatoryJumpRejectsSteps` | checkersGame.cpp:483-494 | when a jump is forced, even a valid simple move of one's own piece is rejected as "jump mandatory" |
| `CheckersRules.Verdict` | checkersGame.cpp:470-512 | definition: run()'s checks in source order: not the player's piece, then a jump forced but the row does not change by 2, then an invalid jump, then an invalid simple move; no rejection accepts (`VerdictAccepts`) |
| `CheckersNotation.ToUpper` | checkersGame.cpp:396 | only 'a'..'z' change, each to its upper-case letter |
| `CheckersNotation.ParseInput` | checkersGame.cpp:391-416 | succeeds iff the input has 8 or more characters, characters 2-5 are " to ", both squares are on the board and they differ; on success the coordinates are letter - 'A' and digit - '1' |
| `CheckersNotation.ParseFormat` | checkersGame.cpp:391-416 | every move between two different on-board squares is read back from its written form |
| `CheckersNotation.ParseLowerCase` | checkersGame.cpp:396-402 | lower-case column letters read as the upper-case ones |
| `CheckersNotation.SevenCharactersRejected` | checkersGame.cpp:393-403 | a 7-character input never parses |
| `CheckersNotation.TrailingTextIgnored` | checkersGame.cpp:391-416 | text after the eighth character does not change the parse |
| `CheckersEngine.WinnerCases` | checkersGame.cpp:365-388 | RED eliminated gives BLACK; otherwise BLACK eliminated gives RED; otherwise a player with no legal move loses to the opponent; otherwise there is no winner |
| `CheckersEngine.Winner` | checkersGame.cpp:365-388 | definition: BLACK when RED has no piece, else RED when BLACK has none, else the opponent when both generators are empty for the player to move, else no winner; `WinnerCases` ties the last case to the legal moves |
| `CheckersEngine.MoveStep` | checkersGame.cpp:470-512 | a rejection leaves board and player alone; a candidate is accepted iff the player's own piece makes a valid jump, or a valid simple move when no jump is forced; an accepted move executes and completes the turn iff it is not a continuing jump |
| `CheckersEngine.Step` | checkersGame.cpp:456-512 | "exit" or "quit" exits and nothing else does; anything but an accepted move changes nothing; a completed move passes the turn, and a continuing jump keeps it |
| `CheckersEngine.Turn` | checkersGame.cpp:454-513 | a turn reads at least one line unless the input runs out; the player to move changes iff the turn completes |
| `CheckersEngine.TurnGoesOn` | checkersGame.cpp:454-513 | a line that neither exits nor completes the turn lets the turn go on with the next line |
| `CheckersEngine.TurnEnds` | checkersGame.cpp:454-513 | a line that exits or completes the turn ends it after that line |
| `CheckersEngine.StepCount` | checkersGame.cpp:456-512 | no input line adds a piece to either side |
| `CheckersEngine.StepKeepsBoardInvariants` | checkersGame.cpp:456-512 | every input line keeps pieces aware of their cells and on dark squares |
| `CheckersEngine.TurnCount` | checkersGame.cpp:454-513 | no turn adds a piece to either side |
| `CheckersEngine.TurnKeepsBoardInvariants` | checkersGame.cpp:454-513 | every turn keeps pieces aware of their cells and on dark squares |
| `CheckersEngine.CheckersGame.constructor` | checkersGame.cpp:419 | an empty board, RED to move |
| `CheckersEngine.CheckersGame.GetPossibleJumpsForPiece` | checkersGame.cpp:264-281 | the loop returns `PieceJumps`, the legal on-board jumps of the piece, in direction order; the board is not changed |
| `CheckersEngine.CheckersGame.GetAllPossibleJumps` | checkersGame.cpp:284-296 | the nested scan returns `AllJumps` of the player to move; the board is not changed |
| `CheckersEngine.CheckersGame.PieceSimpleMoves` | checkersGame.cpp:306-314 | the direction loop returns `PieceSteps` of the piece |
| `CheckersEngine.CheckersGame.GetAllPossibleSimpleMoves` | checkersGame.cpp:299-319 | the nested scan returns `AllSimpleMoves` of the player to move; the board is not changed |
| `CheckersEngine.CheckersGame.SwitchPlayer` | checkersGame.cpp:322-324 | the player to move becomes the opponent |
| `CheckersEngine.CheckersGame.ExecuteMove` | checkersGame.cpp:327-362 | the board becomes `ExecutedGrid`; the result is true iff the move was a jump with a further jump from the landing square; the player changes iff it is false |
| `CheckersEngine.CheckersGame.CheckForWin` | checkersGame.cpp:365-388 | the counting loops and the generators give `Winner` of the board and the player to move |
| `CheckersEngine.CheckersGame.SubmitMove` | checkersGame.cpp:470-512 | outcome and new state are `MoveStep` of the old state |
| `CheckersEngine.CheckersGame.HandleLine` | checkersGame.cpp:456-512 | outcome and new state are `Step` of the old state |
| `CheckersEngine.CheckersGame.ReadLine` | checkersGame.cpp:454-467 | reading line k either ends the turn as `Turn` says, or leaves a state from which `Turn` of the remaining lines gives the same result |
| `CheckersEngine.CheckersGame.PlayTurn` | checkersGame.cpp:440-513 | with the forced flag computed once at the start of the turn, the lines read, how the turn ended and the new state are `Turn` of the old state |
| `CheckersEngine.CheckersGame.Run` | checkersGame.cpp:421-515 | a reported winner is `Winner` of the final board; neither side ever has more than 12 pieces; every piece stays on a dark square |
| `TetrisShapes.MaskLength` | tetris_game.cpp:28-43 | 7 pieces, 4 rotations each, every mask 16 characters long |
| `TetrisShapes.Shape` | tetris_game.cpp:28-43 | every mask has 16 characters and at least one block |
| `TetrisShapes.ShapeHasBlock` | tetris_game.cpp:28-43 | every mask has a block in its top two rows |
| `TetrisShapes.MaskDigits` | tetris_game.cpp:28-43 | every mask character is '0' or '1' |
| `TetrisShapes.GetPieceBlock` | tetris_game.cpp:64-66 | the character is '0' or '1', and it is '1' iff that mask cell is a block |
| `TetrisBoard.EmptyRow` | tetris_game.cpp:157 | ten cells, every one 0 (no block), so the row is not full |
| `TetrisBoard.EmptyBoard` | tetris_game.cpp:17 | twenty rows of ten cells, every cell 0, colours in range and no full row |
| `TetrisBoard.NoneStopsStep` | tetris_game.cpp:103-112 | each round of check_collision's loops adds one mask cell to the cells known not to stop the piece |
| `TetrisBoard.NoneStopsAll` | tetris_game.cpp:102-114 | after all sixteen mask cells, "no block stopped" means no collision |
| `TetrisBoard.Collides` | tetris_game.cpp:102-114 | definition: some block of the mask lies below the floor, beyond a side wall, or on a non-zero cell of the board, with rows above the top checked only against the walls; `CheckCollision` is proved to compute it |
| `TetrisBoard.FloorStops` | tetris_game.cpp:123-125 | a piece low enough always collides with the floor, so hard_drop's loop stops |
| `TetrisBoard.SpawnFits` | tetris_game.cpp:89-97 | when the top four rows are empty under the spawn columns, no piece collides at the spawn square |
| `TetrisBoard.LandingRow` | tetris_game.cpp:119-126 | the landing row R is at or below the start, the piece collides at R + 1, and it collides at no row in (start, R] |
| `TetrisBoard.LandingFits` | tetris_game.cpp:119-126 | a piece that fits where it is also fits where it lands |
| `TetrisBoard.StampedCells` | tetris_game.cpp:71-84 | locking writes the colour to every on-board cell under a block of the mask and leaves every other cell as it was |
| `TetrisBoard.StampedColours` | tetris_game.cpp:71-84 | locking a colour index 0-7 keeps every cell a colour index of the colour table |
| `TetrisBoard.StampedNothing` | tetris_game.cpp:71-72 | before the loops visit any cell, the board is unchanged |
| `TetrisBoard.StampStep` | tetris_game.cpp:74-82 | one round of the inner loop writes the cell under mask cell (pr, pc) iff it is a block on the board |
| `TetrisBoard.StampStepCell` | tetris_game.cpp:74-82 | in one round, only the cell under mask cell (pr, pc) can change |
| `TetrisBoard.Stamped` | tetris_game.cpp:71-84 | definition: lock_piece's board after all sixteen mask cells; `StampedCells` states which cells it writes and which it keeps |
| `TetrisBoard.Kept` | tetris_game.cpp:139-162 | the rows that are not full, in order: as many as the rows minus the full ones, none of them full, each from the input |
| `TetrisBoard.Cleared` | tetris_game.cpp:137-162 | the intended clearing: as many empty rows on top as there were full rows, then the other rows in order; the height is unchanged |
| `TetrisBoard.ClearedShape` | tetris_game.cpp:137-162 | clearing keeps the 20x10 shape and the colour range and leaves no full row |
| `TetrisBoard.SettledKept` | tetris_game.cpp:139-162 | a board with no full row keeps every row |
| `TetrisBoard.SettledUnchanged` | tetris_game.cpp:137-162 | on a board with no full row, clearing counts nothing and changes nothing |
| `TetrisBoard.ClearedIdempotent` | tetris_game.cpp:137-162 | clearing twice is clearing once |
| `TetrisBoard.FullRowsInBand` | tetris_game.cpp:139-162 | when the full rows lie in a 4-row band, at most 4 rows are counted |
| `TetrisBoard.AtMostFourLines` | tetris_game.cpp:71-84 | locking one piece on a board with no full row leaves at most four full rows |
| `TetrisBoard.MultiLineBonus` | tetris_game.cpp:164-171 | 2-4 lines in one move score more than that many single lines |
| `TetrisBoard.PointsMonotone` | tetris_game.cpp:164-171 | more lines in one move, up to four, never score fewer points |
| `TetrisBoard.Points` | tetris_game.cpp:164-171 | the points table 0, 100, 300, 500, 800 by lines cleared; no points iff no line or more than four |
| `TetrisBoard.ShiftNeverStops` | tetris_game.cpp:153-155 | the shift loop as written, for a full row r > 0, reads row -1 instead of finishing |
| `TetrisBoard.BottomRowReadsOutside` | tetris_game.cpp:153-155 | a full bottom row makes the loop as written read row -1 |
| `TetrisBoard.TopRowShiftFinishes` | tetris_game.cpp:153-155 | for a full row r, the loop as written finishes iff r is the top row 0, and then it leaves the rows unchanged |
| `TetrisBoard.ShiftAsWritten` | tetris_game.cpp:153-155 | definition: the shift loop as written, whose guard tests `r`; each round copies row rShift - 1 down, and the run ends either finished, at a read outside the rows, or out of fuel |
| `TetrisBoard.RemoveFullRow` | tetris_game.cpp:148-161 | removing a full row (the intended shift) keeps the invariant of the corrected clearing loop |
| `TetrisBoard.EmptyRowFirst` | tetris_game.cpp:152-157 | an empty row put on top adds no full row and stays first among the kept rows |
| `TetrisBoard.EmptyRowFirstCount` | tetris_game.cpp:152-157 | an empty row put on top adds no full row |
| `TetrisBoard.EmptyRowFirstKept` | tetris_game.cpp:152-157 | an empty row put on top stays first among the kept rows |
| `TetrisBoard.KeepRow` | tetris_game.cpp:139-147 | moving past a row that is not full keeps the loop invariant one row up |
| `TetrisGame.InitialValid` | tetris_game.cpp:17-25 | the initial globals satisfy the invariant |
| `TetrisGame.Spawn` | tetris_game.cpp:89-97 | definition: rotation 0, row 0, column 3 and the given type; game over is set when that piece collides and never cleared |
| `TetrisGame.Locked` | tetris_game.cpp:71-84 | definition: the board stamped with the current piece's mask in colour type + 1 at its row and column; `LockedSound` states what that keeps |
| `TetrisGame.LinesCleared` | tetris_game.cpp:137-172 | the board cleared as intended, the line count raised by the full rows and the score by their points; `ClearedSound` states what that gives |
| `TetrisGame.Settle` | tetris_game.cpp:129-131 | definition: lock, clear, then spawn the given type; `SettleSound` states what that keeps |
| `TetrisGame.HardDropped` | tetris_game.cpp:119-132 | definition: nothing when the game is over or paused, otherwise settle at `LandingRow`; `HardDropLands` and `HardDropPreserves` state its effect |
| `TetrisGame.Gravity` | tetris_game.cpp:348-364 | definition: nothing when paused or over; the piece moves down one row when that does not collide, otherwise it settles; `GravityPreserves` states its effect |
| `TetrisGame.AfterKey` | tetris_game.cpp:304-344 | definition: P toggles the pause; other keys do nothing while over or paused; Space hard-drops; the arrows take the requested position when it does not collide; `MoveRule`, `KeyPreserves` and `GameOverSticky` state its effect |
| `TetrisGame.SettleSound` | tetris_game.cpp:129-131 | lock, clear and spawn keep the invariant, clear 0-4 lines, add exactly the points for them, and set game over iff the new piece collides at the spawn square |
| `TetrisGame.LockedSound` | tetris_game.cpp:71-84 | locking keeps the shape and colours and leaves at most four full rows |
| `TetrisGame.ClearedSound` | tetris_game.cpp:137-172 | clearing leaves no full row, adds the cleared rows to the line count and their points to the score |
| `TetrisGame.HardDropStopped` | tetris_game.cpp:120 | hard_drop does nothing once the game is over or paused |
| `TetrisGame.HardDropLands` | tetris_game.cpp:119-131 | a running hard drop lands at the row R where the piece collides at R + 1 and at no row in (start, R]; the piece fits at R; the new board is the cleared board with the piece stamped at R |
| `TetrisGame.HardDropPreserves` | tetris_game.cpp:119-132 | hard_drop keeps the invariant and never lowers the score or the line count |
| `TetrisGame.GravityPreserves` | tetris_game.cpp:348-364 | a gravity step keeps the invariant and never lowers the score or the line count |
| `TetrisGame.MoveRule` | tetris_game.cpp:314-343 | a move or rotate key takes the requested position iff it does not collide, otherwise changes nothing, and never changes board, score or lines |
| `TetrisGame.KeyPreserves` | tetris_game.cpp:304-344 | every key press keeps the invariant and never lowers the score or the line count |
| `TetrisGame.GameOverSticky` | tetris_game.cpp:312 | once the game is over it stays over, and only the pause key changes anything |
| `TetrisGame.LineFull` | tetris_game.cpp:140-146 | the scan reports a row full iff no cell of it is 0 |
| `TetrisGame.ShiftDown` | tetris_game.cpp:152-157 | the corrected shift: rows 0..r-1 move down one, row r is dropped and row 0 is blanked |
| `TetrisGame.ClearFullRows` | tetris_game.cpp:138-162 | the row loop, with the corrected shift, returns the cleared board and the number of full rows |
| `TetrisGame.StampPiece` | tetris_game.cpp:72-83 | lock_piece's loops produce `Stamped` of the start board |
| `TetrisGame.StampCell` | tetris_game.cpp:75-81 | one round of the inner loop advances the board by one mask cell |
| `TetrisGame.Game.constructor` | tetris_game.cpp:17-25 | the initial globals, which satisfy the invariant |
| `TetrisGame.Game.CheckCollision` | tetris_game.cpp:102-114 | the result is true iff some block of the mask lies below the floor, beyond a side wall, or on a locked cell of the board, with rows above the top checked only against the walls; the board is not changed |
| `TetrisGame.Game.LockPiece` | tetris_game.cpp:71-84 | the board becomes `Stamped` of the old board with the current piece's mask and colour (type + 1) |
| `TetrisGame.Game.NewPiece` | tetris_game.cpp:89-97 | rotation 0, row 0, column 3; game over is set iff the piece collides there |
| `TetrisGame.Game.CheckAndClearLines` | tetris_game.cpp:137-172 | the state becomes `LinesCleared` of the old state |
| `TetrisGame.Game.DropRow` | tetris_game.cpp:122-125 | the loop returns `LandingRow` |
| `TetrisGame.Game.SettlePiece` | tetris_game.cpp:129-131 | lock, clear and spawn give `Settle` of the old state |
| `TetrisGame.Game.HardDrop` | tetris_game.cpp:119-132 | the state becomes `HardDropped` of the old state, and the invariant holds |
| `TetrisGame.Game.HandleKey` | tetris_game.cpp:304-344 | the state becomes `AfterKey` of the old state, and the invariant holds |
| `TetrisGame.Game.TryMove` | tetris_game.cpp:314-343 | the requested row, column and rotation are taken iff they do not collide; otherwise the position is unchanged |
| `TetrisGame.Game.GravityStep` | tetris_game.cpp:348-364 | the state becomes `Gravity` of the old state, and the invariant holds |

## Left out

- Console output and `std::cin` are not modelled: `displayBoard`, `getSymbol`, every message, and the banner of `run()`. The lines a player types are a finite list.
- When the input runs out, every further `std::getline` fails, and the inner loop goes on rejecting the same text: an empty line, or the last line again when the input did not end with a newline. The model ends the turn with `OutOfInput` instead.
- Heap management is left out: `new`/`delete` of `Piece*` and Board's destructor. A cell holds a piece value, so two cells can never share one piece.
- `main` and `std::ios_base::sync_with_stdio` are not modelled.
- The default `Piece()` constructor is not modelled, because no code path uses it.
- `CheckersEngine.CheckersGame.Run`: its contract covers the winner it reports and the board invariants it keeps. It does not state the sequence of turns as one function.
- The read-only methods (the generators and `CheckForWin`) assume only a well-formed grid, not the rest of the board invariant. This is the case because they never need it.
- The source scans a piece's four diagonals inline inside getAllPossibleSimpleMoves. In the model that per-piece loop is the method `PieceSimpleMoves`.
- `CheckersEngine.CheckersGame.GetAllPossibleJumps` and `GetAllPossibleSimpleMoves` state that they return `AllJumps` / `AllSimpleMoves`. That these lists hold exactly the legal moves is stated by `AllJumpsExactly` and `AllSimpleMovesExactly`.
- SFML is not modelled: rendering (`render_game`), the window, the font, the window-closed event and frame timing. The float gravity timer is not modelled either; a gravity step is taken when called.
- `rand()` and `srand` are not modelled. The spawned piece type is a parameter in 0..6.
- Each key press is one `HandleKey` call, and a gravity step is a separate `GravityStep` call. After a pause toggle, a hard drop, or a key ignored while over or paused, the source's `break` defers the rest of the frame's events to the next frame. So a gravity step and a redraw may run between two key presses, which calling the two methods in any order covers. Frames themselves are not modelled.
- `score` and `lines_cleared` are unbounded integers, so 32-bit overflow of `int` is not modelled. It would take millions of line clears.
- The source increments `lines_cleared` inside the row loop. The model adds the count once after the loop, which gives the same final value.
- The row-shift loop in check_and_clear_lines is modelled as written only as a finding (see Findings). Every other part of the model uses the intended shift.

## Findings

| source | as written | input that shows it | evidently intended | confidence | as-written member | corrected member |
|---|---|---|---|---|---|---|
| tetris_game.cpp:153 | the shift loop's guard tests `r > 0`, which its body never changes, so for a full row r > 0 the counter runs past 0 and row -1 is read | a board whose bottom row (19) is full: after 19 rounds the loop reads `board[-1]` | the guard tests the shift counter: rows 0..r-1 move down one, then row 0 is blanked | high, not executed | `TetrisBoard.BottomRowReadsOutside` | `TetrisGame.ClearFullRows` |
