/**
 * The global game state of tetris_game.cpp and its updates: spawning,
 * locking, line clearing, hard drop, the key handler's move/rotate rule and
 * one gravity step. Each is a pure transition on a State value, and the
 * Game class runs the source's loops and is proved to perform them.
 */
module TetrisGame {
  import opened TetrisShapes
  import opened TetrisBoard

  /** The keys the event loop reacts to; any other key moves nothing. */
  datatype Key = PauseKey | Left | Right | Down | Up | Space | OtherKey

  /** The globals of tetris_game.cpp. */
  datatype State = State(
    board: Cells,
    score: int,
    linesCleared: int,
    pieceType: int,
    rotation: int,
    row: int,
    col: int,
    gameOver: bool,
    isPaused: bool)

  /**
   * What every step keeps: a well-formed board of colour indices with no
   * full row, a valid piece, and, while the game runs, a falling piece that
   * overlaps nothing.
   */
  predicate Inv(s: State)
  {
    && WellFormed(s.board) && ColoursInRange(s.board) && Settled(s.board)
    && ValidPiece(s.pieceType, s.rotation)
    && (!s.gameOver ==> !Collides(s.board, Shape(s.pieceType, s.rotation), s.row, s.col))
  }

  /** The initial values of the globals. */
  function Initial(): State
  {
    State(EmptyBoard(), 0, 0, 0, 0, 0, SpawnCol, false, false)
  }

  lemma InitialValid()
    ensures Inv(Initial())
  {
    SpawnFits(EmptyBoard(), Shape(0, 0));
  }

  /** new_piece with the type rand() would have chosen. */
  function Spawn(s: State, t: int): State
    requires WellFormed(s.board) && 0 <= t < PieceCount
  {
    s.(pieceType := t, rotation := 0, row := 0, col := SpawnCol,
       gameOver := s.gameOver || Collides(s.board, Shape(t, 0), 0, SpawnCol))
  }

  /** lock_piece. */
  function Locked(s: State): State
    requires WellFormed(s.board) && ValidPiece(s.pieceType, s.rotation)
  {
    s.(board := Stamped(s.board, Shape(s.pieceType, s.rotation), s.pieceType + 1, s.row, s.col))
  }

  /** check_and_clear_lines, with the row shift it intends. */
  function LinesCleared(s: State): (r: State)
    requires WellFormed(s.board)
    ensures WellFormed(r.board)
  {
    ClearedShape(s.board);
    var k := FullCount(s.board);
    s.(board := Cleared(s.board), linesCleared := s.linesCleared + k, score := s.score + Points(k))
  }

  /** lock_piece, check_and_clear_lines, new_piece: what ends the fall of a piece. */
  function Settle(s: State, next: int): State
    requires WellFormed(s.board) && ValidPiece(s.pieceType, s.rotation) && 0 <= next < PieceCount
  {
    Spawn(LinesCleared(Locked(s)), next)
  }

  /** hard_drop. */
  function HardDropped(s: State, next: int): State
    requires WellFormed(s.board) && ValidPiece(s.pieceType, s.rotation) && 0 <= next < PieceCount
  {
    if s.gameOver || s.isPaused then s
    else Settle(s.(row := LandingRow(s.board, Shape(s.pieceType, s.rotation), s.row, s.col)), next)
  }

  /** One gravity step of the main loop (lines 348-364) once the interval has elapsed. */
  function Gravity(s: State, next: int): State
    requires WellFormed(s.board) && ValidPiece(s.pieceType, s.rotation) && 0 <= next < PieceCount
  {
    if s.isPaused || s.gameOver then s
    else if !Collides(s.board, Shape(s.pieceType, s.rotation), s.row + 1, s.col) then s.(row := s.row + 1)
    else Settle(s, next)
  }

  predicate IsMove(key: Key)
  {
    key == Left || key == Right || key == Down || key == Up
  }

  /** The (row, column, rotation) a move or rotate key asks for. */
  function Requested(s: State, key: Key): (int, int, int)
  {
    match key
    case Left => (s.row, s.col - 1, s.rotation)
    case Right => (s.row, s.col + 1, s.rotation)
    case Down => (s.row + 1, s.col, s.rotation)
    case Up => (s.row, s.col, (s.rotation + 1) % RotationCount)
    case _ => (s.row, s.col, s.rotation)
  }

  /** One key press in the event loop (lines 304-344). */
  function AfterKey(s: State, key: Key, next: int): State
    requires WellFormed(s.board) && ValidPiece(s.pieceType, s.rotation) && 0 <= next < PieceCount
  {
    if key == PauseKey then s.(isPaused := !s.isPaused)
    else if s.gameOver || s.isPaused then s
    else if key == Space then HardDropped(s, next)
    else if !IsMove(key) then s
    else
      var target := Requested(s, key);
      if Collides(s.board, Shape(s.pieceType, target.2), target.0, target.1) then s
      else s.(row := target.0, col := target.1, rotation := target.2)
  }

  // ---------------------------------------------------------------- properties

  /**
   * The end of a fall keeps the invariant, clears at most four lines, and
   * adds exactly the points of the table for them; game over is set exactly
   * when the new piece collides at the spawn square.
   */
  lemma SettleSound(s: State, next: int)
    requires WellFormed(s.board) && ColoursInRange(s.board) && Settled(s.board)
    requires ValidPiece(s.pieceType, s.rotation) && 0 <= next < PieceCount
    ensures Inv(Settle(s, next))
    ensures 0 <= Settle(s, next).linesCleared - s.linesCleared <= 4
    ensures Settle(s, next).score - s.score == Points(Settle(s, next).linesCleared - s.linesCleared)
    ensures Settle(s, next).gameOver <==> s.gameOver || Collides(LinesCleared(Locked(s)).board, Shape(next, 0), 0, SpawnCol)
  {
    LockedSound(s);
    ClearedSound(Locked(s));
  }

  /** lock_piece keeps the board's shape and colours and fills at most four rows. */
  lemma LockedSound(s: State)
    requires WellFormed(s.board) && ColoursInRange(s.board) && Settled(s.board)
    requires ValidPiece(s.pieceType, s.rotation)
    ensures WellFormed(Locked(s).board) && ColoursInRange(Locked(s).board) && FullCount(Locked(s).board) <= 4
  {
    var m := Shape(s.pieceType, s.rotation);
    StampedColours(s.board, m, s.pieceType + 1, s.row, s.col);
    AtMostFourLines(s.board, m, s.pieceType + 1, s.row, s.col);
  }

  /** check_and_clear_lines leaves no full row, counts the rows it clears and scores them by the table. */
  lemma ClearedSound(s: State)
    requires WellFormed(s.board) && ColoursInRange(s.board)
    ensures ColoursInRange(LinesCleared(s).board) && Settled(LinesCleared(s).board)
    ensures LinesCleared(s).linesCleared == s.linesCleared + FullCount(s.board)
    ensures LinesCleared(s).score == s.score + Points(FullCount(s.board))
  {
    ClearedShape(s.board);
  }

  /** hard_drop does nothing once the game is over or paused. */
  lemma HardDropStopped(s: State, next: int)
    requires WellFormed(s.board) && ValidPiece(s.pieceType, s.rotation) && 0 <= next < PieceCount
    requires s.gameOver || s.isPaused
    ensures HardDropped(s, next) == s
  {
  }

  /**
   * A running hard drop locks the piece at the row R where it lands: the
   * piece collides one row further down and at no row between its start and
   * R; the new board is the cleared board with the piece stamped at R.
   */
  lemma HardDropLands(s: State, next: int)
    requires Inv(s) && !s.gameOver && !s.isPaused && 0 <= next < PieceCount
    ensures var landing := LandingRow(s.board, Shape(s.pieceType, s.rotation), s.row, s.col);
      && s.row <= landing
      && Collides(s.board, Shape(s.pieceType, s.rotation), landing + 1, s.col)
      && !Collides(s.board, Shape(s.pieceType, s.rotation), landing, s.col)
      && (forall k :: s.row < k <= landing ==> !Collides(s.board, Shape(s.pieceType, s.rotation), k, s.col))
      && HardDropped(s, next).board == Cleared(Stamped(s.board, Shape(s.pieceType, s.rotation), s.pieceType + 1, landing, s.col))
  {
    var m := Shape(s.pieceType, s.rotation);
    var landing := LandingRow(s.board, m, s.row, s.col);
    LandingFits(s.board, m, s.row, s.col);
    var dropped := s.(row := landing);
    assert Locked(dropped).board == Stamped(s.board, m, s.pieceType + 1, landing, s.col);
    assert HardDropped(s, next).board == LinesCleared(Locked(dropped)).board;
  }

  lemma HardDropPreserves(s: State, next: int)
    requires Inv(s) && 0 <= next < PieceCount
    ensures Inv(HardDropped(s, next))
    ensures HardDropped(s, next).score >= s.score && HardDropped(s, next).linesCleared >= s.linesCleared
  {
    if !s.gameOver && !s.isPaused {
      SettleSound(s.(row := LandingRow(s.board, Shape(s.pieceType, s.rotation), s.row, s.col)), next);
    }
  }

  /** A gravity step moves the piece down one row when that fits, and otherwise ends its fall. */
  lemma GravityPreserves(s: State, next: int)
    requires Inv(s) && 0 <= next < PieceCount
    ensures Inv(Gravity(s, next))
    ensures Gravity(s, next).score >= s.score && Gravity(s, next).linesCleared >= s.linesCleared
  {
    if !s.isPaused && !s.gameOver && Collides(s.board, Shape(s.pieceType, s.rotation), s.row + 1, s.col) {
      SettleSound(s, next);
    }
  }

  /**
   * The move/rotate rule: a running game takes the requested position
   * exactly when it does not collide; otherwise nothing changes. Board,
   * score and lines never change.
   */
  lemma MoveRule(s: State, key: Key, next: int)
    requires WellFormed(s.board) && ValidPiece(s.pieceType, s.rotation) && 0 <= next < PieceCount
    requires IsMove(key) && !s.gameOver && !s.isPaused
    ensures var after, target := AfterKey(s, key, next), Requested(s, key);
      && after.board == s.board && after.score == s.score && after.linesCleared == s.linesCleared
      && ((after.row, after.col, after.rotation) == target <==>
          !Collides(s.board, Shape(s.pieceType, target.2), target.0, target.1))
      && (Collides(s.board, Shape(s.pieceType, target.2), target.0, target.1) ==> after == s)
  {
    assert Requested(s, key) != (s.row, s.col, s.rotation);
  }

  lemma KeyPreserves(s: State, key: Key, next: int)
    requires Inv(s) && 0 <= next < PieceCount
    ensures Inv(AfterKey(s, key, next))
    ensures AfterKey(s, key, next).score >= s.score && AfterKey(s, key, next).linesCleared >= s.linesCleared
  {
    if key == Space {
      HardDropPreserves(s, next);
    }
  }

  /** Once the game is over, only the pause key changes anything, and the game stays over. */
  lemma GameOverSticky(s: State, key: Key, next: int)
    requires WellFormed(s.board) && ValidPiece(s.pieceType, s.rotation) && 0 <= next < PieceCount
    requires s.gameOver
    ensures AfterKey(s, key, next).gameOver
    ensures key != PauseKey ==> AfterKey(s, key, next) == s
    ensures Gravity(s, next) == s && HardDropped(s, next) == s
  {
  }

  // ---------------------------------------------------------------- line clearing

  /** The full-row test of check_and_clear_lines: scan the row for an empty cell. */
  method LineFull(row: Row) returns (full: bool)
    ensures full == Full(row)
  {
    full := true;
    for c := 0 to |row|
      invariant forall j :: 0 <= j < c ==> row[j] != 0
    {
      if row[c] == 0 {
        full := false;
        break;
      }
    }
  }

  /**
   * The shift of check_and_clear_lines for a full row r, with the loop
   * stopping at row 0: rows 0..r-1 move down one and row 0 is blanked.
   */
  method ShiftDown(rows: Cells, r: int) returns (shifted: Cells)
    requires 0 <= r < |rows|
    ensures shifted == RemoveRow(rows, r)
  {
    shifted := rows;
    var rShift := r;
    while rShift > 0
      invariant 0 <= rShift <= r && |shifted| == |rows|
      invariant forall k :: rShift < k <= r ==> shifted[k] == rows[k - 1]
      invariant forall k :: 0 <= k <= rShift || r < k < |rows| ==> shifted[k] == rows[k]
    {
      shifted := shifted[rShift := shifted[rShift - 1]];
      rShift := rShift - 1;
    }
    shifted := shifted[0 := EmptyRow()];
    assert shifted == RemoveRow(rows, r);
  }

  /**
   * The row loop of check_and_clear_lines: from the bottom row up, a full
   * row is removed and the same row index examined again; returns the new
   * rows and how many were cleared.
   */
  method ClearFullRows(start: Cells) returns (rows: Cells, clearedInMove: nat)
    requires WellFormed(start)
    ensures rows == Cleared(start) && clearedInMove == FullCount(start)
  {
    rows := start;
    clearedInMove := 0;
    var r := BoardHeight - 1;
    assert rows[..r + 1] == rows && rows[r + 1..] == [];
    while r >= 0
      invariant -1 <= r < BoardHeight && |rows| == BoardHeight
      invariant clearedInMove + FullCount(rows[..r + 1]) == FullCount(start)
      invariant EmptyRows(FullCount(rows[..r + 1])) + Kept(rows[..r + 1]) + rows[r + 1..] == Cleared(start)
      decreases r + 1 + FullCount(rows[..r + 1])
    {
      var lineFull := LineFull(rows[r]);
      if lineFull {
        clearedInMove := clearedInMove + 1;
        RemoveFullRow(rows, r);
        rows := ShiftDown(rows, r);
        // the source's r++ and the loop's --r examine row r again
      } else {
        KeepRow(rows, r);
        r := r - 1;
      }
    }
    assert rows[..r + 1] == [] && rows[r + 1..] == rows;
  }

  // ---------------------------------------------------------------- locking

  /** The loops of lock_piece on the board `start`, for piece `t` in rotation `rot` at (r, c). */
  method StampPiece(start: Cells, t: int, rot: int, r: int, c: int) returns (cells: Cells)
    requires WellFormed(start) && ValidPiece(t, rot)
    ensures cells == Stamped(start, Shape(t, rot), t + 1, r, c)
  {
    cells := start;
    StampedNothing(start, Shape(t, rot), t + 1, r, c);
    for pr := 0 to 4
      invariant cells == StampedUpTo(start, Shape(t, rot), t + 1, r, c, pr * 4)
    {
      for pc := 0 to 4
        invariant cells == StampedUpTo(start, Shape(t, rot), t + 1, r, c, pr * 4 + pc)
      {
        cells := StampCell(start, cells, t, rot, r, c, pr, pc);
      }
    }
  }

  /** One round of lock_piece's inner loop: colour the board cell under mask cell (pr, pc) if it is a block on the board. */
  method StampCell(start: Cells, cells: Cells, t: int, rot: int, r: int, c: int, pr: int, pc: int)
    returns (next: Cells)
    requires WellFormed(start) && ValidPiece(t, rot) && 0 <= pr < 4 && 0 <= pc < 4
    requires cells == StampedUpTo(start, Shape(t, rot), t + 1, r, c, pr * 4 + pc)
    ensures next == StampedUpTo(start, Shape(t, rot), t + 1, r, c, pr * 4 + pc + 1)
  {
    StampStep(start, Shape(t, rot), t + 1, r, c, pr, pc);
    next := cells;
    var pieceColor := t + 1;
    if GetPieceBlock(t, rot, pr, pc) == '1' {
      var br := r + pr;
      var bc := c + pc;
      if br >= 0 && br < BoardHeight && bc >= 0 && bc < BoardWidth {
        next := cells[br := cells[br][bc := pieceColor]];
      }
    }
  }

  // ---------------------------------------------------------------- the game

  class Game {
    var board: Cells
    var score: int
    var linesCleared: int
    var pieceType: int
    var rotation: int
    var row: int
    var col: int
    var gameOver: bool
    var isPaused: bool

    ghost function Snapshot(): State
      reads this
    {
      State(board, score, linesCleared, pieceType, rotation, row, col, gameOver, isPaused)
    }

    ghost predicate Valid()
      reads this
    {
      Inv(Snapshot())
    }

    /** The initial values of the globals. */
    constructor ()
      ensures Snapshot() == Initial() && Valid()
    {
      board := EmptyBoard();
      score := 0;
      linesCleared := 0;
      pieceType := 0;
      rotation := 0;
      row := 0;
      col := SpawnCol;
      gameOver := false;
      isPaused := false;
      InitialValid();
    }

    /** check_collision: scan the 4x4 mask, stopping at the first filled cell that is stopped. */
    method CheckCollision(t: int, rot: int, r: int, c: int) returns (hit: bool)
      requires WellFormed(board) && ValidPiece(t, rot)
      ensures hit == Collides(board, Shape(t, rot), r, c)
    {
      for pr := 0 to 4
        invariant NoneStopsBefore(board, Shape(t, rot), r, c, pr * 4)
      {
        for pc := 0 to 4
          invariant NoneStopsBefore(board, Shape(t, rot), r, c, pr * 4 + pc)
        {
          NoneStopsStep(board, Shape(t, rot), r, c, pr, pc);
          if GetPieceBlock(t, rot, pr, pc) == '1' {
            var br := r + pr;
            var bc := c + pc;
            if br >= BoardHeight || bc < 0 || bc >= BoardWidth {
              assert Stops(board, Shape(t, rot), r, c, pr, pc);
              return true;
            }
            if br >= 0 && board[br][bc] != 0 {
              assert Stops(board, Shape(t, rot), r, c, pr, pc);
              return true;
            }
          }
        }
      }
      NoneStopsAll(board, Shape(t, rot), r, c);
      return false;
    }

    /** lock_piece: write the piece's colour under every filled, on-board cell of its mask. */
    method LockPiece()
      requires WellFormed(board) && ValidPiece(pieceType, rotation)
      modifies this`board
      ensures board == Stamped(old(board), Shape(pieceType, rotation), pieceType + 1, row, col)
    {
      board := StampPiece(board, pieceType, rotation, row, col);
    }

    /** new_piece, given the type rand() % 7 would have produced. */
    method NewPiece(t: int)
      requires WellFormed(board) && 0 <= t < PieceCount
      modifies this`pieceType, this`rotation, this`row, this`col, this`gameOver
      ensures Snapshot() == Spawn(old(Snapshot()), t)
    {
      pieceType := t;
      rotation := 0;
      row := 0;
      col := BoardWidth / 2 - 2;
      var hit := CheckCollision(pieceType, rotation, row, col);
      if hit {
        gameOver := true;
      }
    }

    /** check_and_clear_lines: remove the full rows, count them, and score them with the points table. */
    method CheckAndClearLines()
      requires WellFormed(board)
      modifies this`board, this`score, this`linesCleared
      ensures Snapshot() == LinesCleared(old(Snapshot()))
    {
      var rows, clearedInMove := ClearFullRows(board);
      board := rows;
      linesCleared := linesCleared + clearedInMove;
      if clearedInMove > 0 {
        if clearedInMove <= 4 {
          score := score + LinePoints[clearedInMove];
        }
      }
    }

    /** The loop of hard_drop: from the current row, go down while the next row is free. */
    method DropRow() returns (dropRow: int)
      requires WellFormed(board) && ValidPiece(pieceType, rotation)
      ensures dropRow == LandingRow(board, Shape(pieceType, rotation), row, col)
    {
      dropRow := row;
      var blocked := CheckCollision(pieceType, rotation, dropRow + 1, col);
      while !blocked
        invariant LandingRow(board, Shape(pieceType, rotation), dropRow, col) == LandingRow(board, Shape(pieceType, rotation), row, col)
        invariant blocked == Collides(board, Shape(pieceType, rotation), dropRow + 1, col)
        decreases BoardHeight - dropRow
      {
        FloorStops(board, Shape(pieceType, rotation), dropRow, col);
        dropRow := dropRow + 1;
        blocked := CheckCollision(pieceType, rotation, dropRow + 1, col);
      }
    }

    /** The end of a fall: lock_piece, check_and_clear_lines, new_piece. */
    method SettlePiece(nextType: int)
      requires WellFormed(board) && ValidPiece(pieceType, rotation) && 0 <= nextType < PieceCount
      modifies this
      ensures Snapshot() == Settle(old(Snapshot()), nextType)
    {
      ghost var s := Snapshot();
      LockPiece();
      assert Snapshot() == Locked(s);
      CheckAndClearLines();
      assert Snapshot() == LinesCleared(Locked(s));
      NewPiece(nextType);
    }

    /** hard_drop: fall while the next row is free, then lock, clear and spawn `nextType`. */
    method HardDrop(nextType: int)
      requires Valid() && 0 <= nextType < PieceCount
      modifies this
      ensures Valid()
      ensures Snapshot() == HardDropped(old(Snapshot()), nextType)
    {
      HardDropPreserves(Snapshot(), nextType);
      if gameOver || isPaused {
        return;
      }
      var dropRow := DropRow();
      row := dropRow;
      SettlePiece(nextType);
    }

    /** One key press: pause toggles, Space hard-drops, a move or rotate is taken only if it fits. */
    method HandleKey(key: Key, nextType: int)
      requires Valid() && 0 <= nextType < PieceCount
      modifies this
      ensures Valid()
      ensures Snapshot() == AfterKey(old(Snapshot()), key, nextType)
    {
      KeyPreserves(Snapshot(), key, nextType);
      if key == PauseKey {
        isPaused := !isPaused;
        return;
      }
      if gameOver || isPaused {
        return;
      }
      if key == Space {
        HardDrop(nextType);
      } else if IsMove(key) {
        TryMove(key);
      }
    }

    /** The move and rotate cases of the key handler: take the requested position only if it fits. */
    method TryMove(key: Key)
      requires WellFormed(board) && ValidPiece(pieceType, rotation) && IsMove(key)
      modifies this`row, this`col, this`rotation
      ensures var target := Requested(old(Snapshot()), key);
        if Collides(board, Shape(pieceType, target.2), target.0, target.1)
        then row == old(row) && col == old(col) && rotation == old(rotation)
        else row == target.0 && col == target.1 && rotation == target.2
    {
      ghost var target := Requested(Snapshot(), key);
      var newRow, newCol, newRotation := row, col, rotation;
      if key == Left {
        newCol := newCol - 1;
      } else if key == Right {
        newCol := newCol + 1;
      } else if key == Down {
        newRow := newRow + 1;
      } else {
        newRotation := (rotation + 1) % RotationCount;
      }
      assert newRow == target.0 && newCol == target.1 && newRotation == target.2;
      var hit := CheckCollision(pieceType, newRotation, newRow, newCol);
      if !hit {
        row, col, rotation := newRow, newCol, newRotation;
      }
    }

    /** The gravity step of the main loop, taken when the drop interval has elapsed. */
    method GravityStep(nextType: int)
      requires Valid() && 0 <= nextType < PieceCount
      modifies this
      ensures Valid()
      ensures Snapshot() == Gravity(old(Snapshot()), nextType)
    {
      GravityPreserves(Snapshot(), nextType);
      if isPaused || gameOver {
        return;
      }
      var hit := CheckCollision(pieceType, rotation, row + 1, col);
      if !hit {
        row := row + 1;
      } else {
        SettlePiece(nextType);
      }
    }
  }
}
