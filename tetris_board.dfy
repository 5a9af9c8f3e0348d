/**
 * The 20x10 playfield of tetris_game.cpp as a value: collision of a piece
 * with walls, floor and locked blocks, stamping a piece in, the hard-drop
 * landing row, line clearing and its score table.
 */
module TetrisBoard {
  import opened TetrisShapes

  const BoardWidth := 10
  const BoardHeight := 20
  /** new_piece's spawn column, BOARD_WIDTH / 2 - 2. */
  const SpawnCol := BoardWidth / 2 - 2

  /** A row of colour indices: 0 is empty, piece type + 1 is a locked block. */
  type Row = seq<int>
  type Cells = seq<Row>

  predicate WellFormed(b: Cells)
  {
    |b| == BoardHeight && forall i :: 0 <= i < |b| ==> |b[i]| == BoardWidth
  }

  predicate RowColours(row: Row)
  {
    forall j :: 0 <= j < |row| ==> 0 <= row[j] <= PieceCount
  }

  /** Every cell is a colour index of BLOCK_COLORS: 0 (empty) to 7. */
  predicate ColoursInRange(b: Cells)
  {
    forall i :: 0 <= i < |b| ==> RowColours(b[i])
  }

  function EmptyRow(): (row: Row)
    ensures |row| == BoardWidth && RowColours(row) && !Full(row)
    ensures forall j :: 0 <= j < |row| ==> row[j] == 0
  {
    assert seq(BoardWidth, _ => 0)[0] == 0;
    seq(BoardWidth, _ => 0)
  }

  function EmptyBoard(): (b: Cells)
    ensures WellFormed(b) && ColoursInRange(b) && Settled(b)
    ensures forall i, j :: 0 <= i < |b| && 0 <= j < |b[i]| ==> b[i][j] == 0
  {
    seq(BoardHeight, _ => EmptyRow())
  }

  // ---------------------------------------------------------------- collision

  /**
   * A filled piece cell landing on board cell (br, bc) is stopped: below the
   * floor, beyond a side wall, or on a locked block. Above the top (br < 0)
   * only the walls count.
   */
  predicate Blocks(b: Cells, br: int, bc: int)
    requires WellFormed(b)
  {
    br >= BoardHeight || bc < 0 || bc >= BoardWidth || (br >= 0 && b[br][bc] != 0)
  }

  /** Mask cell (pr, pc) of a piece with mask `m` at (r, c) is a block and is stopped. */
  predicate Stops(b: Cells, m: string, r: int, c: int, pr: int, pc: int)
    requires WellFormed(b)
  {
    Filled(m, pr, pc) && Blocks(b, r + pr, c + pc)
  }

  /** check_collision: some block of a piece with mask `m` at (r, c) is stopped. */
  predicate Collides(b: Cells, m: string, r: int, c: int)
    requires WellFormed(b)
  {
    exists pr, pc | 0 <= pr < 4 && 0 <= pc < 4 :: Stops(b, m, r, c, pr, pc)
  }

  /** No block among the first `k` mask cells that check_collision's loops visit is stopped. */
  predicate NoneStopsBefore(b: Cells, m: string, r: int, c: int, k: int)
    requires WellFormed(b)
  {
    forall pr, pc | 0 <= pr < 4 && 0 <= pc < 4 && pr * 4 + pc < k :: !Stops(b, m, r, c, pr, pc)
  }

  /** One round of check_collision's inner loop. */
  lemma NoneStopsStep(b: Cells, m: string, r: int, c: int, pr: int, pc: int)
    requires WellFormed(b) && 0 <= pr < 4 && 0 <= pc < 4
    ensures NoneStopsBefore(b, m, r, c, pr * 4 + pc + 1) <==>
      NoneStopsBefore(b, m, r, c, pr * 4 + pc) && !Stops(b, m, r, c, pr, pc)
  {
  }

  /** After all sixteen cells, check_collision has decided Collides. */
  lemma NoneStopsAll(b: Cells, m: string, r: int, c: int)
    requires WellFormed(b)
    ensures NoneStopsBefore(b, m, r, c, 16) <==> !Collides(b, m, r, c)
  {
  }

  /** A piece with a block that is low enough always hits the floor. */
  lemma FloorStops(b: Cells, m: string, r: int, c: int)
    requires WellFormed(b) && HasBlock(m)
    ensures r >= BoardHeight - 1 ==> Collides(b, m, r + 1, c)
  {
    var pr, pc :| 0 <= pr < 4 && 0 <= pc < 4 && Filled(m, pr, pc);
    if r >= BoardHeight - 1 {
      assert Stops(b, m, r + 1, c, pr, pc);
    }
  }

  /** The spawn square of new_piece is free for every piece on a board whose top four rows are empty there. */
  lemma SpawnFits(b: Cells, m: string)
    requires WellFormed(b)
    requires forall i, j :: 0 <= i < 4 && SpawnCol <= j < SpawnCol + 4 ==> b[i][j] == 0
    ensures !Collides(b, m, 0, SpawnCol)
  {
  }

  /** hard_drop's destination: the first row from `r` down whose next row collides. */
  function LandingRow(b: Cells, m: string, r: int, c: int): (landing: int)
    requires WellFormed(b) && HasBlock(m)
    ensures r <= landing
    ensures Collides(b, m, landing + 1, c)
    ensures forall k :: r < k <= landing ==> !Collides(b, m, k, c)
    decreases BoardHeight - r
  {
    FloorStops(b, m, r, c);
    if Collides(b, m, r + 1, c) then r
    else LandingRow(b, m, r + 1, c)
  }

  /** A piece that fits where it is still fits where it lands. */
  lemma LandingFits(b: Cells, m: string, r: int, c: int)
    requires WellFormed(b) && HasBlock(m) && !Collides(b, m, r, c)
    ensures !Collides(b, m, LandingRow(b, m, r, c), c)
  {
  }

  // ---------------------------------------------------------------- locking

  /** Mask cell (i - r, j - c) is a block and among the first `k` the lock loop visits. */
  predicate Covered(m: string, r: int, c: int, i: int, j: int, k: int)
  {
    Filled(m, i - r, j - c) && (i - r) * 4 + (j - c) < k
  }

  /** The board after lock_piece's loops have visited the first `k` cells of the mask. */
  function StampedUpTo(b: Cells, m: string, colour: int, r: int, c: int, k: int): (s: Cells)
    requires WellFormed(b)
    ensures WellFormed(s)
  {
    seq(BoardHeight, i requires 0 <= i < BoardHeight =>
      seq(BoardWidth, j requires 0 <= j < BoardWidth =>
        if Covered(m, r, c, i, j, k) then colour else b[i][j]))
  }

  /** lock_piece on a piece with mask `m` and colour index `colour` at (r, c). */
  function Stamped(b: Cells, m: string, colour: int, r: int, c: int): (s: Cells)
    requires WellFormed(b)
    ensures WellFormed(s)
  {
    StampedUpTo(b, m, colour, r, c, 16)
  }

  /**
   * lock_piece writes the piece's colour to exactly the on-board cells under
   * a block of the mask and leaves every other cell as it was.
   */
  lemma StampedCells(b: Cells, m: string, colour: int, r: int, c: int)
    requires WellFormed(b)
    ensures forall pr, pc :: Filled(m, pr, pc) && 0 <= r + pr < BoardHeight && 0 <= c + pc < BoardWidth ==>
      Stamped(b, m, colour, r, c)[r + pr][c + pc] == colour
    ensures forall i, j :: 0 <= i < BoardHeight && 0 <= j < BoardWidth && !Filled(m, i - r, j - c) ==>
      Stamped(b, m, colour, r, c)[i][j] == b[i][j]
    ensures ColoursInRange(b) && 0 <= colour <= PieceCount ==> ColoursInRange(Stamped(b, m, colour, r, c))
  {
    var s := Stamped(b, m, colour, r, c);
    forall pr, pc | Filled(m, pr, pc) && 0 <= r + pr < BoardHeight && 0 <= c + pc < BoardWidth
      ensures s[r + pr][c + pc] == colour
    {
      assert Covered(m, r, c, r + pr, c + pc, 16);
    }
  }

  /** Stamping a colour index keeps every cell a colour index. */
  lemma StampedColours(b: Cells, m: string, colour: int, r: int, c: int)
    requires WellFormed(b) && ColoursInRange(b) && 0 <= colour <= PieceCount
    ensures ColoursInRange(Stamped(b, m, colour, r, c))
  {
    StampedCells(b, m, colour, r, c);
  }

  /** Before lock_piece's loops visit any cell, the board is as it was. */
  lemma StampedNothing(b: Cells, m: string, colour: int, r: int, c: int)
    requires WellFormed(b)
    ensures StampedUpTo(b, m, colour, r, c, 0) == b
  {
    var s := StampedUpTo(b, m, colour, r, c, 0);
    forall i | 0 <= i < BoardHeight
      ensures s[i] == b[i]
    {
      assert forall j :: 0 <= j < BoardWidth ==> s[i][j] == b[i][j];
    }
  }

  /** One round of lock_piece's inner loop: mask cell (pr, pc) is written if it is a block on the board. */
  lemma StampStep(b: Cells, m: string, colour: int, r: int, c: int, pr: int, pc: int)
    requires WellFormed(b) && 0 <= pr < 4 && 0 <= pc < 4
    ensures var before := StampedUpTo(b, m, colour, r, c, pr * 4 + pc);
      StampedUpTo(b, m, colour, r, c, pr * 4 + pc + 1) ==
        if Filled(m, pr, pc) && 0 <= r + pr < BoardHeight && 0 <= c + pc < BoardWidth
        then before[r + pr := before[r + pr][c + pc := colour]]
        else before
  {
    var before := StampedUpTo(b, m, colour, r, c, pr * 4 + pc);
    var after := StampedUpTo(b, m, colour, r, c, pr * 4 + pc + 1);
    var expected := if Filled(m, pr, pc) && 0 <= r + pr < BoardHeight && 0 <= c + pc < BoardWidth
      then before[r + pr := before[r + pr][c + pc := colour]] else before;
    forall i | 0 <= i < BoardHeight
      ensures after[i] == expected[i]
    {
      forall j | 0 <= j < BoardWidth
        ensures after[i][j] == expected[i][j]
      {
        StampStepCell(b, m, colour, r, c, pr, pc, i, j);
      }
    }
  }

  /** The cell-level fact behind StampStep: only cell (r + pr, c + pc) can change. */
  lemma StampStepCell(b: Cells, m: string, colour: int, r: int, c: int, pr: int, pc: int, i: int, j: int)
    requires WellFormed(b) && 0 <= pr < 4 && 0 <= pc < 4
    requires 0 <= i < BoardHeight && 0 <= j < BoardWidth
    ensures StampedUpTo(b, m, colour, r, c, pr * 4 + pc + 1)[i][j] ==
      if i == r + pr && j == c + pc && Filled(m, pr, pc) then colour
      else StampedUpTo(b, m, colour, r, c, pr * 4 + pc)[i][j]
  {
    if 0 <= i - r < 4 && 0 <= j - c < 4 && !(i == r + pr && j == c + pc) {
      assert (i - r) * 4 + (j - c) != pr * 4 + pc;
    }
  }

  // ---------------------------------------------------------------- clearing lines

  /** A row with no empty cell. */
  predicate Full(row: Row)
  {
    forall j :: 0 <= j < |row| ==> row[j] != 0
  }

  /** No row of the board is full: the state check_and_clear_lines leaves behind. */
  predicate Settled(b: Cells)
  {
    forall i :: 0 <= i < |b| ==> !Full(b[i])
  }

  function FullCount(rows: Cells): nat
  {
    if |rows| == 0 then 0
    else FullCount(rows[..|rows| - 1]) + if Full(rows[|rows| - 1]) then 1 else 0
  }

  /** The rows that are not full, in their original order. */
  function Kept(rows: Cells): (kept: Cells)
    ensures |kept| + FullCount(rows) == |rows|
    ensures Settled(kept)
    ensures forall x :: x in kept ==> x in rows
  {
    if |rows| == 0 then []
    else if Full(rows[|rows| - 1]) then Kept(rows[..|rows| - 1])
    else Kept(rows[..|rows| - 1]) + [rows[|rows| - 1]]
  }

  function EmptyRows(n: nat): (rows: Cells)
    ensures |rows| == n
  {
    seq(n, _ => EmptyRow())
  }

  /**
   * check_and_clear_lines with the row shift it intends: every full row is
   * removed, the rows above it move down, and as many empty rows enter at
   * the top.
   */
  function Cleared(rows: Cells): (cleared: Cells)
    ensures |cleared| == |rows|
  {
    EmptyRows(FullCount(rows)) + Kept(rows)
  }

  /** Clearing keeps the board's shape and colours and leaves no full row. */
  lemma ClearedShape(b: Cells)
    requires WellFormed(b)
    ensures WellFormed(Cleared(b)) && Settled(Cleared(b))
    ensures ColoursInRange(b) ==> ColoursInRange(Cleared(b))
  {
    var e, k := EmptyRows(FullCount(b)), Kept(b);
    assert Cleared(b) == e + k;
    forall i | 0 <= i < |Cleared(b)|
      ensures |Cleared(b)[i]| == BoardWidth && !Full(Cleared(b)[i])
      ensures ColoursInRange(b) ==> RowColours(Cleared(b)[i])
    {
      if i < |e| {
        assert Cleared(b)[i] == EmptyRow();
        assert EmptyRow()[0] == 0;
      } else {
        assert Cleared(b)[i] == k[i - |e|];
        assert k[i - |e|] in b;
      }
    }
  }

  /** On a board with no full row, check_and_clear_lines changes nothing. */
  lemma SettledUnchanged(rows: Cells)
    requires Settled(rows)
    ensures FullCount(rows) == 0 && Kept(rows) == rows && Cleared(rows) == rows
  {
    SettledKept(rows);
    assert EmptyRows(0) == [];
  }

  /** A board with no full row keeps every row. */
  lemma {:induction false} SettledKept(rows: Cells)
    requires Settled(rows)
    ensures FullCount(rows) == 0 && Kept(rows) == rows
  {
    if |rows| > 0 {
      var init, last := rows[..|rows| - 1], rows[|rows| - 1];
      assert Settled(init) by {
        forall i | 0 <= i < |init|
          ensures !Full(init[i])
        {
          assert init[i] == rows[i];
        }
      }
      SettledKept(init);
      assert !Full(last);
      assert init + [last] == rows;
    }
  }

  /** Clearing is idempotent: a second pass finds nothing to clear. */
  lemma ClearedIdempotent(b: Cells)
    requires WellFormed(b)
    ensures Cleared(Cleared(b)) == Cleared(b)
  {
    ClearedShape(b);
    SettledUnchanged(Cleared(b));
  }

  /** The rows `lo`..`lo + 3` spanned by a 4x4 piece, clipped to the first `n` rows. */
  function Band(x: int): nat
  {
    if x <= 0 then 0 else if x >= 4 then 4 else x
  }

  lemma {:induction false} FullRowsInBand(rows: Cells, lo: int, n: nat)
    requires n <= |rows|
    requires forall i :: 0 <= i < n && Full(rows[i]) ==> lo <= i < lo + 4
    ensures FullCount(rows[..n]) <= Band(n - lo)
  {
    if n > 0 {
      FullRowsInBand(rows, lo, n - 1);
      assert rows[..n][..n - 1] == rows[..n - 1];
    }
  }

  /**
   * Locking one piece on a board with no full row fills at most four rows:
   * only the rows under its 4x4 mask change.
   */
  lemma AtMostFourLines(b: Cells, m: string, colour: int, r: int, c: int)
    requires WellFormed(b) && Settled(b)
    ensures FullCount(Stamped(b, m, colour, r, c)) <= 4
  {
    var s := Stamped(b, m, colour, r, c);
    StampedCells(b, m, colour, r, c);
    forall i | 0 <= i < |s| && Full(s[i])
      ensures r <= i < r + 4
    {
    }
    FullRowsInBand(s, r, |s|);
    assert s[..|s|] == s;
  }

  /** The points table of check_and_clear_lines: 100, 300, 500, 800 for one to four lines, nothing otherwise. */
  const LinePoints: seq<nat> := [0, 100, 300, 500, 800]

  function Points(k: nat): (p: nat)
    ensures p == 0 <==> k == 0 || k > 4
  {
    if k > 0 && k <= 4 then LinePoints[k] else 0
  }

  /** Clearing several lines in one move is worth more than clearing them one at a time. */
  lemma MultiLineBonus(k: nat)
    requires 2 <= k <= 4
    ensures Points(k) > k * Points(1)
  {
  }

  /** More lines in one move never score fewer points, up to the Tetris of four. */
  lemma PointsMonotone(j: nat, k: nat)
    requires j <= k <= 4
    ensures Points(j) <= Points(k)
  {
  }

  // ---------------------------------------------------------------- the shift loop as written

  /** How the row-shift loop of check_and_clear_lines ends, as written. */
  datatype ShiftRun = Finished(rows: Cells) | ReadsOutside(index: int) | Unfinished

  /**
   * The row-shift loop as written at tetris_game.cpp:153-155: the guard tests
   * `r`, which the body never changes, while `rShift` counts down and row
   * rShift - 1 is copied down. `fuel` bounds the number of rounds.
   */
  function ShiftAsWritten(rows: Cells, r: int, rShift: int, fuel: nat): ShiftRun
    decreases fuel
  {
    if !(r > 0) then Finished(rows)
    else if !(0 <= rShift - 1 && rShift < |rows|) then ReadsOutside(rShift - 1)
    else if fuel == 0 then Unfinished
    else ShiftAsWritten(rows[rShift := rows[rShift - 1]], r, rShift - 1, fuel - 1)
  }

  /**
   * For a full row r > 0, the loop as written never stops on its own: after
   * r rounds it reads row -1 (undefined behaviour on a std::vector).
   */
  lemma {:induction false} ShiftNeverStops(rows: Cells, r: int, rShift: int, fuel: nat)
    requires r > 0 && 0 <= rShift < |rows| && fuel >= rShift
    ensures ShiftAsWritten(rows, r, rShift, fuel) == ReadsOutside(-1)
    decreases rShift
  {
    if rShift > 0 {
      ShiftNeverStops(rows[rShift := rows[rShift - 1]], r, rShift - 1, fuel - 1);
    }
  }

  /** Concretely: a full bottom row, the commonest line clear, makes the loop read row -1. */
  lemma BottomRowReadsOutside(b: Cells)
    requires WellFormed(b) && Full(b[BoardHeight - 1])
    ensures ShiftAsWritten(b, BoardHeight - 1, BoardHeight - 1, BoardHeight) == ReadsOutside(-1)
  {
    ShiftNeverStops(b, BoardHeight - 1, BoardHeight - 1, BoardHeight);
  }

  /**
   * Only a full top row gets through the loop as written, and then the loop
   * does nothing: for any other full row it reads outside the board.
   */
  lemma TopRowShiftFinishes(rows: Cells, r: int, fuel: nat)
    requires 0 <= r < |rows| && fuel >= r
    ensures ShiftAsWritten(rows, r, r, fuel).Finished? <==> r == 0
    ensures r == 0 ==> ShiftAsWritten(rows, r, r, fuel) == Finished(rows)
  {
    if r > 0 {
      ShiftNeverStops(rows, r, r, fuel);
    }
  }

  /** The intended shift for full row r: drop it, move rows 0..r-1 down one, blank row 0. */
  function RemoveRow(rows: Cells, r: int): Cells
    requires 0 <= r < |rows|
  {
    [EmptyRow()] + rows[..r] + rows[r + 1..]
  }

  /**
   * Removing a full row keeps what clearing the rows up to it produces:
   * the invariant of the corrected clearing loop, for one removal.
   */
  lemma RemoveFullRow(rows: Cells, r: int)
    requires 0 <= r < |rows| && Full(rows[r])
    ensures FullCount(RemoveRow(rows, r)[..r + 1]) + 1 == FullCount(rows[..r + 1])
    ensures EmptyRows(FullCount(RemoveRow(rows, r)[..r + 1])) + Kept(RemoveRow(rows, r)[..r + 1]) + RemoveRow(rows, r)[r + 1..]
         == EmptyRows(FullCount(rows[..r + 1])) + Kept(rows[..r + 1]) + rows[r + 1..]
  {
    var after := RemoveRow(rows, r);
    assert rows[..r + 1][..r] == rows[..r];
    assert after[r + 1..] == rows[r + 1..];
    assert after[..r + 1] == [EmptyRow()] + rows[..r];
    EmptyRowFirst(rows[..r]);
    var n := FullCount(rows[..r]);
    assert EmptyRows(n) + [EmptyRow()] == EmptyRows(n + 1);
  }

  /** Putting an empty row on top adds no full row and keeps it first among the kept rows. */
  lemma EmptyRowFirst(rows: Cells)
    ensures FullCount([EmptyRow()] + rows) == FullCount(rows)
    ensures Kept([EmptyRow()] + rows) == [EmptyRow()] + Kept(rows)
  {
    EmptyRowFirstCount(rows);
    EmptyRowFirstKept(rows);
  }

  lemma {:induction false} EmptyRowFirstCount(rows: Cells)
    ensures FullCount([EmptyRow()] + rows) == FullCount(rows)
    decreases |rows|
  {
    var e := EmptyRow();
    assert !Full(e) by { assert e[0] == 0; }
    var front := [e] + rows;
    if |rows| == 0 {
      assert front[..|front| - 1] == [];
    } else {
      assert front[..|front| - 1] == [e] + rows[..|rows| - 1];
      assert front[|front| - 1] == rows[|rows| - 1];
      EmptyRowFirstCount(rows[..|rows| - 1]);
    }
  }

  lemma {:induction false} EmptyRowFirstKept(rows: Cells)
    ensures Kept([EmptyRow()] + rows) == [EmptyRow()] + Kept(rows)
    decreases |rows|
  {
    var e := EmptyRow();
    assert !Full(e) by { assert e[0] == 0; }
    var front := [e] + rows;
    if |rows| == 0 {
      assert front[..|front| - 1] == [];
    } else {
      var init, last := rows[..|rows| - 1], rows[|rows| - 1];
      assert front[..|front| - 1] == [e] + init;
      assert front[|front| - 1] == last;
      EmptyRowFirstKept(init);
      if !Full(last) {
        assert [e] + Kept(init) + [last] == [e] + (Kept(init) + [last]);
      }
    }
  }

  /** Moving past a row that is not full keeps the same invariant one row up. */
  lemma KeepRow(rows: Cells, r: int)
    requires 0 <= r < |rows| && !Full(rows[r])
    ensures FullCount(rows[..r]) == FullCount(rows[..r + 1])
    ensures EmptyRows(FullCount(rows[..r])) + Kept(rows[..r]) + rows[r..]
         == EmptyRows(FullCount(rows[..r + 1])) + Kept(rows[..r + 1]) + rows[r + 1..]
  {
    assert rows[..r + 1][..r] == rows[..r];
    assert rows[r..] == [rows[r]] + rows[r + 1..];
  }
}
