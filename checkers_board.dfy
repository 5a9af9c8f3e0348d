/**
 * Pieces and the 8x8 board of the console checkers game.
 *
 * The source keeps a `Piece*` per cell and mutates the pointed-to piece;
 * here a cell holds an optional piece value and every write to a piece is a
 * write to the cell that holds it.
 */
module CheckersBoard {
  import opened Wrappers

  const BoardSize: int := 8

  /** The players; `NoPlayer` is the source's NONE, the owner of no piece on the board. */
  datatype Player = NoPlayer | Red | Black

  /** A checker: its owner, its rank and the cell it believes it stands on. */
  datatype Piece = Piece(owner: Player, isKing: bool, row: int, col: int)
  {
    /** Promotion: the piece becomes a king and nothing else about it changes. */
    function MakeKing(): (p: Piece)
      ensures p.isKing
      ensures p.owner == owner && p.row == row && p.col == col
    {
      this.(isKing := true)
    }

    /** Moves the piece's own record of its position; owner and rank are kept. */
    function SetPosition(r: int, c: int): (p: Piece)
      ensures p.row == r && p.col == c
      ensures p.owner == owner && p.isKing == isKing
    {
      this.(row := r, col := c)
    }
  }

  /** The source's `Piece(Player, int, int)` constructor: a fresh piece is never a king. */
  function NewPiece(owner: Player, r: int, c: int): (p: Piece)
    ensures p.owner == owner && !p.isKing && p.row == r && p.col == c
  {
    Piece(owner, false, r, c)
  }

  type Row = seq<Option<Piece>>
  type Grid = seq<Row>

  predicate InBounds(r: int, c: int)
  {
    0 <= r < BoardSize && 0 <= c < BoardSize
  }

  /** The grid is 8 rows of 8 cells. */
  predicate WellFormed(g: Grid)
  {
    |g| == BoardSize && forall i :: 0 <= i < |g| ==> |g[i]| == BoardSize
  }

  /** Every piece on the board is owned by a player and knows its own cell. */
  ghost predicate PositionsConsistent(g: Grid)
    requires WellFormed(g)
  {
    forall r, c :: InBounds(r, c) && g[r][c].Some? ==>
      g[r][c].value.row == r && g[r][c].value.col == c && g[r][c].value.owner != NoPlayer
  }

  /** A piece stands only on a dark square, one where row + column is odd. */
  ghost predicate OnDarkSquares(g: Grid)
    requires WellFormed(g)
  {
    forall r, c :: InBounds(r, c) && g[r][c].Some? ==> (r + c) % 2 == 1
  }

  /** Board::getPiece: an out-of-range square reads as empty. */
  function GetPiece(g: Grid, r: int, c: int): (p: Option<Piece>)
    requires WellFormed(g)
    ensures !InBounds(r, c) ==> p == None
    ensures InBounds(r, c) ==> p == g[r][c]
  {
    if r < 0 || r >= BoardSize || c < 0 || c >= BoardSize then None else g[r][c]
  }

  /** Writes one cell and leaves every other cell as it was. */
  function SetCell(g: Grid, r: int, c: int, v: Option<Piece>): (h: Grid)
    requires WellFormed(g) && InBounds(r, c)
    ensures WellFormed(h)
    ensures h[r][c] == v
    ensures forall i, j :: InBounds(i, j) && (i != r || j != c) ==> h[i][j] == g[i][j]
  {
    g[r := g[r][c := v]]
  }

  /** Two well-formed grids that agree on every cell are the same grid. */
  lemma GridExtensionality(g: Grid, h: Grid)
    requires WellFormed(g) && WellFormed(h)
    requires forall i, j :: InBounds(i, j) ==> g[i][j] == h[i][j]
    ensures g == h
  {
    forall i | 0 <= i < BoardSize
      ensures g[i] == h[i]
    {
      assert forall j :: 0 <= j < BoardSize ==> g[i][j] == h[i][j];
    }
  }

  /**
   * Board::movePiece: the occupant of (r1, c1) goes to (r2, c2) with its
   * position updated, and (r1, c1) becomes empty; an empty origin changes
   * nothing. The target is overwritten, and when origin and target are the
   * same square the piece is lost, as in the source.
   */
  function MovedGrid(g: Grid, r1: int, c1: int, r2: int, c2: int): (h: Grid)
    requires WellFormed(g) && InBounds(r1, c1) && InBounds(r2, c2)
    ensures WellFormed(h)
    ensures g[r1][c1].None? ==> h == g
    ensures g[r1][c1].Some? ==> h[r1][c1] == None
    ensures g[r1][c1].Some? && (r1 != r2 || c1 != c2) ==>
      h[r2][c2] == Some(g[r1][c1].value.SetPosition(r2, c2))
    ensures forall i, j :: InBounds(i, j) && (i != r1 || j != c1) && (i != r2 || j != c2) ==> h[i][j] == g[i][j]
  {
    match g[r1][c1]
    case None => g
    case Some(piece) =>
      SetCell(SetCell(g, r2, c2, Some(piece.SetPosition(r2, c2))), r1, c1, None)
  }

  /** Board::removePiece: the square becomes empty, every other square is kept. */
  function RemovedGrid(g: Grid, r: int, c: int): (h: Grid)
    requires WellFormed(g) && InBounds(r, c)
    ensures WellFormed(h)
    ensures h[r][c] == None
    ensures forall i, j :: InBounds(i, j) && (i != r || j != c) ==> h[i][j] == g[i][j]
  {
    if g[r][c].Some? then SetCell(g, r, c, None) else g
  }

  function EmptyGrid(): (g: Grid)
    ensures WellFormed(g)
  {
    seq(BoardSize, _ => seq(BoardSize, _ => None))
  }

  /** The content of a square after Board::initializeBoard. */
  function InitialCell(r: int, c: int): Option<Piece>
  {
    if (r + c) % 2 != 0 && r < 3 then Some(NewPiece(Black, r, c))
    else if (r + c) % 2 != 0 && r >= 5 then Some(NewPiece(Red, r, c))
    else None
  }

  function InitialGrid(): (g: Grid)
    ensures WellFormed(g)
  {
    seq(BoardSize, r => seq(BoardSize, c => InitialCell(r, c)))
  }

  // ---------------------------------------------------------------------
  // Piece counts, in row-major order
  // ---------------------------------------------------------------------

  function Owned(cell: Option<Piece>, p: Player): nat
  {
    if cell.Some? && cell.value.owner == p then 1 else 0
  }

  /** Pieces of `p` among the first `k` cells of a row. */
  function CountRow(row: Row, p: Player, k: nat): nat
    requires k <= |row|
  {
    if k == 0 then 0 else CountRow(row, p, k - 1) + Owned(row[k - 1], p)
  }

  /** Pieces of `p` in the first `k` rows. */
  function CountRows(g: Grid, p: Player, k: nat): nat
    requires WellFormed(g) && k <= BoardSize
  {
    if k == 0 then 0 else CountRows(g, p, k - 1) + CountRow(g[k - 1], p, BoardSize)
  }

  function CountPieces(g: Grid, p: Player): nat
    requires WellFormed(g)
  {
    CountRows(g, p, BoardSize)
  }

  lemma {:induction false} CountRowUpdate(row: Row, c: int, v: Option<Piece>, p: Player, k: nat)
    requires 0 <= c < |row| && k <= |row|
    ensures CountRow(row[c := v], p, k) + (if c < k then Owned(row[c], p) else 0)
         == CountRow(row, p, k) + (if c < k then Owned(v, p) else 0)
  {
    if k > 0 {
      CountRowUpdate(row, c, v, p, k - 1);
    }
  }

  lemma {:induction false} CountRowsUpdate(g: Grid, r: int, c: int, v: Option<Piece>, p: Player, k: nat)
    requires WellFormed(g) && InBounds(r, c) && k <= BoardSize
    ensures CountRows(SetCell(g, r, c, v), p, k) + (if r < k then Owned(g[r][c], p) else 0)
         == CountRows(g, p, k) + (if r < k then Owned(v, p) else 0)
  {
    if k > 0 {
      CountRowsUpdate(g, r, c, v, p, k - 1);
      if k - 1 == r {
        CountRowUpdate(g[r], c, v, p, BoardSize);
      } else {
        assert SetCell(g, r, c, v)[k - 1] == g[k - 1];
      }
    }
  }

  /** Writing one cell changes a side's count by what left and what arrived there. */
  lemma CountSetCell(g: Grid, r: int, c: int, v: Option<Piece>, p: Player)
    requires WellFormed(g) && InBounds(r, c)
    ensures CountPieces(SetCell(g, r, c, v), p) + Owned(g[r][c], p) == CountPieces(g, p) + Owned(v, p)
  {
    CountRowsUpdate(g, r, c, v, p, BoardSize);
  }

  /** Moving a piece never adds one to any side. */
  lemma MovedGridCount(g: Grid, r1: int, c1: int, r2: int, c2: int, p: Player)
    requires WellFormed(g) && InBounds(r1, c1) && InBounds(r2, c2)
    ensures CountPieces(MovedGrid(g, r1, c1, r2, c2), p) <= CountPieces(g, p)
  {
    if g[r1][c1].Some? {
      var piece := g[r1][c1].value;
      var g1 := SetCell(g, r2, c2, Some(piece.SetPosition(r2, c2)));
      CountSetCell(g, r2, c2, Some(piece.SetPosition(r2, c2)), p);
      CountSetCell(g1, r1, c1, None, p);
    }
  }

  /** Removing a piece never adds one to any side. */
  lemma RemovedGridCount(g: Grid, r: int, c: int, p: Player)
    requires WellFormed(g) && InBounds(r, c)
    ensures CountPieces(RemovedGrid(g, r, c), p) <= CountPieces(g, p)
  {
    if g[r][c].Some? {
      CountSetCell(g, r, c, None, p);
    }
  }

  // ---------------------------------------------------------------------
  // The initial layout
  // ---------------------------------------------------------------------

  /** Whether `p` starts with pieces on row `r`. */
  predicate StartRow(p: Player, r: int)
  {
    (p == Black && 0 <= r < 3) || (p == Red && 5 <= r < BoardSize)
  }

  lemma {:induction false} InitialRowCount(r: int, p: Player, k: nat)
    requires 0 <= r < BoardSize && k <= BoardSize
    ensures CountRow(InitialGrid()[r], p, k) == if StartRow(p, r) then (k + r % 2) / 2 else 0
  {
    if k > 0 {
      InitialRowCount(r, p, k - 1);
      var c := k - 1;
      assert InitialGrid()[r][c] == InitialCell(r, c);
      assert Owned(InitialCell(r, c), p) == if StartRow(p, r) && (r + c) % 2 == 1 then 1 else 0;
      HalfStep(r, c);
    }
  }

  /** Counting the dark squares of row `r` one column further on. */
  lemma HalfStep(r: nat, c: nat)
    ensures (c + 1 + r % 2) / 2 == (c + r % 2) / 2 + if (r + c) % 2 == 1 then 1 else 0
  {
    var q := r / 2;
    assert r == 2 * q + r % 2;
  }

  lemma {:induction false} InitialRowsCount(p: Player, k: nat)
    requires k <= BoardSize
    ensures CountRows(InitialGrid(), p, k) ==
      if p == Black then 4 * (if k < 3 then k else 3)
      else if p == Red then 4 * (if k < 5 then 0 else k - 5)
      else 0
  {
    if k > 0 {
      InitialRowsCount(p, k - 1);
      InitialRowCount(k - 1, p, BoardSize);
    }
  }

  /**
   * Board::initializeBoard's layout: 12 black men on the dark squares of
   * rows 0-2, 12 red men on the dark squares of rows 5-7, every other square
   * empty, and each piece recording its own cell.
   */
  lemma InitialSetup()
    ensures PositionsConsistent(InitialGrid()) && OnDarkSquares(InitialGrid())
    ensures forall r, c :: InBounds(r, c) ==>
      (InitialGrid()[r][c].Some? <==> (r + c) % 2 == 1 && (r < 3 || r >= 5))
    ensures forall r, c :: InBounds(r, c) && InitialGrid()[r][c].Some? ==>
      !InitialGrid()[r][c].value.isKing &&
      (InitialGrid()[r][c].value.owner == Black <==> r < 3) &&
      (InitialGrid()[r][c].value.owner == Red <==> r >= 5)
    ensures CountPieces(InitialGrid(), Black) == 12
    ensures CountPieces(InitialGrid(), Red) == 12
    ensures CountPieces(InitialGrid(), NoPlayer) == 0
  {
    InitialRowsCount(Black, BoardSize);
    InitialRowsCount(Red, BoardSize);
    InitialRowsCount(NoPlayer, BoardSize);
  }

  // ---------------------------------------------------------------------
  // The board object
  // ---------------------------------------------------------------------

  class Board {
    var grid: Grid

    ghost predicate Valid()
      reads this
    {
      WellFormed(grid) && PositionsConsistent(grid)
    }

    /** Board::Board: every square empty. */
    constructor ()
      ensures Valid() && grid == EmptyGrid()
    {
      grid := EmptyGrid();
    }

    /** Board::initializeBoard: clear every square, then place the two armies. */
    method InitializeBoard()
      requires Valid()
      modifies this
      ensures Valid() && grid == InitialGrid()
    {
      var i := 0;
      while i < BoardSize
        invariant 0 <= i <= BoardSize && WellFormed(grid)
        invariant forall a, b :: InBounds(a, b) && a < i ==> grid[a][b] == None
      {
        var j := 0;
        while j < BoardSize
          invariant 0 <= j <= BoardSize && WellFormed(grid)
          invariant forall a, b :: InBounds(a, b) && (a < i || (a == i && b < j)) ==> grid[a][b] == None
        {
          grid := SetCell(grid, i, j, None);
          j := j + 1;
        }
        i := i + 1;
      }

      // BLACK on rows 0, 1, 2
      var r := 0;
      while r < 3
        invariant 0 <= r <= 3 && WellFormed(grid)
        invariant forall a, b :: InBounds(a, b) ==> grid[a][b] == if a < r then InitialCell(a, b) else None
      {
        var c := 0;
        while c < BoardSize
          invariant 0 <= c <= BoardSize && WellFormed(grid)
          invariant forall a, b :: InBounds(a, b) ==>
            grid[a][b] == if a < r || (a == r && b < c) then InitialCell(a, b) else None
        {
          if (r + c) % 2 != 0 {
            grid := SetCell(grid, r, c, Some(NewPiece(Black, r, c)));
          }
          c := c + 1;
        }
        r := r + 1;
      }

      // RED on rows 5, 6, 7
      r := 5;
      while r < BoardSize
        invariant 5 <= r <= BoardSize && WellFormed(grid)
        invariant forall a, b :: InBounds(a, b) ==> grid[a][b] == if a < r then InitialCell(a, b) else None
      {
        var c := 0;
        while c < BoardSize
          invariant 0 <= c <= BoardSize && WellFormed(grid)
          invariant forall a, b :: InBounds(a, b) ==>
            grid[a][b] == if a < r || (a == r && b < c) then InitialCell(a, b) else None
        {
          if (r + c) % 2 != 0 {
            grid := SetCell(grid, r, c, Some(NewPiece(Red, r, c)));
          }
          c := c + 1;
        }
        r := r + 1;
      }

      GridExtensionality(grid, InitialGrid());
      InitialSetup();
    }

    /** Board::movePiece; the caller passes on-board squares. */
    method MovePiece(r1: int, c1: int, r2: int, c2: int)
      requires Valid() && InBounds(r1, c1) && InBounds(r2, c2)
      modifies this
      ensures Valid() && grid == MovedGrid(old(grid), r1, c1, r2, c2)
    {
      var piece := grid[r1][c1];
      if piece.Some? {
        grid := SetCell(grid, r2, c2, Some(piece.value.SetPosition(r2, c2)));
        grid := SetCell(grid, r1, c1, None);
      }
    }

    /** Board::removePiece; the caller passes an on-board square. */
    method RemovePiece(r: int, c: int)
      requires Valid() && InBounds(r, c)
      modifies this
      ensures Valid() && grid == RemovedGrid(old(grid), r, c)
    {
      if grid[r][c].Some? {
        grid := SetCell(grid, r, c, None);
      }
    }
  }
}
