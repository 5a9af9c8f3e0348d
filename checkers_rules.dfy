/**
 * The checkers rule engine as pure functions of a board value: move
 * predicates, the move lists the generators build, the effect of
 * executeMove and the acceptance rule of the turn loop.
 */
module CheckersRules {
  import opened Wrappers
  import opened CheckersBoard

  function Abs(x: int): nat
  {
    if x < 0 then -x else x
  }

  /** C++ integer division by 2, which truncates toward zero. */
  function Half(x: int): int
  {
    if x >= 0 then x / 2 else -((-x) / 2)
  }

  /** CheckersGame::switchPlayer: RED passes to BLACK, anyone else to RED. */
  function Opponent(p: Player): (q: Player)
    ensures p == Red ==> q == Black
    ensures p == Black ==> q == Red
    ensures q != NoPlayer && q != p
  {
    if p == Red then Black else Red
  }

  /** isSimpleMoveValid: one diagonal step from an occupied square to an empty one, forward for a man. */
  function IsSimpleMoveValid(g: Grid, r1: int, c1: int, r2: int, c2: int): (valid: bool)
    requires WellFormed(g)
    ensures valid <==>
      && GetPiece(g, r1, c1).Some?
      && GetPiece(g, r2, c2) == None
      && Abs(r2 - r1) == 1 && Abs(c2 - c1) == 1
      && (!GetPiece(g, r1, c1).value.isKing && GetPiece(g, r1, c1).value.owner == Red ==> r2 < r1)
      && (!GetPiece(g, r1, c1).value.isKing && GetPiece(g, r1, c1).value.owner == Black ==> r2 > r1)
  {
    var piece := GetPiece(g, r1, c1);
    if piece.None? || GetPiece(g, r2, c2).Some? then false
    else if Abs(r2 - r1) != 1 || Abs(c2 - c1) != 1 then false
    else if !piece.value.isKing && piece.value.owner == Red && r2 - r1 > 0 then false
    else if !piece.value.isKing && piece.value.owner == Black && r2 - r1 < 0 then false
    else true
  }

  /**
   * isJumpValid: two diagonal steps from an occupied square to an empty
   * one over a piece of another real owner, forward for a man.
   */
  function IsJumpValid(g: Grid, r1: int, c1: int, r2: int, c2: int): (valid: bool)
    requires WellFormed(g)
    ensures valid <==>
      && GetPiece(g, r1, c1).Some?
      && GetPiece(g, r2, c2) == None
      && Abs(r2 - r1) == 2 && Abs(c2 - c1) == 2
      && GetPiece(g, Half(r1 + r2), Half(c1 + c2)).Some?
      && GetPiece(g, Half(r1 + r2), Half(c1 + c2)).value.owner != GetPiece(g, r1, c1).value.owner
      && GetPiece(g, Half(r1 + r2), Half(c1 + c2)).value.owner != NoPlayer
      && (!GetPiece(g, r1, c1).value.isKing && GetPiece(g, r1, c1).value.owner == Red ==> r2 < r1)
      && (!GetPiece(g, r1, c1).value.isKing && GetPiece(g, r1, c1).value.owner == Black ==> r2 > r1)
  {
    var piece := GetPiece(g, r1, c1);
    if piece.None? || GetPiece(g, r2, c2).Some? then false
    else if Abs(r2 - r1) != 2 || Abs(c2 - c1) != 2 then false
    else
      var jumped := GetPiece(g, Half(r1 + r2), Half(c1 + c2));
      if jumped.None? || jumped.value.owner == piece.value.owner || jumped.value.owner == NoPlayer then false
      else if !piece.value.isKing && piece.value.owner == Red && r2 - r1 > 0 then false
      else if !piece.value.isKing && piece.value.owner == Black && r2 - r1 < 0 then false
      else true
  }

  /** No square pair is both a simple move and a jump. */
  lemma SimpleAndJumpExclusive(g: Grid, r1: int, c1: int, r2: int, c2: int)
    requires WellFormed(g)
    ensures !(IsSimpleMoveValid(g, r1, c1, r2, c2) && IsJumpValid(g, r1, c1, r2, c2))
  {
  }

  // ---------------------------------------------------------------------
  // Move lists
  // ---------------------------------------------------------------------

  /** CheckersGame::Move. */
  datatype Move = Move(startR: int, startC: int, endR: int, endC: int)

  const JumpDirections: seq<(int, int)> := [(-2, -2), (-2, 2), (2, -2), (2, 2)]
  const StepDirections: seq<(int, int)> := [(-1, -1), (-1, 1), (1, -1), (1, 1)]

  /** The jump of the piece on (r, c) in direction `d`, if it is on the board and legal. */
  function JumpTo(g: Grid, r: int, c: int, d: (int, int)): seq<Move>
    requires WellFormed(g)
  {
    if InBounds(r + d.0, c + d.1) && IsJumpValid(g, r, c, r + d.0, c + d.1) then [Move(r, c, r + d.0, c + d.1)] else []
  }

  /** The simple move of the piece on (r, c) in direction `d`, if it is on the board and legal. */
  function StepTo(g: Grid, r: int, c: int, d: (int, int)): seq<Move>
    requires WellFormed(g)
  {
    if InBounds(r + d.0, c + d.1) && IsSimpleMoveValid(g, r, c, r + d.0, c + d.1) then [Move(r, c, r + d.0, c + d.1)] else []
  }

  /** The jumps the direction loop of getPossibleJumpsForPiece finds trying the directions `dirs` in order. */
  function JumpsAlong(g: Grid, r: int, c: int, dirs: seq<(int, int)>): seq<Move>
    requires WellFormed(g)
    decreases |dirs|
  {
    if |dirs| == 0 then [] else JumpsAlong(g, r, c, dirs[..|dirs| - 1]) + JumpTo(g, r, c, dirs[|dirs| - 1])
  }

  /** The simple moves the direction loop of getAllPossibleSimpleMoves finds trying the directions `dirs` in order. */
  function StepsAlong(g: Grid, r: int, c: int, dirs: seq<(int, int)>): seq<Move>
    requires WellFormed(g)
    decreases |dirs|
  {
    if |dirs| == 0 then [] else StepsAlong(g, r, c, dirs[..|dirs| - 1]) + StepTo(g, r, c, dirs[|dirs| - 1])
  }

  /** Round `i` of the direction loop appends what direction `dirs[i]` contributes. */
  lemma JumpsAlongNext(g: Grid, r: int, c: int, dirs: seq<(int, int)>, i: int)
    requires WellFormed(g) && 0 <= i < |dirs|
    ensures JumpsAlong(g, r, c, dirs[..i + 1]) == JumpsAlong(g, r, c, dirs[..i]) + JumpTo(g, r, c, dirs[i])
  {
    assert dirs[..i + 1][..i] == dirs[..i];
  }

  lemma StepsAlongNext(g: Grid, r: int, c: int, dirs: seq<(int, int)>, i: int)
    requires WellFormed(g) && 0 <= i < |dirs|
    ensures StepsAlong(g, r, c, dirs[..i + 1]) == StepsAlong(g, r, c, dirs[..i]) + StepTo(g, r, c, dirs[i])
  {
    assert dirs[..i + 1][..i] == dirs[..i];
  }

  /** What getPossibleJumpsForPiece(r, c) returns. */
  function PieceJumps(g: Grid, r: int, c: int): seq<Move>
    requires WellFormed(g)
  {
    JumpsAlong(g, r, c, JumpDirections)
  }

  /** The simple moves the scan of getAllPossibleSimpleMoves collects for the piece on (r, c). */
  function PieceSteps(g: Grid, r: int, c: int): seq<Move>
    requires WellFormed(g)
  {
    StepsAlong(g, r, c, StepDirections)
  }

  /** A legal jump of the piece on (r, c), to a square on the board. */
  predicate IsJumpFrom(g: Grid, r: int, c: int, m: Move)
    requires WellFormed(g)
  {
    m.startR == r && m.startC == c && InBounds(m.endR, m.endC) && IsJumpValid(g, r, c, m.endR, m.endC)
  }

  /** A legal simple move of the piece on (r, c), to a square on the board. */
  predicate IsStepFrom(g: Grid, r: int, c: int, m: Move)
    requires WellFormed(g)
  {
    m.startR == r && m.startC == c && InBounds(m.endR, m.endC) && IsSimpleMoveValid(g, r, c, m.endR, m.endC)
  }

  /** Direction `d` contributes exactly the legal on-board jump along it. */
  lemma JumpToMembers(g: Grid, r: int, c: int, d: (int, int), m: Move)
    requires WellFormed(g)
    ensures m in JumpTo(g, r, c, d) <==> IsJumpFrom(g, r, c, m) && (m.endR - r, m.endC - c) == d
  {
  }

  /** The direction loop finds a jump exactly when it is legal and its direction was tried. */
  lemma {:induction false} JumpsAlongMembers(g: Grid, r: int, c: int, dirs: seq<(int, int)>, m: Move)
    requires WellFormed(g)
    ensures m in JumpsAlong(g, r, c, dirs) <==> IsJumpFrom(g, r, c, m) && (m.endR - r, m.endC - c) in dirs
    decreases |dirs|
  {
    if |dirs| > 0 {
      var init, d := dirs[..|dirs| - 1], dirs[|dirs| - 1];
      JumpsAlongMembers(g, r, c, init, m);
      assert dirs == init + [d];
      JumpToMembers(g, r, c, d, m);
    }
  }

  /** Direction `d` contributes exactly the legal on-board simple move along it. */
  lemma StepToMembers(g: Grid, r: int, c: int, d: (int, int), m: Move)
    requires WellFormed(g)
    ensures m in StepTo(g, r, c, d) <==> IsStepFrom(g, r, c, m) && (m.endR - r, m.endC - c) == d
  {
  }

  /** The direction loop finds a simple move exactly when it is legal and its direction was tried. */
  lemma {:induction false} StepsAlongMembers(g: Grid, r: int, c: int, dirs: seq<(int, int)>, m: Move)
    requires WellFormed(g)
    ensures m in StepsAlong(g, r, c, dirs) <==> IsStepFrom(g, r, c, m) && (m.endR - r, m.endC - c) in dirs
    decreases |dirs|
  {
    if |dirs| > 0 {
      var init, d := dirs[..|dirs| - 1], dirs[|dirs| - 1];
      StepsAlongMembers(g, r, c, init, m);
      assert dirs == init + [d];
      StepToMembers(g, r, c, d, m);
    }
  }

  /** getPossibleJumpsForPiece lists exactly the legal on-board jumps of the piece on (r, c). */
  lemma PieceJumpsExactly(g: Grid, r: int, c: int, m: Move)
    requires WellFormed(g)
    ensures m in PieceJumps(g, r, c) <==> IsJumpFrom(g, r, c, m)
  {
    JumpsAlongMembers(g, r, c, JumpDirections, m);
  }

  /** The direction loop lists exactly the legal on-board simple moves of the piece on (r, c). */
  lemma PieceStepsExactly(g: Grid, r: int, c: int, m: Move)
    requires WellFormed(g)
    ensures m in PieceSteps(g, r, c) <==> IsStepFrom(g, r, c, m)
  {
    StepsAlongMembers(g, r, c, StepDirections, m);
  }

  /** An empty square has no jumps: the early return of getPossibleJumpsForPiece loses nothing. */
  lemma {:induction false} EmptySquareNoJumps(g: Grid, r: int, c: int, dirs: seq<(int, int)>)
    requires WellFormed(g) && GetPiece(g, r, c).None?
    ensures JumpsAlong(g, r, c, dirs) == []
    decreases |dirs|
  {
    if |dirs| > 0 {
      EmptySquareNoJumps(g, r, c, dirs[..|dirs| - 1]);
    }
  }

  /** The cell visited at step `k` of a row-major scan of the board. */
  function CellRow(k: nat): int { k / BoardSize }
  function CellCol(k: nat): int { k % BoardSize }

  predicate OwnedBy(g: Grid, r: int, c: int, p: Player)
    requires WellFormed(g)
  {
    GetPiece(g, r, c).Some? && GetPiece(g, r, c).value.owner == p
  }

  /** getAllPossibleJumps after scanning the first `k` cells. */
  function AllJumpsUpTo(g: Grid, p: Player, k: nat): seq<Move>
    requires WellFormed(g) && k <= BoardSize * BoardSize
  {
    if k == 0 then []
    else
      var r, c := CellRow(k - 1), CellCol(k - 1);
      AllJumpsUpTo(g, p, k - 1) + if OwnedBy(g, r, c, p) then PieceJumps(g, r, c) else []
  }

  /** getAllPossibleSimpleMoves after scanning the first `k` cells. */
  function AllStepsUpTo(g: Grid, p: Player, k: nat): seq<Move>
    requires WellFormed(g) && k <= BoardSize * BoardSize
  {
    if k == 0 then []
    else
      var r, c := CellRow(k - 1), CellCol(k - 1);
      AllStepsUpTo(g, p, k - 1) + if OwnedBy(g, r, c, p) then PieceSteps(g, r, c) else []
  }

  /** Scanning cell (r, c) appends the moves of the piece there, if it is `p`'s. */
  lemma AllJumpsNext(g: Grid, p: Player, r: int, c: int)
    requires WellFormed(g) && InBounds(r, c)
    ensures AllJumpsUpTo(g, p, r * BoardSize + c + 1) ==
      AllJumpsUpTo(g, p, r * BoardSize + c) + if OwnedBy(g, r, c, p) then PieceJumps(g, r, c) else []
  {
    assert CellRow(r * BoardSize + c) == r && CellCol(r * BoardSize + c) == c;
  }

  lemma AllStepsNext(g: Grid, p: Player, r: int, c: int)
    requires WellFormed(g) && InBounds(r, c)
    ensures AllStepsUpTo(g, p, r * BoardSize + c + 1) ==
      AllStepsUpTo(g, p, r * BoardSize + c) + if OwnedBy(g, r, c, p) then PieceSteps(g, r, c) else []
  {
    assert CellRow(r * BoardSize + c) == r && CellCol(r * BoardSize + c) == c;
  }

  function AllJumps(g: Grid, p: Player): seq<Move>
    requires WellFormed(g)
  {
    AllJumpsUpTo(g, p, BoardSize * BoardSize)
  }

  function AllSimpleMoves(g: Grid, p: Player): seq<Move>
    requires WellFormed(g)
  {
    AllStepsUpTo(g, p, BoardSize * BoardSize)
  }

  /** A legal jump by one of `p`'s pieces. */
  predicate IsPlayerJump(g: Grid, p: Player, m: Move)
    requires WellFormed(g)
  {
    OwnedBy(g, m.startR, m.startC, p) && IsJumpFrom(g, m.startR, m.startC, m)
  }

  /** A legal simple move by one of `p`'s pieces. */
  predicate IsPlayerStep(g: Grid, p: Player, m: Move)
    requires WellFormed(g)
  {
    OwnedBy(g, m.startR, m.startC, p) && IsStepFrom(g, m.startR, m.startC, m)
  }

  lemma {:induction false} AllJumpsUpToMembers(g: Grid, p: Player, k: nat, m: Move)
    requires WellFormed(g) && k <= BoardSize * BoardSize
    ensures m in AllJumpsUpTo(g, p, k) <==>
      IsPlayerJump(g, p, m) && m.startR * BoardSize + m.startC < k
  {
    if k > 0 {
      AllJumpsUpToMembers(g, p, k - 1, m);
      var r, c := CellRow(k - 1), CellCol(k - 1);
      PieceJumpsExactly(g, r, c, m);
      assert r * BoardSize + c == k - 1;
      if IsPlayerJump(g, p, m) && m.startR * BoardSize + m.startC == k - 1 {
        assert m.startR == r && m.startC == c;
      }
    }
  }

  lemma {:induction false} AllStepsUpToMembers(g: Grid, p: Player, k: nat, m: Move)
    requires WellFormed(g) && k <= BoardSize * BoardSize
    ensures m in AllStepsUpTo(g, p, k) <==>
      IsPlayerStep(g, p, m) && m.startR * BoardSize + m.startC < k
  {
    if k > 0 {
      AllStepsUpToMembers(g, p, k - 1, m);
      var r, c := CellRow(k - 1), CellCol(k - 1);
      PieceStepsExactly(g, r, c, m);
      assert r * BoardSize + c == k - 1;
      if IsPlayerStep(g, p, m) && m.startR * BoardSize + m.startC == k - 1 {
        assert m.startR == r && m.startC == c;
      }
    }
  }

  /** getAllPossibleJumps lists exactly the legal jumps of `p`'s pieces. */
  lemma AllJumpsExactly(g: Grid, p: Player, m: Move)
    requires WellFormed(g)
    ensures m in AllJumps(g, p) <==> IsPlayerJump(g, p, m)
  {
    AllJumpsUpToMembers(g, p, BoardSize * BoardSize, m);
  }

  /** getAllPossibleSimpleMoves lists exactly the legal simple moves of `p`'s pieces. */
  lemma AllSimpleMovesExactly(g: Grid, p: Player, m: Move)
    requires WellFormed(g)
    ensures m in AllSimpleMoves(g, p) <==> IsPlayerStep(g, p, m)
  {
    AllStepsUpToMembers(g, p, BoardSize * BoardSize, m);
  }

  /** `p` has some legal move, stated without the generators. */
  ghost predicate HasLegalMove(g: Grid, p: Player)
    requires WellFormed(g)
  {
    exists m: Move :: IsPlayerJump(g, p, m) || IsPlayerStep(g, p, m)
  }

  /** Both generators come back empty exactly when `p` has no legal move. */
  lemma NoMovesIff(g: Grid, p: Player)
    requires WellFormed(g)
    ensures (|AllJumps(g, p)| == 0 && |AllSimpleMoves(g, p)| == 0) <==> !HasLegalMove(g, p)
  {
    if |AllJumps(g, p)| > 0 {
      AllJumpsExactly(g, p, AllJumps(g, p)[0]);
    } else if |AllSimpleMoves(g, p)| > 0 {
      AllSimpleMovesExactly(g, p, AllSimpleMoves(g, p)[0]);
    }
    if HasLegalMove(g, p) {
      var m: Move :| IsPlayerJump(g, p, m) || IsPlayerStep(g, p, m);
      AllJumpsExactly(g, p, m);
      AllSimpleMovesExactly(g, p, m);
    }
  }

  // ---------------------------------------------------------------------
  // executeMove
  // ---------------------------------------------------------------------

  /** Steps 1-2 of executeMove: move the piece and, when the row changes by 2, remove the jumped square. */
  function AfterMove(g: Grid, r1: int, c1: int, r2: int, c2: int): (h: Grid)
    requires WellFormed(g) && InBounds(r1, c1) && InBounds(r2, c2)
    ensures WellFormed(h)
  {
    var moved := MovedGrid(g, r1, c1, r2, c2);
    if Abs(r2 - r1) == 2 then RemovedGrid(moved, Half(r1 + r2), Half(c1 + c2)) else moved
  }

  /** Step 3 of executeMove: the move was a jump and the landing square has a further jump. */
  predicate ContinuesJump(g: Grid, r1: int, c1: int, r2: int, c2: int)
    requires WellFormed(g) && InBounds(r1, c1) && InBounds(r2, c2)
  {
    Abs(r2 - r1) == 2 && |PieceJumps(AfterMove(g, r1, c1, r2, c2), r2, c2)| != 0
  }

  /** Step 4 of executeMove: a RED piece on row 0 or a BLACK piece on row 7 is made a king. */
  function PromotedGrid(g: Grid, r: int, c: int): (h: Grid)
    requires WellFormed(g) && InBounds(r, c)
    ensures WellFormed(h)
  {
    match g[r][c]
    case None => g
    case Some(piece) =>
      if OnKingRow(piece.owner, r)
      then SetCell(g, r, c, Some(piece.MakeKing()))
      else g
  }

  /** The board executeMove leaves behind. */
  function ExecutedGrid(g: Grid, r1: int, c1: int, r2: int, c2: int): (h: Grid)
    requires WellFormed(g) && InBounds(r1, c1) && InBounds(r2, c2)
    ensures WellFormed(h)
  {
    var after := AfterMove(g, r1, c1, r2, c2);
    if ContinuesJump(g, r1, c1, r2, c2) then after else PromotedGrid(after, r2, c2)
  }

  /** The player to move once executeMove returns. */
  function PlayerAfter(g: Grid, current: Player, r1: int, c1: int, r2: int, c2: int): Player
    requires WellFormed(g) && InBounds(r1, c1) && InBounds(r2, c2)
  {
    if ContinuesJump(g, r1, c1, r2, c2) then current else Opponent(current)
  }

  /** Whether a piece of `owner` on row `r` has reached the far rank. */
  predicate OnKingRow(owner: Player, r: int)
  {
    (owner == Red && r == 0) || (owner == Black && r == BoardSize - 1)
  }

  /** (i, j) and (r, c) are different squares. */
  predicate Apart(i: int, j: int, r: int, c: int)
  {
    i != r || j != c
  }

  lemma HalfOfSum(a: int, b: int)
    requires 0 <= a < BoardSize && 0 <= b < BoardSize
    ensures Half(a + b) == (a + b) / 2 && 0 <= Half(a + b) < BoardSize
  {
  }

  /**
   * A jump empties the origin and the jumped square, puts the mover (with
   * its new position) on the landing square and touches nothing else. The
   * mover is a king afterwards iff it was one, or it reached the far rank
   * and has no further jump.
   */
  lemma JumpEffect(g: Grid, r1: int, c1: int, r2: int, c2: int)
    requires WellFormed(g) && InBounds(r1, c1) && InBounds(r2, c2)
    requires g[r1][c1].Some? && Abs(r2 - r1) == 2 && Abs(c2 - c1) == 2
    ensures var h := ExecutedGrid(g, r1, c1, r2, c2);
      var mover := g[r1][c1].value;
      && h[r1][c1] == None
      && h[(r1 + r2) / 2][(c1 + c2) / 2] == None
      && h[r2][c2].Some?
      && h[r2][c2].value.owner == mover.owner
      && h[r2][c2].value.row == r2 && h[r2][c2].value.col == c2
      && (h[r2][c2].value.isKing <==>
            mover.isKing || (!ContinuesJump(g, r1, c1, r2, c2) && OnKingRow(mover.owner, r2)))
      && forall i, j :: InBounds(i, j) && Apart(i, j, r1, c1) && Apart(i, j, r2, c2) && Apart(i, j, (r1 + r2) / 2, (c1 + c2) / 2) ==> h[i][j] == g[i][j]
  {
    HalfOfSum(r1, r2);
    HalfOfSum(c1, c2);
  }

  /**
   * A simple move empties the origin and puts the mover on the target with
   * its new position, kinged iff it was a king or reached the far rank; no
   * other square changes.
   */
  lemma StepEffect(g: Grid, r1: int, c1: int, r2: int, c2: int)
    requires WellFormed(g) && InBounds(r1, c1) && InBounds(r2, c2)
    requires g[r1][c1].Some? && Abs(r2 - r1) == 1 && Abs(c2 - c1) == 1
    ensures !ContinuesJump(g, r1, c1, r2, c2)
    ensures var h := ExecutedGrid(g, r1, c1, r2, c2);
      var mover := g[r1][c1].value;
      && h[r1][c1] == None
      && h[r2][c2].Some?
      && h[r2][c2].value.owner == mover.owner
      && h[r2][c2].value.row == r2 && h[r2][c2].value.col == c2
      && (h[r2][c2].value.isKing <==> mover.isKing || OnKingRow(mover.owner, r2))
      && forall i, j :: InBounds(i, j) && Apart(i, j, r1, c1) && Apart(i, j, r2, c2) ==> h[i][j] == g[i][j]
  {
  }

  /** executeMove never adds a piece to either side. */
  lemma ExecutedCount(g: Grid, r1: int, c1: int, r2: int, c2: int, p: Player)
    requires WellFormed(g) && InBounds(r1, c1) && InBounds(r2, c2)
    ensures CountPieces(ExecutedGrid(g, r1, c1, r2, c2), p) <= CountPieces(g, p)
  {
    var moved := MovedGrid(g, r1, c1, r2, c2);
    MovedGridCount(g, r1, c1, r2, c2, p);
    var after := AfterMove(g, r1, c1, r2, c2);
    if Abs(r2 - r1) == 2 {
      HalfOfSum(r1, r2);
      HalfOfSum(c1, c2);
      RemovedGridCount(moved, Half(r1 + r2), Half(c1 + c2), p);
    }
    assert CountPieces(after, p) <= CountPieces(g, p);
    if !ContinuesJump(g, r1, c1, r2, c2) && after[r2][c2].Some? {
      CountSetCell(after, r2, c2, Some(after[r2][c2].value.MakeKing()), p);
    }
  }

  /** executeMove keeps every piece's record of its own cell. */
  lemma ExecutedConsistent(g: Grid, r1: int, c1: int, r2: int, c2: int)
    requires WellFormed(g) && PositionsConsistent(g) && InBounds(r1, c1) && InBounds(r2, c2)
    ensures PositionsConsistent(ExecutedGrid(g, r1, c1, r2, c2))
  {
    MovedConsistent(g, r1, c1, r2, c2);
    var moved := MovedGrid(g, r1, c1, r2, c2);
    if Abs(r2 - r1) == 2 {
      HalfOfSum(r1, r2);
      HalfOfSum(c1, c2);
      RemovedConsistent(moved, Half(r1 + r2), Half(c1 + c2));
    }
    PromotedConsistent(AfterMove(g, r1, c1, r2, c2), r2, c2);
  }

  lemma MovedConsistent(g: Grid, r1: int, c1: int, r2: int, c2: int)
    requires WellFormed(g) && PositionsConsistent(g) && InBounds(r1, c1) && InBounds(r2, c2)
    ensures PositionsConsistent(MovedGrid(g, r1, c1, r2, c2))
  {
  }

  lemma RemovedConsistent(g: Grid, r: int, c: int)
    requires WellFormed(g) && PositionsConsistent(g) && InBounds(r, c)
    ensures PositionsConsistent(RemovedGrid(g, r, c))
  {
  }

  lemma PromotedConsistent(g: Grid, r: int, c: int)
    requires WellFormed(g) && PositionsConsistent(g) && InBounds(r, c)
    ensures PositionsConsistent(PromotedGrid(g, r, c))
  {
  }

  /** A diagonal step keeps the colour of the square. */
  lemma DiagonalParity(r1: int, c1: int, r2: int, c2: int)
    requires Abs(r2 - r1) == Abs(c2 - c1)
    ensures (r2 + c2) % 2 == (r1 + c1) % 2
  {
    var k := if r2 - r1 == c2 - c1 then r2 - r1 else 0;
    assert r2 + c2 == (r1 + c1) + 2 * k;
  }

  /** Moving a piece diagonally keeps the square colour of every piece. */
  lemma DiagonalOnDark(g: Grid, r1: int, c1: int, r2: int, c2: int)
    requires WellFormed(g) && OnDarkSquares(g) && InBounds(r1, c1) && InBounds(r2, c2)
    requires g[r1][c1].Some? && Abs(r2 - r1) == Abs(c2 - c1) && 1 <= Abs(r2 - r1) <= 2
    ensures OnDarkSquares(ExecutedGrid(g, r1, c1, r2, c2))
  {
    var h: Grid := ExecutedGrid(g, r1, c1, r2, c2);
    DiagonalParity(r1, c1, r2, c2);
    assert (r1 + c1) % 2 == 1;
    if Abs(r2 - r1) == 2 {
      JumpEffect(g, r1, c1, r2, c2);
    } else {
      StepEffect(g, r1, c1, r2, c2);
    }
    forall i: int, j: int | InBounds(i, j) && Apart(i, j, r2, c2) && h[i][j].Some?
      ensures h[i][j] == g[i][j]
    {
    }
    OnDarkElsewhere(g, h, r2, c2);
  }

  /** A grid whose pieces are the pieces of a dark-square grid, except one on a dark square, is on dark squares. */
  lemma OnDarkElsewhere(g: Grid, h: Grid, r: int, c: int)
    requires WellFormed(g) && WellFormed(h) && OnDarkSquares(g) && (r + c) % 2 == 1
    requires forall i, j :: InBounds(i, j) && Apart(i, j, r, c) && h[i][j].Some? ==> h[i][j] == g[i][j]
    ensures OnDarkSquares(h)
  {
    forall i: int, j: int | InBounds(i, j) && h[i][j].Some?
      ensures (i + j) % 2 == 1
    {
      if Apart(i, j, r, c) {
        assert g[i][j].Some?;
      }
    }
  }

  /** A validated move keeps every piece on a dark square. */
  lemma ExecutedOnDark(g: Grid, r1: int, c1: int, r2: int, c2: int)
    requires WellFormed(g) && OnDarkSquares(g) && InBounds(r1, c1) && InBounds(r2, c2)
    requires IsJumpValid(g, r1, c1, r2, c2) || IsSimpleMoveValid(g, r1, c1, r2, c2)
    ensures OnDarkSquares(ExecutedGrid(g, r1, c1, r2, c2))
  {
    DiagonalOnDark(g, r1, c1, r2, c2);
  }

  // ---------------------------------------------------------------------
  // The acceptance rule of the turn loop
  // ---------------------------------------------------------------------

  /** Why the turn loop turns a candidate down. */
  datatype Rejection =
    | BadFormat          // parseInput failed
    | NotYourPiece       // origin empty or owned by the other player
    | JumpMandatory      // a jump is forced and the row does not change by 2
    | InvalidJump        // the row changes by 2 but isJumpValid fails
    | InvalidSimpleMove  // no jump forced, the row does not change by 2, isSimpleMoveValid fails

  /**
   * The verdict of run() on the candidate (r1, c1) -> (r2, c2) by `current`
   * when `jumpIsForced` was computed at the start of the turn; None accepts.
   */
  function Verdict(g: Grid, current: Player, jumpIsForced: bool, r1: int, c1: int, r2: int, c2: int): Option<Rejection>
    requires WellFormed(g)
  {
    if !OwnedBy(g, r1, c1, current) then Some(NotYourPiece)
    else if jumpIsForced && Abs(r2 - r1) != 2 then Some(JumpMandatory)
    else if Abs(r2 - r1) == 2 && !IsJumpValid(g, r1, c1, r2, c2) then Some(InvalidJump)
    else if Abs(r2 - r1) != 2 && !IsSimpleMoveValid(g, r1, c1, r2, c2) then Some(InvalidSimpleMove)
    else None
  }

  /**
   * A candidate is accepted iff it moves the player's own piece by a valid
   * jump, or, when no jump was forced, by a valid simple move.
   */
  lemma VerdictAccepts(g: Grid, current: Player, jumpIsForced: bool, r1: int, c1: int, r2: int, c2: int)
    requires WellFormed(g)
    ensures Verdict(g, current, jumpIsForced, r1, c1, r2, c2) == None <==>
      OwnedBy(g, r1, c1, current) &&
      (IsJumpValid(g, r1, c1, r2, c2) || (!jumpIsForced && IsSimpleMoveValid(g, r1, c1, r2, c2)))
  {
  }

  /**
   * With the forced flag computed on the current board, the accepted
   * on-board candidates are exactly the generated moves: the jumps when
   * there is one, the simple moves otherwise.
   */
  lemma AcceptedAreGenerated(g: Grid, current: Player, r1: int, c1: int, r2: int, c2: int)
    requires WellFormed(g) && InBounds(r1, c1) && InBounds(r2, c2)
    ensures var forced := |AllJumps(g, current)| != 0;
      Verdict(g, current, forced, r1, c1, r2, c2) == None <==>
      Move(r1, c1, r2, c2) in (if forced then AllJumps(g, current) else AllSimpleMoves(g, current))
  {
    var m := Move(r1, c1, r2, c2);
    AllJumpsExactly(g, current, m);
    AllSimpleMovesExactly(g, current, m);
    if |AllJumps(g, current)| == 0 && IsJumpValid(g, r1, c1, r2, c2) && OwnedBy(g, r1, c1, current) {
      assert IsPlayerJump(g, current, m);
      assert false;
    }
  }

  /** While a jump is forced, even a valid simple move of the player's own piece is turned down. */
  lemma MandatoryJumpRejectsSteps(g: Grid, current: Player, r1: int, c1: int, r2: int, c2: int)
    requires WellFormed(g) && OwnedBy(g, r1, c1, current)
    requires |AllJumps(g, current)| != 0 && IsSimpleMoveValid(g, r1, c1, r2, c2)
    ensures Verdict(g, current, true, r1, c1, r2, c2) == Some(JumpMandatory)
  {
  }
}
