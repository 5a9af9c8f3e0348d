/**
 * CheckersGame: the generators, executeMove, checkForWin and the turn loop
 * of run(), as a class over a Board object, each method proved against the
 * pure rules of CheckersRules.
 */
module CheckersEngine {
  import opened Wrappers
  import opened CheckersBoard
  import opened CheckersRules
  import opened CheckersNotation

  /** What the turn loop makes of one input line. */
  datatype Outcome =
    | Exited                          // "exit" or "quit"
    | Rejected(reason: Rejection)     // the same player is asked again
    | Accepted(turnComplete: bool)    // the move was executed

  /** Board and player to move: what run() changes. */
  datatype GameState = GameState(grid: Grid, current: Player)

  /** How a turn of run() ended. */
  datatype TurnEnd = TurnComplete | TurnExited | OutOfInput

  /** checkForWin on board `g` with `current` to move. */
  function Winner(g: Grid, current: Player): Player
    requires WellFormed(g)
  {
    if CountPieces(g, Red) == 0 then Black
    else if CountPieces(g, Black) == 0 then Red
    else if |AllJumps(g, current)| == 0 && |AllSimpleMoves(g, current)| == 0 then Opponent(current)
    else NoPlayer
  }

  /**
   * checkForWin's precedence: RED eliminated, then BLACK eliminated, then
   * the player to move has no legal move at all and loses; otherwise no
   * winner.
   */
  lemma WinnerCases(g: Grid, current: Player)
    requires WellFormed(g)
    ensures CountPieces(g, Red) == 0 ==> Winner(g, current) == Black
    ensures CountPieces(g, Red) != 0 && CountPieces(g, Black) == 0 ==> Winner(g, current) == Red
    ensures CountPieces(g, Red) != 0 && CountPieces(g, Black) != 0 ==>
      Winner(g, current) == if HasLegalMove(g, current) then NoPlayer else Opponent(current)
  {
    NoMovesIff(g, current);
  }

  /** Lines 470-512 of run(): judge a parsed candidate and execute it when accepted. */
  function MoveStep(s: GameState, jumpIsForced: bool, m: Coords): (r: (Outcome, GameState))
    requires WellFormed(s.grid) && InBounds(m.r1, m.c1) && InBounds(m.r2, m.c2)
    ensures r.0.Rejected? ==> r.1 == s
    ensures r.0.Accepted? <==>
      OwnedBy(s.grid, m.r1, m.c1, s.current) &&
      (IsJumpValid(s.grid, m.r1, m.c1, m.r2, m.c2) ||
       (!jumpIsForced && IsSimpleMoveValid(s.grid, m.r1, m.c1, m.r2, m.c2)))
    ensures r.0.Accepted? ==>
      r.0.turnComplete == !ContinuesJump(s.grid, m.r1, m.c1, m.r2, m.c2) &&
      r.1.grid == ExecutedGrid(s.grid, m.r1, m.c1, m.r2, m.c2)
  {
    VerdictAccepts(s.grid, s.current, jumpIsForced, m.r1, m.c1, m.r2, m.c2);
    match Verdict(s.grid, s.current, jumpIsForced, m.r1, m.c1, m.r2, m.c2)
    case Some(e) => (Rejected(e), s)
    case None =>
      (Accepted(!ContinuesJump(s.grid, m.r1, m.c1, m.r2, m.c2)),
       GameState(ExecutedGrid(s.grid, m.r1, m.c1, m.r2, m.c2),
                 PlayerAfter(s.grid, s.current, m.r1, m.c1, m.r2, m.c2)))
  }

  /**
   * One pass of run()'s inner loop on one input line. Anything but an
   * accepted move leaves board and player as they were; a move that
   * completes the turn hands it to the opponent, a multi-jump keeps it.
   */
  function Step(s: GameState, jumpIsForced: bool, input: string): (r: (Outcome, GameState))
    requires WellFormed(s.grid)
    ensures WellFormed(r.1.grid)
    ensures !r.0.Accepted? ==> r.1 == s
    ensures r.0 == Accepted(true) ==> r.1.current == Opponent(s.current)
    ensures r.0 == Accepted(false) ==> r.1.current == s.current
    ensures r.0 == Exited <==> input == "exit" || input == "quit"
  {
    if input == "exit" || input == "quit" then (Exited, s)
    else
      match ParseInput(input)
      case None => (Rejected(BadFormat), s)
      case Some(m) => MoveStep(s, jumpIsForced, m)
  }

  /**
   * Lines 449-513 of run() over a finite list of input lines: lines are
   * read until one completes the turn or exits. Returns the number of lines
   * read, how the turn ended and the state after it.
   */
  function Turn(s: GameState, jumpIsForced: bool, lines: seq<string>): (r: (nat, TurnEnd, GameState))
    requires WellFormed(s.grid)
    ensures WellFormed(r.2.grid)
    ensures r.0 <= |lines|
    ensures r.1 == OutOfInput ==> r.0 == |lines|
    ensures r.1 != OutOfInput ==> r.0 >= 1
    ensures r.2.current == if r.1 == TurnComplete then Opponent(s.current) else s.current
    decreases |lines|
  {
    if |lines| == 0 then (0, OutOfInput, s)
    else
      var step := Step(s, jumpIsForced, lines[0]);
      if step.0 == Exited then (1, TurnExited, step.1)
      else if step.0 == Accepted(true) then (1, TurnComplete, step.1)
      else
        var rest := Turn(step.1, jumpIsForced, lines[1..]);
        (rest.0 + 1, rest.1, rest.2)
  }

  /** A line that neither exits nor completes the turn: the turn goes on with the remaining lines. */
  lemma TurnGoesOn(s: GameState, jumpIsForced: bool, lines: seq<string>, o: Outcome, next: GameState)
    requires WellFormed(s.grid) && |lines| > 0
    requires (o, next) == Step(s, jumpIsForced, lines[0]) && o != Exited && o != Accepted(true)
    ensures WellFormed(next.grid)
    ensures var rest := Turn(next, jumpIsForced, lines[1..]);
      Turn(s, jumpIsForced, lines).0 == rest.0 + 1 && Turn(s, jumpIsForced, lines).1 == rest.1 &&
      Turn(s, jumpIsForced, lines).2 == rest.2
  {
  }

  /** A line that exits or completes the turn ends it. */
  lemma TurnEnds(s: GameState, jumpIsForced: bool, lines: seq<string>, o: Outcome, next: GameState)
    requires WellFormed(s.grid) && |lines| > 0
    requires (o, next) == Step(s, jumpIsForced, lines[0]) && (o == Exited || o == Accepted(true))
    ensures Turn(s, jumpIsForced, lines).0 == 1 && Turn(s, jumpIsForced, lines).2 == next
    ensures Turn(s, jumpIsForced, lines).1 == if o == Exited then TurnExited else TurnComplete
  {
  }

  /** `total` is the outcome of a turn that had read `n` lines before going on as `rest`. */
  predicate Resumes(total: (nat, TurnEnd, GameState), n: nat, rest: (nat, TurnEnd, GameState))
  {
    total.0 == n + rest.0 && total.1 == rest.1 && total.2 == rest.2
  }

  /** An input line never adds a piece to either side. */
  lemma StepCount(s: GameState, jumpIsForced: bool, input: string, p: Player)
    requires WellFormed(s.grid)
    ensures CountPieces(Step(s, jumpIsForced, input).1.grid, p) <= CountPieces(s.grid, p)
  {
    if input != "exit" && input != "quit" && ParseInput(input).Some? {
      var m := ParseInput(input).value;
      ExecutedCount(s.grid, m.r1, m.c1, m.r2, m.c2, p);
    }
  }

  /** An input line keeps every piece on a dark square and aware of its own cell. */
  lemma StepKeepsBoardInvariants(s: GameState, jumpIsForced: bool, input: string)
    requires WellFormed(s.grid) && PositionsConsistent(s.grid)
    ensures PositionsConsistent(Step(s, jumpIsForced, input).1.grid)
    ensures OnDarkSquares(s.grid) ==> OnDarkSquares(Step(s, jumpIsForced, input).1.grid)
  {
    if input != "exit" && input != "quit" && ParseInput(input).Some? {
      var m := ParseInput(input).value;
      ExecutedConsistent(s.grid, m.r1, m.c1, m.r2, m.c2);
      if OnDarkSquares(s.grid) && Step(s, jumpIsForced, input).0.Accepted? {
        ExecutedOnDark(s.grid, m.r1, m.c1, m.r2, m.c2);
      }
    }
  }

  /** A whole turn never adds a piece to either side. */
  lemma {:induction false} TurnCount(s: GameState, jumpIsForced: bool, lines: seq<string>, p: Player)
    requires WellFormed(s.grid)
    ensures CountPieces(Turn(s, jumpIsForced, lines).2.grid, p) <= CountPieces(s.grid, p)
    decreases |lines|
  {
    if |lines| > 0 {
      var step := Step(s, jumpIsForced, lines[0]);
      StepCount(s, jumpIsForced, lines[0], p);
      if step.0 != Exited && step.0 != Accepted(true) {
        TurnCount(step.1, jumpIsForced, lines[1..], p);
      }
    }
  }

  /** A whole turn keeps every piece on a dark square and aware of its own cell. */
  lemma {:induction false} TurnKeepsBoardInvariants(s: GameState, jumpIsForced: bool, lines: seq<string>)
    requires WellFormed(s.grid) && PositionsConsistent(s.grid)
    ensures PositionsConsistent(Turn(s, jumpIsForced, lines).2.grid)
    ensures OnDarkSquares(s.grid) ==> OnDarkSquares(Turn(s, jumpIsForced, lines).2.grid)
    decreases |lines|
  {
    if |lines| > 0 {
      var step := Step(s, jumpIsForced, lines[0]);
      StepKeepsBoardInvariants(s, jumpIsForced, lines[0]);
      if step.0 != Exited && step.0 != Accepted(true) {
        TurnKeepsBoardInvariants(step.1, jumpIsForced, lines[1..]);
      }
    }
  }

  class CheckersGame {
    const board: Board
    var currentPlayer: Player

    ghost predicate Valid()
      reads this, board
    {
      board.Valid() && (currentPlayer == Red || currentPlayer == Black)
    }

    ghost function State(): GameState
      reads this, board
    {
      GameState(board.grid, currentPlayer)
    }

    /** CheckersGame::CheckersGame: an empty board and RED to move. */
    constructor ()
      ensures Valid() && fresh(board)
      ensures board.grid == EmptyGrid() && currentPlayer == Red
    {
      board := new Board();
      currentPlayer := Red;
    }

    /** getPossibleJumpsForPiece: the four two-square diagonals that are on the board and pass isJumpValid. */
    method GetPossibleJumpsForPiece(r: int, c: int) returns (jumps: seq<Move>)
      requires WellFormed(board.grid)
      ensures jumps == PieceJumps(board.grid, r, c)
    {
      var g := board.grid;
      jumps := [];
      var piece := GetPiece(g, r, c);
      if piece.None? {
        EmptySquareNoJumps(g, r, c, JumpDirections);
        return;
      }
      for i := 0 to |JumpDirections|
        invariant jumps == JumpsAlong(g, r, c, JumpDirections[..i])
      {
        JumpsAlongNext(g, r, c, JumpDirections, i);
        var r2 := r + JumpDirections[i].0;
        var c2 := c + JumpDirections[i].1;
        if InBounds(r2, c2) && IsJumpValid(g, r, c, r2, c2) {
          jumps := jumps + [Move(r, c, r2, c2)];
        }
      }
      assert JumpDirections[..|JumpDirections|] == JumpDirections;
    }

    /** getAllPossibleJumps: every legal jump of a piece of the player to move. */
    method GetAllPossibleJumps() returns (allJumps: seq<Move>)
      requires WellFormed(board.grid)
      ensures allJumps == AllJumps(board.grid, currentPlayer)
    {
      var g, p := board.grid, currentPlayer;
      allJumps := [];
      for r := 0 to BoardSize
        invariant allJumps == AllJumpsUpTo(g, p, r * BoardSize)
      {
        for c := 0 to BoardSize
          invariant allJumps == AllJumpsUpTo(g, p, r * BoardSize + c)
        {
          AllJumpsNext(g, p, r, c);
          var piece := GetPiece(g, r, c);
          if piece.Some? && piece.value.owner == p {
            var jumps := GetPossibleJumpsForPiece(r, c);
            allJumps := allJumps + jumps;
          }
        }
      }
    }

    /**
     * The direction loop of getAllPossibleSimpleMoves for one piece: the
     * four one-square diagonals that are on the board and pass
     * isSimpleMoveValid.
     */
    method PieceSimpleMoves(r: int, c: int) returns (moves: seq<Move>)
      requires WellFormed(board.grid)
      ensures moves == PieceSteps(board.grid, r, c)
    {
      var g := board.grid;
      moves := [];
      for i := 0 to |StepDirections|
        invariant moves == StepsAlong(g, r, c, StepDirections[..i])
      {
        StepsAlongNext(g, r, c, StepDirections, i);
        var r2 := r + StepDirections[i].0;
        var c2 := c + StepDirections[i].1;
        if InBounds(r2, c2) && IsSimpleMoveValid(g, r, c, r2, c2) {
          moves := moves + [Move(r, c, r2, c2)];
        }
      }
      assert StepDirections[..|StepDirections|] == StepDirections;
    }

    /** getAllPossibleSimpleMoves: every legal simple move of a piece of the player to move. */
    method GetAllPossibleSimpleMoves() returns (allMoves: seq<Move>)
      requires WellFormed(board.grid)
      ensures allMoves == AllSimpleMoves(board.grid, currentPlayer)
    {
      var g, p := board.grid, currentPlayer;
      allMoves := [];
      for r := 0 to BoardSize
        invariant allMoves == AllStepsUpTo(g, p, r * BoardSize)
      {
        for c := 0 to BoardSize
          invariant allMoves == AllStepsUpTo(g, p, r * BoardSize + c)
        {
          AllStepsNext(g, p, r, c);
          var piece := GetPiece(g, r, c);
          if piece.Some? && piece.value.owner == p {
            var moves := PieceSimpleMoves(r, c);
            allMoves := allMoves + moves;
          }
        }
      }
    }

    /** switchPlayer. */
    method SwitchPlayer()
      modifies this
      ensures currentPlayer == Opponent(old(currentPlayer))
    {
      currentPlayer := if currentPlayer == Red then Black else Red;
    }

    /**
     * executeMove: move, capture on a two-row move, then either report a
     * further jump from the landing square (same player, no kinging) or
     * king and pass the turn.
     */
    method ExecuteMove(r1: int, c1: int, r2: int, c2: int) returns (keepJumping: bool)
      requires Valid() && InBounds(r1, c1) && InBounds(r2, c2)
      modifies this, board
      ensures Valid()
      ensures keepJumping == ContinuesJump(old(board.grid), r1, c1, r2, c2)
      ensures board.grid == ExecutedGrid(old(board.grid), r1, c1, r2, c2)
      ensures currentPlayer == PlayerAfter(old(board.grid), old(currentPlayer), r1, c1, r2, c2)
    {
      ghost var g := board.grid;
      ExecutedConsistent(g, r1, c1, r2, c2);
      board.MovePiece(r1, c1, r2, c2);
      if Abs(r2 - r1) == 2 {
        HalfOfSum(r1, r2);
        HalfOfSum(c1, c2);
        board.RemovePiece(Half(r1 + r2), Half(c1 + c2));
        var further := GetPossibleJumpsForPiece(r2, c2);
        if |further| != 0 {
          return true;
        }
      }
      var piece := GetPiece(board.grid, r2, c2);
      if piece.Some? {
        if piece.value.owner == Red && r2 == 0 {
          board.grid := SetCell(board.grid, r2, c2, Some(piece.value.MakeKing()));
        } else if piece.value.owner == Black && r2 == BoardSize - 1 {
          board.grid := SetCell(board.grid, r2, c2, Some(piece.value.MakeKing()));
        }
      }
      SwitchPlayer();
      return false;
    }

    /** checkForWin: count both sides, then look for a move of the player to move. */
    method CheckForWin() returns (winner: Player)
      requires WellFormed(board.grid)
      ensures winner == Winner(board.grid, currentPlayer)
    {
      var redPieces := 0;
      var blackPieces := 0;
      for i := 0 to BoardSize
        invariant redPieces == CountRows(board.grid, Red, i)
        invariant blackPieces == CountRows(board.grid, Black, i)
      {
        for j := 0 to BoardSize
          invariant redPieces == CountRows(board.grid, Red, i) + CountRow(board.grid[i], Red, j)
          invariant blackPieces == CountRows(board.grid, Black, i) + CountRow(board.grid[i], Black, j)
        {
          var p := GetPiece(board.grid, i, j);
          if p.Some? {
            if p.value.owner == Red {
              redPieces := redPieces + 1;
            }
            if p.value.owner == Black {
              blackPieces := blackPieces + 1;
            }
          }
        }
      }

      if redPieces == 0 {
        return Black;
      }
      if blackPieces == 0 {
        return Red;
      }
      var jumps := GetAllPossibleJumps();
      var moves := GetAllPossibleSimpleMoves();
      if |jumps| == 0 && |moves| == 0 {
        return if currentPlayer == Red then Black else Red;
      }
      return NoPlayer;
    }

    /** Lines 470-512 of run(): the checks between a parsed line and executeMove. */
    method SubmitMove(m: Coords, jumpIsForced: bool) returns (o: Outcome)
      requires Valid() && InBounds(m.r1, m.c1) && InBounds(m.r2, m.c2)
      modifies this, board
      ensures Valid()
      ensures (o, State()) == MoveStep(old(State()), jumpIsForced, m)
    {
      var piece := GetPiece(board.grid, m.r1, m.c1);
      if piece.None? || piece.value.owner != currentPlayer {
        return Rejected(NotYourPiece);
      }
      var isJump := Abs(m.r2 - m.r1) == 2;
      if jumpIsForced {
        if isJump {
          if IsJumpValid(board.grid, m.r1, m.c1, m.r2, m.c2) {
            var keepJumping := ExecuteMove(m.r1, m.c1, m.r2, m.c2);
            o := Accepted(!keepJumping);
          } else {
            o := Rejected(InvalidJump);
          }
        } else {
          o := Rejected(JumpMandatory);
        }
      } else {
        if isJump {
          if IsJumpValid(board.grid, m.r1, m.c1, m.r2, m.c2) {
            var keepJumping := ExecuteMove(m.r1, m.c1, m.r2, m.c2);
            o := Accepted(!keepJumping);
          } else {
            o := Rejected(InvalidJump);
          }
        } else if IsSimpleMoveValid(board.grid, m.r1, m.c1, m.r2, m.c2) {
          var _ := ExecuteMove(m.r1, m.c1, m.r2, m.c2);
          o := Accepted(true);
        } else {
          o := Rejected(InvalidSimpleMove);
        }
      }
    }

    /** One pass of run()'s inner loop on an input line (lines 458-512). */
    method HandleLine(input: string, jumpIsForced: bool) returns (o: Outcome)
      requires Valid()
      modifies this, board
      ensures Valid()
      ensures (o, State()) == Step(old(State()), jumpIsForced, input)
    {
      if input == "exit" || input == "quit" {
        return Exited;
      }
      var parsed := ParseInput(input);
      if parsed.None? {
        return Rejected(BadFormat);
      }
      o := SubmitMove(parsed.value, jumpIsForced);
    }

    /**
     * Reads line `k` of a turn whose outcome over all its lines is `total`:
     * either the turn ends with this line, or it goes on with the next one.
     */
    method ReadLine(lines: seq<string>, k: nat, jumpIsForced: bool, ghost total: (nat, TurnEnd, GameState))
      returns (o: Outcome)
      requires Valid() && k < |lines|
      requires Resumes(total, k, Turn(State(), jumpIsForced, lines[k..]))
      modifies this, board
      ensures Valid()
      ensures o == Exited || o == Accepted(true) ==> total.0 == k + 1 && total.2 == State()
      ensures o == Exited ==> total.1 == TurnExited
      ensures o == Accepted(true) ==> total.1 == TurnComplete
      ensures o != Exited && o != Accepted(true) ==>
        Resumes(total, k + 1, Turn(State(), jumpIsForced, lines[k + 1..]))
    {
      ghost var before := State();
      ghost var rest := lines[k..];
      assert rest[0] == lines[k] && rest[1..] == lines[k + 1..];
      o := HandleLine(lines[k], jumpIsForced);
      if o == Exited || o == Accepted(true) {
        TurnEnds(before, jumpIsForced, rest, o, State());
      } else {
        TurnGoesOn(before, jumpIsForced, rest, o, State());
      }
    }

    /**
     * One turn of run() (lines 440-513): the forced-jump flag is computed
     * once, then lines are read until the turn completes, the player exits
     * or the lines run out.
     */
    method PlayTurn(lines: seq<string>) returns (consumed: nat, end: TurnEnd)
      requires Valid()
      modifies this, board
      ensures Valid()
      ensures (consumed, end, State()) ==
        Turn(old(State()), |AllJumps(old(board.grid), old(currentPlayer))| != 0, lines)
    {
      var forcedJumps := GetAllPossibleJumps();
      var jumpIsForced := |forcedJumps| != 0;
      ghost var total := Turn(State(), jumpIsForced, lines);
      consumed := 0;
      assert lines[consumed..] == lines;
      while consumed < |lines|
        invariant Valid() && consumed <= |lines|
        invariant Resumes(total, consumed, Turn(State(), jumpIsForced, lines[consumed..]))
      {
        var o := ReadLine(lines, consumed, jumpIsForced, total);
        if o == Exited {
          return consumed + 1, TurnExited;
        }
        if o == Accepted(true) {
          return consumed + 1, TurnComplete;
        }
        consumed := consumed + 1;
      }
      return consumed, OutOfInput;
    }

    /**
     * run() over a finite list of input lines: set up the board, then
     * alternate checkForWin and a turn until there is a winner, a player
     * exits or the lines run out. Neither side ever gains a piece, and every
     * piece stays on a dark square.
     */
    method Run(lines: seq<string>) returns (winner: Player)
      requires Valid()
      modifies this, board
      ensures Valid()
      ensures winner != NoPlayer ==> winner == Winner(board.grid, currentPlayer)
      ensures CountPieces(board.grid, Red) <= 12 && CountPieces(board.grid, Black) <= 12
      ensures OnDarkSquares(board.grid)
    {
      board.InitializeBoard();
      InitialSetup();
      var pos := 0;
      while true
        invariant Valid() && pos <= |lines|
        invariant CountPieces(board.grid, Red) <= 12 && CountPieces(board.grid, Black) <= 12
        invariant OnDarkSquares(board.grid)
        decreases |lines| - pos
      {
        winner := CheckForWin();
        if winner != NoPlayer {
          return;
        }
        ghost var before := State();
        ghost var forced := |AllJumps(board.grid, currentPlayer)| != 0;
        var used, end := PlayTurn(lines[pos..]);
        TurnCount(before, forced, lines[pos..], Red);
        TurnCount(before, forced, lines[pos..], Black);
        TurnKeepsBoardInvariants(before, forced, lines[pos..]);
        pos := pos + used;
        if end != TurnComplete {
          return NoPlayer;
        }
      }
    }
  }
}
