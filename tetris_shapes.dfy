/**
 * The TETROMINOS table of tetris_game.cpp: seven pieces, four rotations
 * each, every rotation a 4x4 mask written row by row as sixteen '0'/'1'
 * characters.
 */
module TetrisShapes {
  const PieceCount := 7
  const RotationCount := 4

  const Tetrominos: seq<seq<string>> := [
    // 0: I
    ["0000111100000000", "0100010001000100", "0000111100000000", "0100010001000100"],
    // 1: J
    ["1001110000000000", "0100010011000000", "1110001000000000", "0110010001000000"],
    // 2: L
    ["0011110000000000", "0110001000100000", "1110100000000000", "0100010011000000"],
    // 3: O
    ["1100110000000000", "1100110000000000", "1100110000000000", "1100110000000000"],
    // 4: S
    ["0111100000000000", "1001100100000000", "0111100000000000", "1001100100000000"],
    // 5: T
    ["0101110000000000", "0100110001000000", "1110010000000000", "0101100010000000"],
    // 6: Z
    ["1100011000000000", "0100110010000000", "1100011000000000", "0100110010000000"]
  ]

  predicate ValidPiece(t: int, rot: int)
  {
    0 <= t < PieceCount && 0 <= rot < RotationCount
  }

  /** Every mask of the table has sixteen characters. */
  lemma MaskLength(t: int, rot: int)
    requires ValidPiece(t, rot)
    ensures |Tetrominos| == PieceCount && |Tetrominos[t]| == RotationCount && |Tetrominos[t][rot]| == 16
  {
    match t
    case 0 => assert |Tetrominos[t][rot]| == 16;
    case 1 => assert |Tetrominos[t][rot]| == 16;
    case 2 => assert |Tetrominos[t][rot]| == 16;
    case 3 => assert |Tetrominos[t][rot]| == 16;
    case 4 => assert |Tetrominos[t][rot]| == 16;
    case 5 => assert |Tetrominos[t][rot]| == 16;
    case 6 => assert |Tetrominos[t][rot]| == 16;
  }

  /** The mask of piece `t` in rotation `rot`. */
  function Shape(t: int, rot: int): (m: string)
    requires ValidPiece(t, rot)
    ensures |m| == 16 && HasBlock(m)
  {
    ShapeHasBlock(t, rot);
    Tetrominos[t][rot]
  }

  /** get_piece_block: the mask character at local row `r`, column `c`, always '0' or '1'. */
  function GetPieceBlock(t: int, rot: int, r: int, c: int): (ch: char)
    requires ValidPiece(t, rot) && 0 <= r < 4 && 0 <= c < 4
    ensures ch == '0' || ch == '1'
    ensures ch == '1' <==> Filled(Shape(t, rot), r, c)
  {
    MaskDigits(t, rot, r * 4 + c);
    Shape(t, rot)[r * 4 + c]
  }

  /** Every character of every mask is '0' or '1'. */
  lemma MaskDigits(t: int, rot: int, k: int)
    requires ValidPiece(t, rot) && 0 <= k < 16
    ensures |Tetrominos[t][rot]| == 16 && (Tetrominos[t][rot][k] == '0' || Tetrominos[t][rot][k] == '1')
  {
    MaskLength(t, rot);
    var s := Tetrominos[t][rot];
    assert forall i :: 0 <= i < |s| ==> s[i] == '0' || s[i] == '1' by {
      match t
      case 0 => {} case 1 => {} case 2 => {} case 3 => {} case 4 => {} case 5 => {} case 6 => {}
    }
  }

  /** Cell (pr, pc) of the 4x4 mask `m` is a block. */
  predicate Filled(m: string, pr: int, pc: int)
  {
    0 <= pr < 4 && 0 <= pc < 4 && pr * 4 + pc < |m| && m[pr * 4 + pc] == '1'
  }

  /** The mask has at least one block. */
  predicate HasBlock(m: string)
  {
    exists pr, pc | 0 <= pr < 4 && 0 <= pc < 4 :: Filled(m, pr, pc)
  }

  /**
   * Every mask of the table has a block, in fact one in its top two rows.
   * This is what makes hard_drop's loop stop: a piece far enough down
   * always collides with the floor.
   */
  lemma ShapeHasBlock(t: int, rot: int)
    requires ValidPiece(t, rot)
    ensures exists pr, pc :: pr < 2 && Filled(Tetrominos[t][rot], pr, pc)
  {
    MaskLength(t, rot);
    var s := Tetrominos[t][rot];
    assert s[0] == '1' || s[1] == '1' || s[2] == '1' || s[4] == '1' by {
      match t
      case 0 => {} case 1 => {} case 2 => {} case 3 => {} case 4 => {} case 5 => {} case 6 => {}
    }
    if s[0] == '1' { assert Filled(s, 0, 0); }
    else if s[1] == '1' { assert Filled(s, 0, 1); }
    else if s[2] == '1' { assert Filled(s, 0, 2); }
    else { assert Filled(s, 1, 0); }
  }
}
