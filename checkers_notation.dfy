/**
 * The "A6 to B5" move notation read by CheckersGame::parseInput: a column
 * letter A-H (either case) and a row digit 1-8 for each square.
 */
module CheckersNotation {
  import opened Wrappers
  import opened CheckersBoard

  /** Zero-based origin and destination of a typed move. */
  datatype Coords = Coords(r1: int, c1: int, r2: int, c2: int)

  /** std::toupper in the "C" locale: only 'a'..'z' change. */
  function ToUpper(ch: char): (u: char)
    ensures 'a' <= ch <= 'z' ==> u as int == ch as int - 32
    ensures !('a' <= ch <= 'z') ==> u == ch
  {
    if 'a' <= ch <= 'z' then (ch as int - 32) as char else ch
  }

  /** `input[i]` of a const std::string: index |s| yields the terminator '\0'. */
  function CharAt(s: string, i: nat): char
    requires i <= |s|
  {
    if i < |s| then s[i] else '\0'
  }

  /** toupper(letter) - 'A'. */
  function ColumnOf(ch: char): int
  {
    ToUpper(ch) as int - 'A' as int
  }

  /** digit - '1'. */
  function RowOf(ch: char): int
  {
    ch as int - '1' as int
  }

  /**
   * CheckersGame::parseInput. The length guard is 7 but the destination row
   * is read at index 7, so a 7-character input reads the terminator and
   * fails the bounds check: a parse needs at least 8 characters, and
   * everything after the eighth is ignored.
   */
  function ParseInput(input: string): (res: Option<Coords>)
    ensures res.Some? <==>
      && |input| >= 8
      && input[2..6] == " to "
      && InBounds(RowOf(input[1]), ColumnOf(input[0]))
      && InBounds(RowOf(input[7]), ColumnOf(input[6]))
      && (RowOf(input[1]) != RowOf(input[7]) || ColumnOf(input[0]) != ColumnOf(input[6]))
    ensures res.Some? ==>
      res.value == Coords(RowOf(input[1]), ColumnOf(input[0]), RowOf(input[7]), ColumnOf(input[6]))
  {
    if |input| < 7 then None
    else
      var c1 := ColumnOf(input[0]);
      var r1 := RowOf(input[1]);
      if input[2..6] != " to " then None
      else
        var c2 := ColumnOf(input[6]);
        var r2 := RowOf(CharAt(input, 7));
        if !InBounds(r1, c1) || !InBounds(r2, c2) then None
        else if r1 == r2 && c1 == c2 then None
        else Some(Coords(r1, c1, r2, c2))
  }

  /** The letter of column `c`, as the board display labels it. */
  function ColumnLetter(c: int): char
    requires 0 <= c < BoardSize
  {
    ('A' as int + c) as char
  }

  /** The digit of row `r`, as the board display labels it (row index + 1). */
  function RowDigit(r: int): char
    requires 0 <= r < BoardSize
  {
    ('1' as int + r) as char
  }

  /** The text a player types for a move. */
  function FormatMove(m: Coords): string
    requires InBounds(m.r1, m.c1) && InBounds(m.r2, m.c2)
  {
    [ColumnLetter(m.c1), RowDigit(m.r1), ' ', 't', 'o', ' ', ColumnLetter(m.c2), RowDigit(m.r2)]
  }

  /** Every move between two different on-board squares is read back from its notation. */
  lemma ParseFormat(m: Coords)
    requires InBounds(m.r1, m.c1) && InBounds(m.r2, m.c2) && (m.r1 != m.r2 || m.c1 != m.c2)
    ensures ParseInput(FormatMove(m)) == Some(m)
  {
    var s := FormatMove(m);
    assert s[2..6] == " to ";
  }

  /** Column letters are read case-insensitively. */
  lemma ParseLowerCase(m: Coords)
    requires InBounds(m.r1, m.c1) && InBounds(m.r2, m.c2) && (m.r1 != m.r2 || m.c1 != m.c2)
    ensures var lower := [('a' as int + m.c1) as char, RowDigit(m.r1), ' ', 't', 'o', ' ',
                          ('a' as int + m.c2) as char, RowDigit(m.r2)];
      ParseInput(lower) == Some(m)
  {
    var lower := [('a' as int + m.c1) as char, RowDigit(m.r1), ' ', 't', 'o', ' ',
                  ('a' as int + m.c2) as char, RowDigit(m.r2)];
    assert lower[2..6] == " to ";
  }

  /** A 7-character input never parses: its destination row is the terminator. */
  lemma SevenCharactersRejected(input: string)
    requires |input| == 7
    ensures ParseInput(input) == None
  {
  }

  /** Text after the eighth character does not change the parse. */
  lemma TrailingTextIgnored(input: string, rest: string)
    requires |input| >= 8
    ensures ParseInput(input + rest) == ParseInput(input)
  {
    assert (input + rest)[2..6] == input[2..6];
  }
}
