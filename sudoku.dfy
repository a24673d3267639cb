/** The sudoku board: a 9 x 9 grid of digits and blanks, the input filter of
    a cell, and the check that no row, column or 3 x 3 box repeats a digit. */
module Sudoku {

  /** A cell: '' or a number. */
  datatype Entry = Blank | Num(n: int)

  type Board = seq<seq<Entry>>

  predicate IsBoard(b: Board) {
    |b| == 9 && forall r :: 0 <= r < |b| ==> |b[r]| == 9
  }

  const INITIAL_BOARD: Board := [
    [Num(5), Num(3), Blank, Blank, Num(7), Blank, Blank, Blank, Blank],
    [Num(6), Blank, Blank, Num(1), Num(9), Num(5), Blank, Blank, Blank],
    [Blank, Num(9), Num(8), Blank, Blank, Blank, Blank, Num(6), Blank],
    [Num(8), Blank, Blank, Blank, Num(6), Blank, Blank, Blank, Num(3)],
    [Num(4), Blank, Blank, Num(8), Blank, Num(3), Blank, Blank, Num(1)],
    [Num(7), Blank, Blank, Blank, Num(2), Blank, Blank, Blank, Num(6)],
    [Blank, Num(6), Blank, Blank, Blank, Blank, Num(2), Num(8), Blank],
    [Blank, Blank, Blank, Num(4), Num(1), Num(9), Blank, Blank, Num(5)],
    [Blank, Blank, Blank, Blank, Num(8), Blank, Blank, Num(7), Num(9)]
  ]

  const VALID_MESSAGE: string := "Congratulations! The board is valid."
  const INVALID_MESSAGE: string := "Oops! The board has errors."

  // ---------------------------------------------------------------- input

  /** The input filter: the empty string or a single digit 1-9. */
  predicate AcceptsInput(value: string) {
    value == "" || (|value| == 1 && '1' <= value[0] <= '9')
  }

  /** The filter admits exactly eleven strings: the empty one and the nine digits. */
  lemma AcceptedInputs(value: string)
    ensures AcceptsInput(value) <==> value in ["", "1", "2", "3", "4", "5", "6", "7", "8", "9"]
  {
    if |value| == 1 && '1' <= value[0] <= '9' {
      assert value == [value[0]];
    }
  }

  /** What an accepted input stores: '' for the empty string, else the
      number the digit denotes. */
  function ParseEntry(value: string): (e: Entry)
    requires AcceptsInput(value)
    ensures e == Blank <==> value == ""
    ensures e.Num? ==> 1 <= e.n <= 9
  {
    if value == "" then Blank else Num(value[0] as int - '0' as int)
  }

  /** What an input box shows for a cell (a number as its decimal digit). */
  function ShowEntry(e: Entry): string
    requires e == Blank || 1 <= e.n <= 9
  {
    if e == Blank then "" else [('0' as int + e.n) as char]
  }

  /** Parsing an accepted input and showing the stored cell gives the input back. */
  lemma ShowParse(value: string)
    requires AcceptsInput(value)
    ensures ShowEntry(ParseEntry(value)) == value
  {
  }

  /** Showing a blank or a digit cell and parsing what is shown gives the cell back. */
  lemma ParseShow(e: Entry)
    requires e == Blank || 1 <= e.n <= 9
    ensures AcceptsInput(ShowEntry(e)) && ParseEntry(ShowEntry(e)) == e
  {
  }

  /** The board after an accepted input at (row, col): that cell holds the
      parsed value and every other cell is as before. */
  function SetCell(b: Board, row: nat, col: nat, value: string): (b2: Board)
    requires IsBoard(b) && row < 9 && col < 9 && AcceptsInput(value)
    ensures IsBoard(b2) && b2[row][col] == ParseEntry(value)
    ensures forall r, c :: 0 <= r < 9 && 0 <= c < 9 && (r != row || c != col) ==> b2[r][c] == b[r][c]
  {
    b[row := b[row][col := ParseEntry(value)]]
  }

  // ---------------------------------------------------------------- units

  /** No non-empty value occurs twice; blanks are ignored. */
  predicate NoRepeats(s: seq<Entry>) {
    forall i, j :: 0 <= i < j < |s| && s[i] != Blank ==> s[i] != s[j]
  }

  function Column(b: Board, col: nat): (s: seq<Entry>)
    requires IsBoard(b) && col < 9
    ensures |s| == 9 && forall r :: 0 <= r < 9 ==> s[r] == b[r][col]
  {
    seq(9, r requires 0 <= r < 9 => b[r][col])
  }

  /** The 3 x 3 box with top-left cell (startRow, startCol), row by row. */
  function Box(b: Board, startRow: nat, startCol: nat): (s: seq<Entry>)
    requires IsBoard(b) && startRow <= 6 && startCol <= 6
    ensures |s| == 9 && forall k :: 0 <= k < 9 ==> s[k] == b[startRow + k / 3][startCol + k % 3]
  {
    seq(9, k requires 0 <= k < 9 => b[startRow + k / 3][startCol + k % 3])
  }

  predicate BoxCorner(n: int) {
    n == 0 || n == 3 || n == 6
  }

  /** Every row, every column and the nine boxes at (0|3|6, 0|3|6) are free of repeats. */
  predicate BoardValid(b: Board)
    requires IsBoard(b)
  {
    && (forall i :: 0 <= i < 9 ==> NoRepeats(b[i]))
    && (forall i :: 0 <= i < 9 ==> NoRepeats(Column(b, i)))
    && (forall r: nat, c: nat :: r < 9 && c < 9 && BoxCorner(r) && BoxCorner(c) ==> NoRepeats(Box(b, r, c)))
  }

  /** The non-blank entries among the first n of s. */
  ghost function SeenAmong(s: seq<Entry>, n: nat): set<Entry>
    requires n <= |s|
  {
    set k | 0 <= k < n && s[k] != Blank :: s[k]
  }

  /** The step of each validator's loop: with seen the non-blank values of
      s[..i] and s[..i] free of repeats, s[i] repeats a value exactly when it
      is non-blank and in seen. */
  lemma SeenStep(s: seq<Entry>, i: nat, seen: set<Entry>)
    requires i < |s| && seen == SeenAmong(s, i) && NoRepeats(s[..i])
    ensures s[i] != Blank && s[i] in seen ==> !NoRepeats(s) && !NoRepeats(s[..i + 1])
    ensures !(s[i] != Blank && s[i] in seen) ==>
      NoRepeats(s[..i + 1]) && SeenAmong(s, i + 1) == if s[i] != Blank then seen + {s[i]} else seen
  {
  }

  /** isValidRow: one pass with a set of the values seen so far, returning
      false at the first repeat. */
  method IsValidRow(row: seq<Entry>) returns (ok: bool)
    ensures ok <==> NoRepeats(row)
  {
    var seen: set<Entry> := {};
    for i := 0 to |row|
      invariant seen == SeenAmong(row, i)
      invariant NoRepeats(row[..i])
    {
      var num := row[i];
      SeenStep(row, i, seen);
      if num != Blank && num in seen {
        return false;
      }
      if num != Blank {
        seen := seen + {num};
      }
    }
    assert row[..|row|] == row;
    return true;
  }

  /** isValidColumn: the same pass down column colIndex. */
  method IsValidColumn(b: Board, colIndex: nat) returns (ok: bool)
    requires IsBoard(b) && colIndex < 9
    ensures ok <==> NoRepeats(Column(b, colIndex))
  {
    ghost var column := Column(b, colIndex);
    var seen: set<Entry> := {};
    for row := 0 to 9
      invariant seen == SeenAmong(column, row)
      invariant NoRepeats(column[..row])
    {
      var num := b[row][colIndex];
      SeenStep(column, row, seen);
      if num != Blank && num in seen {
        return false;
      }
      if num != Blank {
        seen := seen + {num};
      }
    }
    assert column[..9] == column;
    return true;
  }

  /** isValidSubGrid: the same pass over the box at (startRow, startCol), row by row. */
  method IsValidSubGrid(b: Board, startRow: nat, startCol: nat) returns (ok: bool)
    requires IsBoard(b) && startRow <= 6 && startCol <= 6
    ensures ok <==> NoRepeats(Box(b, startRow, startCol))
  {
    ghost var box := Box(b, startRow, startCol);
    var seen: set<Entry> := {};
    for row := startRow to startRow + 3
      invariant seen == SeenAmong(box, 3 * (row - startRow))
      invariant NoRepeats(box[..3 * (row - startRow)])
    {
      for col := startCol to startCol + 3
        invariant seen == SeenAmong(box, 3 * (row - startRow) + (col - startCol))
        invariant NoRepeats(box[..3 * (row - startRow) + (col - startCol)])
      {
        var num := b[row][col];
        ghost var k := 3 * (row - startRow) + (col - startCol);
        assert box[k] == num;
        SeenStep(box, k, seen);
        if num != Blank && num in seen {
          return false;
        }
        if num != Blank {
          seen := seen + {num};
        }
      }
    }
    assert box[..9] == box;
    return true;
  }

  /** isBoardValid: rows and columns 0-8, then the nine boxes; false at the first unit that fails. */
  method IsBoardValid(b: Board) returns (ok: bool)
    requires IsBoard(b)
    ensures ok <==> BoardValid(b)
  {
    for i := 0 to 9
      invariant forall k :: 0 <= k < i ==> NoRepeats(b[k]) && NoRepeats(Column(b, k))
    {
      var rowOk := IsValidRow(b[i]);
      if !rowOk {
        return false;
      }
      var colOk := IsValidColumn(b, i);
      if !colOk {
        return false;
      }
    }
    var row := 0;
    while row < 9
      invariant row == 0 || row == 3 || row == 6 || row == 9
      invariant forall r: nat, c: nat :: r < 9 && c < 9 && BoxCorner(r) && BoxCorner(c) && r < row ==> NoRepeats(Box(b, r, c))
    {
      var col := 0;
      while col < 9
        invariant col == 0 || col == 3 || col == 6 || col == 9
        invariant forall r: nat, c: nat :: r < 9 && c < 9 && BoxCorner(r) && BoxCorner(c) && r < row ==> NoRepeats(Box(b, r, c))
        invariant forall c :: BoxCorner(c) && c < col ==> NoRepeats(Box(b, row, c))
      {
        var boxOk := IsValidSubGrid(b, row, col);
        if !boxOk {
          return false;
        }
        col := col + 3;
      }
      row := row + 3;
    }
    return true;
  }

  // ---------------------------------------------------------------- clearing

  /** b2 agrees with b1 except that some cells may have become blank. */
  predicate BlankedFrom(b2: Board, b1: Board)
    requires IsBoard(b1) && IsBoard(b2)
  {
    forall r, c :: 0 <= r < 9 && 0 <= c < 9 ==> b2[r][c] == b1[r][c] || b2[r][c] == Blank
  }

  lemma NoRepeatsBlanked(t: seq<Entry>, s: seq<Entry>)
    requires |t| == |s| && NoRepeats(s)
    requires forall k :: 0 <= k < |s| ==> t[k] == s[k] || t[k] == Blank
    ensures NoRepeats(t)
  {
  }

  /** Blanking cells never turns a valid board invalid. */
  lemma BlankingKeepsValid(b1: Board, b2: Board)
    requires IsBoard(b1) && IsBoard(b2) && BlankedFrom(b2, b1) && BoardValid(b1)
    ensures BoardValid(b2)
  {
    forall i | 0 <= i < 9 ensures NoRepeats(b2[i]) && NoRepeats(Column(b2, i)) {
      NoRepeatsBlanked(b2[i], b1[i]);
      NoRepeatsBlanked(Column(b2, i), Column(b1, i));
    }
    forall r, c | BoxCorner(r) && BoxCorner(c) ensures NoRepeats(Box(b2, r, c)) {
      NoRepeatsBlanked(Box(b2, r, c), Box(b1, r, c));
    }
  }

  /** The board and message state of the game. */
  class SudokuGame {
    var board: Board
    var message: string

    ghost predicate Valid()
      reads this
    {
      IsBoard(board)
    }

    constructor ()
      ensures Valid() && board == INITIAL_BOARD && message == ""
    {
      board := INITIAL_BOARD;
      message := "";
    }

    /** handleInputChange: an accepted value replaces cell (row, col) and
        clears the message; any other value changes nothing. */
    method HandleInputChange(row: nat, col: nat, value: string)
      requires Valid() && row < 9 && col < 9
      modifies this
      ensures Valid()
      ensures !AcceptsInput(value) ==> board == old(board) && message == old(message)
      ensures AcceptsInput(value) ==> board == SetCell(old(board), row, col, value) && message == ""
    {
      if AcceptsInput(value) {
        var updatedBoard := SetCell(board, row, col, value);
        board := updatedBoard;
        message := "";
      }
    }

    /** handleValidate: the board is only read; the message reports the verdict. */
    method HandleValidate()
      requires Valid()
      modifies this`message
      ensures message == if BoardValid(board) then VALID_MESSAGE else INVALID_MESSAGE
    {
      var ok := IsBoardValid(board);
      if ok {
        message := VALID_MESSAGE;
      } else {
        message := INVALID_MESSAGE;
      }
    }

    /** handleReset. */
    method HandleReset()
      modifies this
      ensures Valid() && board == INITIAL_BOARD && message == ""
    {
      board := INITIAL_BOARD;
      message := "";
    }
  }

  /** Clearing a cell (the empty input) never turns a valid board invalid. */
  lemma ClearingKeepsValid(b: Board, row: nat, col: nat)
    requires IsBoard(b) && row < 9 && col < 9 && BoardValid(b)
    ensures BoardValid(SetCell(b, row, col, ""))
  {
    BlankingKeepsValid(b, SetCell(b, row, col, ""));
  }
}
