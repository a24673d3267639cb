/** Tic-tac-toe: nine squares, X moves first, a click places the mark of the
    player to move, and after every board change the winner is derived from
    the eight lines, or a draw from a full board. */
module TicTacToe {

  datatype Mark = X | O

  /** A square: null, or the mark placed on it. */
  datatype Square = Empty | Taken(mark: Mark)

  /** The winner state: null, a mark, or 'draw'. */
  datatype Outcome = Undecided | Won(mark: Mark) | Draw

  /** Three square indices forming a row, a column or a diagonal. */
  datatype Line = Line(a: nat, b: nat, c: nat)

  /** The three rows, the three columns and the two diagonals, in the order searched. */
  const LINES: seq<Line> := [
    Line(0, 1, 2), Line(3, 4, 5), Line(6, 7, 8),
    Line(0, 3, 6), Line(1, 4, 7), Line(2, 5, 8),
    Line(0, 4, 8), Line(2, 4, 6)
  ]

  function Other(m: Mark): (o: Mark)
    ensures o != m
  {
    if m == X then O else X
  }

  /** The test applied to one line: its first square is filled and the other two hold the same mark. */
  predicate Owns(squares: seq<Square>, line: Line)
    requires |squares| == 9 && line in LINES
  {
    squares[line.a] != Empty && squares[line.a] == squares[line.b] && squares[line.a] == squares[line.c]
  }

  /** The three squares of some listed line all hold m. */
  predicate HasLine(squares: seq<Square>, m: Mark)
    requires |squares| == 9
  {
    exists k :: 0 <= k < |LINES| && Owns(squares, LINES[k]) && squares[LINES[k].a] == Taken(m)
  }

  /** The mark on the first owned line among LINES[from..], or Empty if there is none. */
  function FirstOwner(squares: seq<Square>, from: nat): (w: Square)
    requires |squares| == 9 && from <= |LINES|
    ensures w != Empty ==> exists k :: from <= k < |LINES| && Owns(squares, LINES[k]) && w == squares[LINES[k].a]
    ensures w == Empty <==> forall k :: from <= k < |LINES| ==> !Owns(squares, LINES[k])
    decreases |LINES| - from
  {
    if from == |LINES| then Empty
    else if Owns(squares, LINES[from]) then squares[LINES[from].a]
    else FirstOwner(squares, from + 1)
  }

  /** calculateWinner: scans the lines in order and returns the mark on the
      first one that is owned, or null. */
  method CalculateWinner(squares: seq<Square>) returns (w: Square)
    requires |squares| == 9
    ensures w == FirstOwner(squares, 0)
    ensures w.Taken? ==> HasLine(squares, w.mark)
    ensures w == Empty <==> forall m :: !HasLine(squares, m)
  {
    var i := 0;
    while i < |LINES|
      invariant 0 <= i <= |LINES|
      invariant FirstOwner(squares, i) == FirstOwner(squares, 0)
    {
      var line := LINES[i];
      if squares[line.a] != Empty && squares[line.a] == squares[line.b] && squares[line.a] == squares[line.c] {
        return squares[line.a];
      }
      i := i + 1;
    }
    return Empty;
  }

  /** No square is null. */
  predicate Full(squares: seq<Square>) {
    forall i :: 0 <= i < |squares| ==> squares[i] != Empty
  }

  /** The winner the effect derives from a board when none was set before:
      the owner of the first owned line, else a draw on a full board. */
  function Derived(squares: seq<Square>): (o: Outcome)
    requires |squares| == 9
    ensures o.Won? <==> FirstOwner(squares, 0) != Empty
    ensures o.Won? ==> HasLine(squares, o.mark)
    ensures o == Draw <==> Full(squares) && forall m :: !HasLine(squares, m)
    ensures o == Undecided <==> !Full(squares) && forall m :: !HasLine(squares, m)
  {
    var w := FirstOwner(squares, 0);
    if w.Taken? then Won(w.mark)
    else if Full(squares) then Draw
    else Undecided
  }

  /** Number of squares holding m. */
  function Count(squares: seq<Square>, m: Mark): nat {
    if squares == [] then 0
    else (if squares[0] == Taken(m) then 1 else 0) + Count(squares[1..], m)
  }

  /** Placing m on an empty square adds one m and leaves the count of the other mark alone. */
  lemma {:induction false} CountAfterPlace(squares: seq<Square>, i: nat, m: Mark)
    requires i < |squares| && squares[i] == Empty
    ensures Count(squares[i := Taken(m)], m) == Count(squares, m) + 1
    ensures Count(squares[i := Taken(m)], Other(m)) == Count(squares, Other(m))
  {
    var s := squares[i := Taken(m)];
    if i == 0 {
      assert s[1..] == squares[1..];
    } else {
      assert s[1..] == squares[1..][i - 1 := Taken(m)];
      CountAfterPlace(squares[1..], i - 1, m);
    }
  }

  lemma {:induction false} CountEmpty(n: nat, m: Mark)
    ensures Count(seq(n, _ => Empty), m) == 0
  {
    if n > 0 {
      assert seq(n, _ => Empty)[1..] == seq(n - 1, _ => Empty);
      CountEmpty(n - 1, m);
    }
  }

  const EMPTY_BOARD: seq<Square> := seq(9, _ => Empty)

  /** The board and turn state of the game. */
  class Game {
    var board: seq<Square>
    var xIsNext: bool
    var winner: Outcome

    /** X has placed as many marks as O or one more, and X is to move exactly when the counts are equal. */
    ghost predicate Balanced()
      reads this
    {
      && |board| == 9
      && (Count(board, X) == Count(board, O) || Count(board, X) == Count(board, O) + 1)
      && (xIsNext <==> Count(board, X) == Count(board, O))
    }

    /** The state invariant of every reachable state: the turns balance and
        the winner is the one derived from the board. */
    ghost predicate Valid()
      reads this
    {
      Balanced() && winner == Derived(board)
    }

    constructor ()
      ensures Valid() && board == EMPTY_BOARD && xIsNext && winner == Undecided
    {
      board := EMPTY_BOARD;
      xIsNext := true;
      winner := Undecided;
      new;
      CountEmpty(9, X);
      CountEmpty(9, O);
    }

    /** The mark of the player to move. */
    function Current(): (m: Mark)
      reads this
      ensures m == X <==> xIsNext
    {
      if xIsNext then X else O
    }

    /** handleClick: ignored once a winner or draw is set or on a filled
        square; otherwise square i gets the mark to move and the turn passes. */
    method HandleClick(i: nat)
      requires |board| == 9 && i < 9
      modifies this`board, this`xIsNext
      ensures winner != Undecided || old(board)[i] != Empty ==> board == old(board) && xIsNext == old(xIsNext)
      ensures winner == Undecided && old(board)[i] == Empty ==>
        board == old(board)[i := Taken(if old(xIsNext) then X else O)] && xIsNext == !old(xIsNext)
    {
      var boardCopy := board;
      if winner != Undecided || boardCopy[i] != Empty {
        return;
      }
      boardCopy := boardCopy[i := Taken(if xIsNext then X else O)];
      board := boardCopy;
      xIsNext := !xIsNext;
    }

    /** The effect run after each board change: a winning line sets the
        winner, else a full board sets a draw, else the winner stays. */
    method WinnerEffect()
      requires |board| == 9
      modifies this`winner
      ensures var w := FirstOwner(board, 0);
        winner == if w.Taken? then Won(w.mark) else if Full(board) then Draw else old(winner)
    {
      var currentWinner := CalculateWinner(board);
      if currentWinner != Empty {
        winner := Won(currentWinner.mark);
      } else if Full(board) {
        winner := Draw;
      }
    }

    /** One click as the user sees it: handleClick, then the effect if the board changed. */
    method Click(i: nat)
      requires Valid() && i < 9
      modifies this
      ensures Valid()
      ensures old(winner) != Undecided || old(board)[i] != Empty ==> unchanged(this)
      ensures old(winner) == Undecided && old(board)[i] == Empty ==>
        board == old(board)[i := Taken(old(Current()))] && xIsNext == !old(xIsNext)
    {
      ghost var m := Current();
      var before := board;
      HandleClick(i);
      if board != before {
        CountAfterPlace(before, i, m);
        WinnerEffect();
      }
    }

    /** resetGame. */
    method ResetGame()
      modifies this
      ensures Valid() && board == EMPTY_BOARD && xIsNext && winner == Undecided
    {
      board := EMPTY_BOARD;
      xIsNext := true;
      winner := Undecided;
      CountEmpty(9, X);
      CountEmpty(9, O);
    }
  }
}
