/** The engine state of the falling-block game and its transitions: gravity
    and key moves, rotation, locking with line clearing and respawn, pause,
    and a new game. Each tick, key press or click is one atomic call; the
    random shape index is a parameter. */
module TetrisGame {
  import opened TetrisShapes
  import opened TetrisGrid

  /** The keys the key handler distinguishes; every other key is ignored. */
  datatype Key = ArrowLeft | ArrowRight | ArrowDown | ArrowUp | OtherKey

  class Tetris {
    var board: array2<Cell>
    var currentPiece: Piece
    var currentPosition: Position
    var score: int
    var isGameOver: bool
    var isPaused: bool

    /** The board as a value, row by row. */
    function Cells(): (g: Grid)
      reads this`board, board
      requires board.Length0 == BOARD_HEIGHT && board.Length1 == BOARD_WIDTH
      ensures IsGrid(g)
      ensures forall r, c :: 0 <= r < BOARD_HEIGHT && 0 <= c < BOARD_WIDTH ==> g[r][c] == board[r, c]
    {
      var b := board;
      seq(BOARD_HEIGHT, r requires 0 <= r < b.Length0 reads b =>
        seq(BOARD_WIDTH, c requires 0 <= c < b.Length1 reads b => b[r, c]))
    }

    /** The engine invariant: a 20 x 10 board, a well-formed piece that stays
        on the board, a non-negative score, and while the game runs the piece
        overlaps no locked cell. */
    ghost predicate Valid()
      reads this, board
    {
      && board.Length0 == BOARD_HEIGHT && board.Length1 == BOARD_WIDTH
      && WellFormed(currentPiece.shape)
      && score >= 0
      && InBounds(currentPiece, currentPosition)
      && (!isGameOver ==> ValidPlacement(currentPiece, 0, 0, Cells(), currentPosition))
    }

    /** Nothing but isPaused differs from the given state. */
    ghost predicate OnlyPauseDiffers(g0: Grid, p0: Piece, pos0: Position, s0: int, over0: bool)
      reads this, board
      requires board.Length0 == BOARD_HEIGHT && board.Length1 == BOARD_WIDTH
    {
      Cells() == g0 && currentPiece == p0 && currentPosition == pos0 && score == s0 && isGameOver == over0
    }

    /** The state mergePiece leaves when run on board g0 with piece p0 at pos0
        and score s0, the new piece having shape index k: the piece is stamped,
        full rows are cleared with 100 points each, and the new piece is placed
        at SPAWN if it fits there (the game-over flag is left as it was),
        otherwise the game is over and the old piece and position stay. */
    ghost predicate Merged(g0: Grid, p0: Piece, pos0: Position, s0: int, over0: bool, k: nat)
      reads this, board
      requires board.Length0 == BOARD_HEIGHT && board.Length1 == BOARD_WIDTH
      requires IsGrid(g0) && k < |SHAPES|
    {
      var stamped := Overlay(g0, p0, pos0);
      var updated := ClearFullRows(stamped);
      && Cells() == updated
      && score == s0 + 100 * LinesCleared(stamped)
      && if ValidPlacement(NewPiece(k), 0, 0, updated, SPAWN)
         then isGameOver == over0 && currentPiece == NewPiece(k) && currentPosition == SPAWN
         else isGameOver && currentPiece == p0 && currentPosition == pos0
    }

    /** The state movePiece(dx, dy) leaves: a valid move shifts the position
        only; a blocked downward move merges; a blocked sideways move changes
        nothing. */
    ghost predicate Moved(g0: Grid, p0: Piece, pos0: Position, s0: int, over0: bool, dx: int, dy: int, k: nat)
      reads this, board
      requires board.Length0 == BOARD_HEIGHT && board.Length1 == BOARD_WIDTH
      requires IsGrid(g0) && k < |SHAPES|
    {
      if ValidPlacement(p0, dx, dy, g0, pos0) then
        Cells() == g0 && currentPiece == p0 && currentPosition == Position(pos0.x + dx, pos0.y + dy)
        && score == s0 && isGameOver == over0
      else if dy > 0 then
        Merged(g0, p0, pos0, s0, over0, k)
      else
        OnlyPauseDiffers(g0, p0, pos0, s0, over0)
    }

    /** The state rotatePiece leaves: the turned shape, in the same colour,
        replaces the old one only if it fits at the unchanged position. */
    ghost predicate Rotated(g0: Grid, p0: Piece, pos0: Position, s0: int, over0: bool)
      reads this, board
      requires board.Length0 == BOARD_HEIGHT && board.Length1 == BOARD_WIDTH
      requires IsGrid(g0) && WellFormed(p0.shape)
    {
      var turned := Piece(Rotate(p0.shape), p0.color);
      && Cells() == g0 && currentPosition == pos0 && score == s0 && isGameOver == over0
      && currentPiece == if ValidPlacement(turned, 0, 0, g0, pos0) then turned else p0
    }

    /** The first render: an empty board, no score, and the piece that the
        spawn effect places at SPAWN because there is none yet. */
    constructor (shapeIndex: nat)
      requires shapeIndex < |SHAPES|
      ensures Valid() && fresh(board)
      ensures Cells() == EmptyGrid() && currentPiece == NewPiece(shapeIndex) && currentPosition == SPAWN
      ensures score == 0 && !isGameOver && !isPaused
    {
      board := new Cell[BOARD_HEIGHT, BOARD_WIDTH]((r, c) => Empty);
      currentPiece := NewPiece(shapeIndex);
      currentPosition := SPAWN;
      score := 0;
      isGameOver := false;
      isPaused := false;
      new;
      SameGrid(Cells(), EmptyGrid());
      SpawnOnEmptyGrid(shapeIndex);
    }

    /** The first half of mergePiece: every cell at y >= 0 under an occupied
        shape cell gets the piece's colour, written in place into the rows of
        the current board; no other cell changes. */
    method StampPiece()
      requires Valid()
      modifies board
      ensures board.Length0 == BOARD_HEIGHT && board.Length1 == BOARD_WIDTH
      ensures Cells() == Overlay(old(Cells()), currentPiece, currentPosition)
    {
      ghost var g0 := Cells();
      var y := 0;
      while y < |currentPiece.shape|
        modifies board
        invariant 0 <= y <= |currentPiece.shape|
        invariant forall r, c :: 0 <= r < BOARD_HEIGHT && 0 <= c < BOARD_WIDTH ==>
          board[r, c] == if Covers(currentPiece, currentPosition, r, c) && r - currentPosition.y < y
                         then Filled(currentPiece.color) else g0[r][c]
      {
        var x := 0;
        while x < |currentPiece.shape[y]|
          modifies board
          invariant 0 <= x <= |currentPiece.shape[y]|
          invariant forall r, c :: 0 <= r < BOARD_HEIGHT && 0 <= c < BOARD_WIDTH ==>
            board[r, c] == if Covers(currentPiece, currentPosition, r, c) &&
                              (r - currentPosition.y < y || (r - currentPosition.y == y && c - currentPosition.x < x))
                           then Filled(currentPiece.color) else g0[r][c]
        {
          if currentPiece.shape[y][x] != 0 {
            var boardY := currentPosition.y + y;
            var boardX := currentPosition.x + x;
            if boardY >= 0 {
              board[boardY, boardX] := Filled(currentPiece.color);
            }
          }
          x := x + 1;
        }
        y := y + 1;
      }
      SameGrid(Cells(), Overlay(g0, currentPiece, currentPosition));
    }

    /** The middle of mergePiece: the rows that are not full, under as many
        empty rows as were full, become a new board, and each cleared row is
        worth 100 points. */
    method ClearLines()
      requires board.Length0 == BOARD_HEIGHT && board.Length1 == BOARD_WIDTH
      modifies this`board, this`score
      ensures board.Length0 == BOARD_HEIGHT && board.Length1 == BOARD_WIDTH && fresh(board)
      ensures Cells() == ClearFullRows(old(Cells()))
      ensures score == old(score) + 100 * LinesCleared(old(Cells()))
    {
      var stamped := Cells();
      var updated := ClearFullRows(stamped);
      var linesToClear := LinesCleared(stamped);
      score := score + linesToClear * 100;
      board := new Cell[BOARD_HEIGHT, BOARD_WIDTH]((r: nat, c: nat) requires r < BOARD_HEIGHT && c < BOARD_WIDTH => updated[r][c]);
      SameGrid(Cells(), updated);
    }

    /** The end of mergePiece: a new piece with the given shape index goes to
        SPAWN if it fits on the updated board; otherwise the game is over and
        the piece and position stay as they were. */
    method SpawnPiece(shapeIndex: nat)
      requires board.Length0 == BOARD_HEIGHT && board.Length1 == BOARD_WIDTH && shapeIndex < |SHAPES|
      modifies this`currentPiece, this`currentPosition, this`isGameOver
      ensures if ValidPlacement(NewPiece(shapeIndex), 0, 0, Cells(), SPAWN)
              then isGameOver == old(isGameOver) && currentPiece == NewPiece(shapeIndex) && currentPosition == SPAWN
              else isGameOver && currentPiece == old(currentPiece) && currentPosition == old(currentPosition)
    {
      var newPiece := NewPiece(shapeIndex);
      var fits := IsValidMove(newPiece, 0, 0, Cells(), SPAWN);
      if !fits {
        isGameOver := true;
      } else {
        currentPiece := newPiece;
        currentPosition := SPAWN;
      }
    }

    /** mergePiece: stamp the piece into the board's rows in place, clear the
        full rows into a new board, add 100 points per cleared row, then place
        a new piece at SPAWN or end the game. */
    method MergePiece(shapeIndex: nat)
      requires Valid() && shapeIndex < |SHAPES|
      modifies this, board
      ensures Valid() && fresh(board)
      ensures Merged(old(Cells()), old(currentPiece), old(currentPosition), old(score), old(isGameOver), shapeIndex)
      ensures isPaused == old(isPaused) && score >= old(score)
    {
      StampPiece();
      ClearLines();
      SpawnPiece(shapeIndex);
    }

    /** movePiece(offsetX, offsetY), the new piece of a merge having shape index shapeIndex. */
    method MovePiece(offsetX: int, offsetY: int, shapeIndex: nat)
      requires Valid() && shapeIndex < |SHAPES|
      modifies this, board
      ensures Valid() && isPaused == old(isPaused) && score >= old(score)
      ensures board == old(board) || fresh(board)
      ensures old(ValidPlacement(currentPiece, offsetX, offsetY, Cells(), currentPosition)) || offsetY <= 0 ==> board == old(board)
      ensures Moved(old(Cells()), old(currentPiece), old(currentPosition), old(score), old(isGameOver), offsetX, offsetY, shapeIndex)
    {
      var ok := IsValidMove(currentPiece, offsetX, offsetY, Cells(), currentPosition);
      if ok {
        currentPosition := Position(currentPosition.x + offsetX, currentPosition.y + offsetY);
      } else if offsetY > 0 {
        MergePiece(shapeIndex);
      }
    }

    /** rotatePiece: try the turned shape at the unchanged position. */
    method RotatePiece()
      requires Valid()
      modifies this
      ensures Valid() && isPaused == old(isPaused) && board == old(board)
      ensures Rotated(old(Cells()), old(currentPiece), old(currentPosition), old(score), old(isGameOver))
    {
      var rotated := Rotate(currentPiece.shape);
      var newPiece := Piece(rotated, currentPiece.color);
      var ok := IsValidMove(newPiece, 0, 0, Cells(), currentPosition);
      if ok {
        currentPiece := newPiece;
      }
    }

    /** One gravity tick of the game loop: the loop is not running while the
        game is over or paused, otherwise the piece moves down by one. */
    method Tick(shapeIndex: nat)
      requires Valid() && shapeIndex < |SHAPES|
      modifies this, board
      ensures Valid() && isPaused == old(isPaused) && score >= old(score)
      ensures board == old(board) || fresh(board)
      ensures old(isGameOver || isPaused || ValidPlacement(currentPiece, 0, 1, Cells(), currentPosition)) ==> board == old(board)
      ensures old(isGameOver || isPaused) ==>
        board == old(board) && OnlyPauseDiffers(old(Cells()), old(currentPiece), old(currentPosition), old(score), old(isGameOver))
      ensures !old(isGameOver || isPaused) ==>
        Moved(old(Cells()), old(currentPiece), old(currentPosition), old(score), false, 0, 1, shapeIndex)
    {
      if isGameOver || isPaused {
        return;
      }
      MovePiece(0, 1, shapeIndex);
    }

    /** handleKeyDown: no listener while the game is over, nothing while
        paused; the arrows move left, right and down, and up rotates. */
    method KeyDown(key: Key, shapeIndex: nat)
      requires Valid() && shapeIndex < |SHAPES|
      modifies this, board
      ensures Valid() && isPaused == old(isPaused) && score >= old(score)
      ensures board == old(board) || fresh(board)
      ensures key != ArrowDown || old(ValidPlacement(currentPiece, 0, 1, Cells(), currentPosition)) ==> board == old(board)
      ensures old(isGameOver || isPaused) || key == OtherKey ==>
        board == old(board) && OnlyPauseDiffers(old(Cells()), old(currentPiece), old(currentPosition), old(score), old(isGameOver))
      ensures !old(isGameOver || isPaused) ==>
        match key
        case ArrowLeft => Moved(old(Cells()), old(currentPiece), old(currentPosition), old(score), false, -1, 0, shapeIndex)
        case ArrowRight => Moved(old(Cells()), old(currentPiece), old(currentPosition), old(score), false, 1, 0, shapeIndex)
        case ArrowDown => Moved(old(Cells()), old(currentPiece), old(currentPosition), old(score), false, 0, 1, shapeIndex)
        case ArrowUp => Rotated(old(Cells()), old(currentPiece), old(currentPosition), old(score), false)
        case OtherKey => true
    {
      if isGameOver {
        return;
      }
      if isPaused {
        return;
      }
      match key
      case ArrowLeft => MovePiece(-1, 0, shapeIndex);
      case ArrowRight => MovePiece(1, 0, shapeIndex);
      case ArrowDown => MovePiece(0, 1, shapeIndex);
      case ArrowUp => RotatePiece();
      case OtherKey =>
    }

    /** The Pause / Resume button. */
    method TogglePause()
      requires Valid()
      modifies this`isPaused
      ensures Valid() && isPaused == !old(isPaused)
    {
      isPaused := !isPaused;
    }

    /** startNewGame: an empty board, a new piece at SPAWN, no score, neither
        paused nor over. */
    method StartNewGame(shapeIndex: nat)
      requires shapeIndex < |SHAPES|
      modifies this
      ensures Valid() && fresh(board)
      ensures Cells() == EmptyGrid() && currentPiece == NewPiece(shapeIndex) && currentPosition == SPAWN
      ensures score == 0 && !isGameOver && !isPaused
    {
      board := new Cell[BOARD_HEIGHT, BOARD_WIDTH]((r, c) => Empty);
      currentPiece := NewPiece(shapeIndex);
      currentPosition := SPAWN;
      score := 0;
      isGameOver := false;
      isPaused := false;
      SameGrid(Cells(), EmptyGrid());
      SpawnOnEmptyGrid(shapeIndex);
    }

    /** renderBoard: a fresh copy of the board with the piece drawn on it; the
        board itself is only read. While the game runs, every locked cell is
        shown as it is. */
    function RenderBoard(): (view: Grid)
      reads this, board
      requires board.Length0 == BOARD_HEIGHT && board.Length1 == BOARD_WIDTH
      ensures IsGrid(view)
      ensures forall r, c :: 0 <= r < BOARD_HEIGHT && 0 <= c < BOARD_WIDTH ==>
        view[r][c] == if Covers(currentPiece, currentPosition, r, c) then Filled(currentPiece.color) else board[r, c]
      ensures Valid() && !isGameOver ==> forall r, c :: 0 <= r < BOARD_HEIGHT && 0 <= c < BOARD_WIDTH && board[r, c] != Empty ==>
        view[r][c] == board[r, c]
    {
      OverlayOfValidPlacement(Cells(), currentPiece, currentPosition);
      Overlay(Cells(), currentPiece, currentPosition)
    }
  }
}
