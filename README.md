# Game engines of the gaming website, in Dafny

The website has four small browser games. Each one keeps a rule engine inside
its React component. This project models those four engines and proves what
their rules guarantee. One tick, key press or click is one atomic transition.
A random choice becomes a parameter of the operation that makes it.

- **Tetris** (`tetris_shapes.dfy`, `tetris_grid.dfy`, `tetris_game.dfy`).
  - The seven shape matrices and their colours.
  - The clockwise rotation (transpose, then reverse each row).
  - The collision check `isValidMove`. Cells above the top row never collide.
  - The overlay that `renderBoard` draws.
  - Line clearing: a filter of the full rows plus empty rows on top, worth
    100 points a row.
  - A `Tetris` class holds a 20 x 10 `array2` board, the falling piece, its
    position, the score and the game-over and pause flags.
  - `mergePiece` stamps the piece into the board in place. The cleared rows
    then go into a new array, and the next piece spawns at (4, 0) or the game
    ends.
  - `movePiece`, `rotatePiece`, `startNewGame`, the gravity tick, the key
    handler and the pause button are methods. Each method's postcondition
    pins down the whole new state.
- **Snake** (`snake.dfy`).
  - The head step for each direction.
  - The direction-change rule, which ignores a straight reversal.
  - The self-collision scan, with the tail included.
  - A `SnakeGame` class. Its `moveSnake` ends the game on a wall or the body,
    and otherwise puts the new head in front.
  - Food handling: +10 points and a faster interval, never below 50 ms. The
    tail is kept, so the snake grows.
  - The food check reads the head from *before* the move (Snake.jsx line 36).
    The snake therefore grows on the tick after its head reaches the food;
    the model keeps this.
- **Sudoku** (`sudoku.dfy`).
  - The input filter: the empty string or one digit 1-9.
  - The single-cell update.
  - `isValidRow`, `isValidColumn` and `isValidSubGrid` as loops over a `seen`
    set. Each is proved to return false exactly when a value repeats in its
    unit, with blanks ignored.
  - `isBoardValid`, proved equal to "all 27 units are free of repeats".
  - Clearing a cell never makes a valid board invalid.
- **Tic-tac-toe** (`tictactoe.dfy`).
  - `calculateWinner` over the eight lines.
  - The click rule.
  - The effect that derives the winner, or a draw on a full board, after
    every board change.
  - Reset.
  - The game state keeps two invariants. First, X has as many marks as O or
    one more, and X is to move exactly when the counts are equal. Second, the
    winner is always the one derived from the board.

## Model

| member | source | states |
|---|---|---|
| TetrisShapes.NewPiece | gaming-website/src/components/Tetris.jsx:76-82 | the piece for shape index k has SHAPES[k] and COLORS[k]; every shape is well-formed and has exactly four occupied cells |
| TetrisShapes.Rotate | gaming-website/src/components/Tetris.jsx:159-161 | the rotated matrix has its dimensions swapped and rotated[i][j] == shape[rows-1-j][i] |
| TetrisShapes.RotateTwice | gaming-website/src/components/Tetris.jsx:159-161 | two rotations turn the matrix upside down and mirror it |
| TetrisShapes.RotateFourTimes | gaming-website/src/components/Tetris.jsx:159-161 | four rotations give back the original matrix |
| TetrisShapes.SquareIsRotationInvariant | gaming-website/src/components/Tetris.jsx:15-18 | the 2 x 2 square is a fixed point of rotation |
| TetrisShapes.BarRotations | gaming-website/src/components/Tetris.jsx:8-13 | the I bar in row 1 turns into a vertical bar in column 2, then into a horizontal bar in row 2, so it does not turn about a fixed centre |
| TetrisGrid.EmptyGrid | gaming-website/src/components/Tetris.jsx:67-69 | the initial board has 20 rows of 10 cells, all 0 |
| TetrisGrid.IsValidMove | gaming-website/src/components/Tetris.jsx:84-103 | true exactly when every occupied shape cell, shifted by position + offset, is inside the side walls, above the floor, and on an empty cell unless it is above the top row |
| TetrisGrid.AboveTopNeverCollides | gaming-website/src/components/Tetris.jsx:95 | cells above the top row never collide: such a placement is valid on any board |
| TetrisGrid.Overlay | gaming-website/src/components/Tetris.jsx:216-236 | definition: the board with every covered on-board cell in the piece colour and every other cell as before; StampPiece proves the in-place loop equal to it, and OverlayOfValidPlacement proves that a valid placement hides no locked cell |
| TetrisGrid.OverlayOfValidPlacement | gaming-website/src/components/Tetris.jsx:105-118 | for a valid placement, the overlay keeps every locked cell and colours every occupied piece cell at or below the top row |
| TetrisGrid.Survivors | gaming-website/src/components/Tetris.jsx:120 | the filter keeps only rows that are not full, taken from the board; kept plus full rows equals the row count |
| TetrisGrid.LinesCleared | gaming-website/src/components/Tetris.jsx:121 | linesToClear equals the number of full rows |
| TetrisGrid.ClearFullRows | gaming-website/src/components/Tetris.jsx:120-127 | the result is 20 x 10 with no full row, has linesToClear empty rows on top, and the surviving rows below |
| TetrisGrid.SurvivorPosition | gaming-website/src/components/Tetris.jsx:120 | a surviving row lands at its index minus the number of full rows above it, so the filter keeps row order |
| TetrisGrid.ClearedRowPosition | gaming-website/src/components/Tetris.jsx:120-127 | after clearing, a surviving row sits lower by the number of full rows below it; relative order is kept |
| TetrisGrid.ClearFullRowsIdempotent | gaming-website/src/components/Tetris.jsx:120-127 | a cleared board has no line to clear, and clearing it again changes nothing |
| TetrisGrid.SpawnBlocked | gaming-website/src/components/Tetris.jsx:133-138 | a filled cell at (5, 1) makes every new piece invalid at the spawn position, so the merge ends the game |
| TetrisGrid.SpawnOnEmptyGrid | gaming-website/src/components/Tetris.jsx:206-210 | every new piece fits at (4, 0) on an empty board |
| TetrisGrid.BarDropDistance | gaming-website/src/components/Tetris.jsx:8-13 | on an empty board the spawned I bar can move down by d exactly when d <= 18 |
| TetrisGame.Tetris.Cells | gaming-website/src/components/Tetris.jsx:67-69 | definition: the board array read as 20 rows of 10 cells, the view every method's contract is stated in |
| TetrisGame.Tetris.constructor | gaming-website/src/components/Tetris.jsx:67-74 | an empty board, score 0, both flags false, and the first piece at (4, 0) (the spawn effect, lines 238-244); the invariant holds |
| TetrisGame.Tetris.StampPiece | gaming-website/src/components/Tetris.jsx:105-118 | the board array is changed in place into the overlay of the piece on the old board |
| TetrisGame.Tetris.ClearLines | gaming-website/src/components/Tetris.jsx:120-131 | a fresh board array holds the cleared board, and the score rises by 100 per cleared line |
| TetrisGame.Tetris.SpawnPiece | gaming-website/src/components/Tetris.jsx:133-142 | the new piece is placed at (4, 0) if it fits on the updated board; otherwise the game is over and the piece and position stay |
| TetrisGame.Tetris.MergePiece | gaming-website/src/components/Tetris.jsx:105-143 | stamp, clear, score and spawn as above, in that order; the invariant is kept and the score never falls |
| TetrisGame.Tetris.MovePiece | gaming-website/src/components/Tetris.jsx:145-154 | a valid move shifts the position by the offset only; a blocked move with offsetY > 0 merges; any other blocked move changes nothing; a valid or sideways move keeps the same board array, and only a merge makes a fresh one |
| TetrisGame.Tetris.RotatePiece | gaming-website/src/components/Tetris.jsx:156-168 | the rotated shape, in the same colour, replaces the piece only if it fits at the unchanged position; nothing else changes, and the board stays the same array |
| TetrisGame.Tetris.Tick | gaming-website/src/components/Tetris.jsx:170-178 | no gravity while paused or over; otherwise a move by (0, 1); the board array is kept unless the blocked move merges, which makes a fresh one |
| TetrisGame.Tetris.KeyDown | gaming-website/src/components/Tetris.jsx:180-204 | no key reaches the engine while over or paused; the arrows move by (-1, 0), (1, 0) and (0, 1), and up rotates; other keys change nothing; the board array is kept unless a blocked down move merges, which makes a fresh one |
| TetrisGame.Tetris.TogglePause | gaming-website/src/components/Tetris.jsx:258 | flips the pause flag only |
| TetrisGame.Tetris.StartNewGame | gaming-website/src/components/Tetris.jsx:206-214 | an empty board, a new piece at (4, 0), score 0, and both flags false |
| TetrisGame.Tetris.RenderBoard | gaming-website/src/components/Tetris.jsx:216-236 | the board with the piece colour on its covered on-board cells; while the game runs, no locked cell is hidden |
| Snake.Opposite | gaming-website/src/components/Snake.jsx:105-116 | the opposite of a direction is a different direction |
| Snake.NextHead | gaming-website/src/components/Snake.jsx:55-73 | the new head is one cell from the old head: along x for left/right and along y for up/down, with y growing downwards |
| Snake.StepBack | gaming-website/src/components/Snake.jsx:58-73 | a step in the opposite direction undoes a step |
| Snake.ChangeDirection | gaming-website/src/components/Snake.jsx:103-119 | a key never sets the direction opposite to the current one; any other arrow sets its direction; other keys change nothing |
| Snake.TwoKeysReverse | gaming-website/src/components/Snake.jsx:105-116 | two keys before a tick can still reverse the snake (right, then Up, then Left gives left), because the rule compares with the current direction |
| Snake.HitsBody | gaming-website/src/components/Snake.jsx:82-87 | true exactly when the new head equals a segment at index 1 or later, the tail included |
| Snake.SnakeGame.constructor | gaming-website/src/components/Snake.jsx:11-20 | the snake (10,10), (9,10), (8,10), direction right, speed 200, score 0, not over; the invariant holds |
| Snake.SnakeGame.CheckFoodEaten | gaming-website/src/components/Snake.jsx:35-50 | eats exactly when the pre-move head is on the food: +10 points, new food, speed max(50, speed - 10); otherwise nothing changes |
| Snake.SnakeGame.MoveSnake | gaming-website/src/components/Snake.jsx:53-98 | the outcome `Stepped`: a head off the grid or on the body ends the game and leaves the snake as it was; otherwise the new head goes in front and the last segment is dropped unless the pre-move head was on the food; the body stays on the grid, connected and without overlaps |
| Snake.SnakeGame.Tick | gaming-website/src/components/Snake.jsx:127-132 | nothing moves once the game is over; otherwise the tick is exactly one moveSnake step (the outcome `Stepped`); the score never falls, the speed never rises, and the length grows by at most one |
| Snake.SnakeGame.KeyDown | gaming-website/src/components/Snake.jsx:102-124 | the direction becomes the one the direction-change rule gives |
| Snake.SnakeGame.ResetGame | gaming-website/src/components/Snake.jsx:135-146 | the initial snake, the new food, direction right, score 0, speed 200, not over |
| Sudoku.AcceptedInputs | gaming-website/src/components/Sudoku.jsx:22 | the input filter accepts exactly the empty string and the nine one-digit strings "1" to "9" |
| Sudoku.ParseEntry | gaming-website/src/components/Sudoku.jsx:24 | an accepted input stores '' exactly for the empty string, and otherwise a number 1-9 |
| Sudoku.ShowParse | gaming-website/src/components/Sudoku.jsx:22-24 | showing the stored cell gives back the accepted input |
| Sudoku.ParseShow | gaming-website/src/components/Sudoku.jsx:22-24 | a blank or a digit cell, once shown, passes the filter and parses back to itself |
| Sudoku.SetCell | gaming-website/src/components/Sudoku.jsx:23-25 | the accepted value is stored at (row, col), and every other cell is unchanged |
| Sudoku.Column | gaming-website/src/components/Sudoku.jsx:40-48 | definition: column c lists board[r][c] for r from 0 to 8, the unit IsValidColumn is proved against |
| Sudoku.Box | gaming-website/src/components/Sudoku.jsx:50-60 | definition: the 3 x 3 box at (startRow, startCol) lists its nine cells row by row, the unit IsValidSubGrid is proved against |
| Sudoku.SeenStep | gaming-website/src/components/Sudoku.jsx:33-36 | with `seen` holding the values met so far, a non-empty value repeats exactly when it is already in `seen` |
| Sudoku.IsValidRow | gaming-website/src/components/Sudoku.jsx:31-38 | false exactly when some non-empty value appears twice in the row |
| Sudoku.IsValidColumn | gaming-website/src/components/Sudoku.jsx:40-48 | false exactly when some non-empty value appears twice in the column |
| Sudoku.IsValidSubGrid | gaming-website/src/components/Sudoku.jsx:50-60 | false exactly when some non-empty value appears twice in the box |
| Sudoku.IsBoardValid | gaming-website/src/components/Sudoku.jsx:62-72 | true exactly when all 9 rows, all 9 columns and the boxes at (0, 3 or 6, 0, 3 or 6) are free of repeats |
| Sudoku.NoRepeatsBlanked | gaming-website/src/components/Sudoku.jsx:31-38 | blanking cells of a unit without repeats leaves it without repeats |
| Sudoku.BlankingKeepsValid | gaming-website/src/components/Sudoku.jsx:62-72 | blanking any cells of a valid board leaves it valid |
| Sudoku.ClearingKeepsValid | gaming-website/src/components/Sudoku.jsx:22-25 | clearing one cell with the empty input never turns a valid board invalid |
| Sudoku.SudokuGame.constructor | gaming-website/src/components/Sudoku.jsx:18-19 | the board is initialBoard and the message is empty |
| Sudoku.SudokuGame.HandleInputChange | gaming-website/src/components/Sudoku.jsx:21-28 | a rejected value changes nothing; an accepted one replaces only cell (row, col) and clears the message |
| Sudoku.SudokuGame.HandleValidate | gaming-website/src/components/Sudoku.jsx:75-81 | only the message changes: the success text exactly when the board is valid, otherwise the error text |
| Sudoku.SudokuGame.HandleReset | gaming-website/src/components/Sudoku.jsx:83-86 | the board is exactly initialBoard and the message is empty |
| TicTacToe.Other | gaming-website/src/components/TicTacToe.jsx:44 | the other mark differs |
| TicTacToe.FirstOwner | gaming-website/src/components/TicTacToe.jsx:23-34 | a non-null result is the mark on some line whose three squares all hold it; null exactly when no line is owned |
| TicTacToe.CalculateWinner | gaming-website/src/components/TicTacToe.jsx:11-35 | returns a mark only if one of the 8 lines has all three squares equal to it, and null exactly when no line is filled with a single mark |
| TicTacToe.Derived | gaming-website/src/components/TicTacToe.jsx:50-57 | a winner exactly when a line is owned; a draw exactly when the board is full and no line is owned; undecided otherwise |
| TicTacToe.CountAfterPlace | gaming-website/src/components/TicTacToe.jsx:44 | placing a mark on an empty square adds one of that mark and leaves the other count unchanged |
| TicTacToe.CountEmpty | gaming-website/src/components/TicTacToe.jsx:7 | an empty board holds no marks |
| TicTacToe.Game.constructor | gaming-website/src/components/TicTacToe.jsx:7-9 | nine nulls, X to move, no winner; the invariants hold |
| TicTacToe.Game.Current | gaming-website/src/components/TicTacToe.jsx:44 | definition: the mark to place, X exactly when xIsNext; Click states its effect in these terms |
| TicTacToe.Game.HandleClick | gaming-website/src/components/TicTacToe.jsx:37-48 | a click on a filled square, or once a winner or draw is set, changes nothing; otherwise only square i gets the current mark and the turn flips |
| TicTacToe.Game.WinnerEffect | gaming-website/src/components/TicTacToe.jsx:50-57 | the winner becomes the line owner, else 'draw' on a full board, else it stays |
| TicTacToe.Game.Click | gaming-website/src/components/TicTacToe.jsx:37-57 | a click and the effect it triggers keep the balance of turns and the derived winner; an ignored click changes nothing |
| TicTacToe.Game.ResetGame | gaming-website/src/components/TicTacToe.jsx:59-63 | nine nulls, X to move, no winner |

## Left out

- React scheduling is not modelled: the 500 ms Tetris timer, the Snake interval, listener registration and batched `setState`. Each tick, key press or click is one atomic method call, and a game loop that is not running is modelled by the tick ignoring the call.
- The Snake updater at Snake.jsx line 44 is not modelled. The `setSnake(newSnake)` at line 97 replaces its result. That leaves its net effect: on food, the tail is not popped.
- `Math.random` is not modelled. The Tetris shape index (0-6) and the Snake food position are parameters of the operations that draw them.
- Navigation (`navigate('/')`, `Link`), JSX markup, CSS and the score and status text are left out, because they are router calls and rendering only. `App.js` and `Welcome.jsx` are not part of this model.
- Tetris before the first spawn is not modelled separately. The spawn effect (Tetris.jsx lines 238-244) fills the null `currentPiece` on the first render, so the constructor starts with that piece in place. For the same reason the `if (!currentPiece) return` in `rotatePiece` has no counterpart.
- Tetris `mergePiece` is modelled as three helper methods, MergePiece then calls them in order. `StampPiece` writes into the board's rows in place, as line 114 does into rows shared with the current board. `ClearLines` allocates the new board, and `SpawnPiece` places the next piece.
- Tetris fall distance: the I bar spawned at (4, 0) lies in row 1 of its matrix. On an empty board it can move down 18 times; the next downward move fails and merges the piece. The model follows the code (`BarDropDistance`).
- Sudoku's read-only preset cells (Sudoku.jsx line 112) are a property of the input element, not of `handleInputChange`. `HandleInputChange` therefore accepts writes to any cell, as the handler itself does.
- Sudoku input parsing follows only the "empty string or one digit 1-9" test of line 22. Browser input events and other regular-expression details are left out.
- Cell values are modelled as datatypes. A Tetris cell is `Empty` or a colour string, a Sudoku cell is `Blank` or a number, and a tic-tac-toe square is `Empty` or a mark. This stands in for JavaScript truthiness on `0`, `''` and `null`.
