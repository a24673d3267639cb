/** The board of the falling-block game as a value: its cells, the collision
    check, the overlay of a piece, and the clearing of full rows. */
module TetrisGrid {
  import opened TetrisShapes

  const BOARD_WIDTH: int := 10
  const BOARD_HEIGHT: int := 20

  /** A board cell is 0 (empty) or a colour token. */
  datatype Cell = Empty | Filled(color: string)

  type Grid = seq<seq<Cell>>

  /** A piece position: the board coordinates of the local frame's top-left corner. */
  datatype Position = Position(x: int, y: int)

  /** Where mergePiece and startNewGame place a new piece: (floor(10 / 2) - 1, 0). */
  const SPAWN: Position := Position(BOARD_WIDTH / 2 - 1, 0)

  /** BOARD_HEIGHT rows of BOARD_WIDTH cells. */
  predicate IsGrid(g: Grid) {
    |g| == BOARD_HEIGHT && forall r :: 0 <= r < |g| ==> |g[r]| == BOARD_WIDTH
  }

  function EmptyRow(): (row: seq<Cell>)
    ensures |row| == BOARD_WIDTH && forall c :: 0 <= c < |row| ==> row[c] == Empty
  {
    seq(BOARD_WIDTH, _ => Empty)
  }

  function EmptyRows(n: nat): (rows: Grid)
    ensures |rows| == n && forall r :: 0 <= r < n ==> rows[r] == EmptyRow()
  {
    seq(n, _ => EmptyRow())
  }

  /** The board of a new game: every cell 0. */
  function EmptyGrid(): (g: Grid)
    ensures IsGrid(g) && forall r, c :: 0 <= r < |g| && 0 <= c < |g[r]| ==> g[r][c] == Empty
  {
    EmptyRows(BOARD_HEIGHT)
  }

  /** An occupied piece cell may sit at board coordinates (x, y): inside the
      side walls, above the floor, and on an empty cell unless it is above
      the top row (y < 0), where nothing collides. */
  predicate Free(g: Grid, x: int, y: int)
    requires IsGrid(g)
  {
    0 <= x < BOARD_WIDTH && y < BOARD_HEIGHT && (y >= 0 ==> g[y][x] == Empty)
  }

  /** The collision rule of isValidMove: the piece, shifted from pos by
      (offsetX, offsetY), has every occupied cell on a free board cell. */
  predicate ValidPlacement(p: Piece, offsetX: int, offsetY: int, g: Grid, pos: Position)
    requires IsGrid(g)
  {
    forall y, x :: 0 <= y < |p.shape| && 0 <= x < |p.shape[y]| && p.shape[y][x] != 0 ==>
      Free(g, pos.x + x + offsetX, pos.y + y + offsetY)
  }

  /** Every occupied cell of the piece at pos lies between the walls and
      above the floor (what a valid placement on any board implies). */
  predicate InBounds(p: Piece, pos: Position) {
    forall y, x :: 0 <= y < |p.shape| && 0 <= x < |p.shape[y]| && p.shape[y][x] != 0 ==>
      0 <= pos.x + x < BOARD_WIDTH && pos.y + y < BOARD_HEIGHT
  }

  /** isValidMove: the nested loop over the shape that returns false at the
      first occupied cell that leaves the board or lands on a filled cell. */
  method IsValidMove(p: Piece, offsetX: int, offsetY: int, g: Grid, pos: Position) returns (ok: bool)
    requires IsGrid(g)
    ensures ok <==> ValidPlacement(p, offsetX, offsetY, g, pos)
  {
    var y := 0;
    while y < |p.shape|
      invariant 0 <= y <= |p.shape|
      invariant forall yy, x :: 0 <= yy < y && 0 <= x < |p.shape[yy]| && p.shape[yy][x] != 0 ==>
        Free(g, pos.x + x + offsetX, pos.y + yy + offsetY)
    {
      var x := 0;
      while x < |p.shape[y]|
        invariant 0 <= x <= |p.shape[y]|
        invariant forall yy, xx :: 0 <= yy < y && 0 <= xx < |p.shape[yy]| && p.shape[yy][xx] != 0 ==>
          Free(g, pos.x + xx + offsetX, pos.y + yy + offsetY)
        invariant forall xx :: 0 <= xx < x && p.shape[y][xx] != 0 ==>
          Free(g, pos.x + xx + offsetX, pos.y + y + offsetY)
      {
        if p.shape[y][x] != 0 {
          var newX := pos.x + x + offsetX;
          var newY := pos.y + y + offsetY;
          if newX < 0 || newX >= BOARD_WIDTH || newY >= BOARD_HEIGHT || (newY >= 0 && g[newY][newX] != Empty) {
            return false;
          }
        }
        x := x + 1;
      }
      y := y + 1;
    }
    return true;
  }

  /** Cells with y < 0 never collide: a piece whose occupied cells are all
      above the top row and between the walls is valid on every board. */
  lemma AboveTopNeverCollides(p: Piece, g: Grid, h: Grid, pos: Position)
    requires IsGrid(g) && IsGrid(h)
    requires forall y, x :: 0 <= y < |p.shape| && 0 <= x < |p.shape[y]| && p.shape[y][x] != 0 ==>
      pos.y + y < 0 && 0 <= pos.x + x < BOARD_WIDTH
    ensures ValidPlacement(p, 0, 0, g, pos) && ValidPlacement(p, 0, 0, h, pos)
  {
  }

  /** The piece at pos covers board cell (r, c) with an occupied shape cell. */
  predicate Covers(p: Piece, pos: Position, r: int, c: int) {
    0 <= r - pos.y < |p.shape| && 0 <= c - pos.x < |p.shape[r - pos.y]| && p.shape[r - pos.y][c - pos.x] != 0
  }

  /** The board with the piece drawn in its colour on every covered on-board
      cell (renderBoard) - also what mergePiece writes before clearing rows. */
  function Overlay(g: Grid, p: Piece, pos: Position): (o: Grid)
    requires IsGrid(g)
    ensures IsGrid(o)
    ensures forall r, c :: 0 <= r < BOARD_HEIGHT && 0 <= c < BOARD_WIDTH ==>
      o[r][c] == if Covers(p, pos, r, c) then Filled(p.color) else g[r][c]
  {
    seq(BOARD_HEIGHT, r requires 0 <= r < BOARD_HEIGHT =>
      seq(BOARD_WIDTH, c requires 0 <= c < BOARD_WIDTH =>
        if Covers(p, pos, r, c) then Filled(p.color) else g[r][c]))
  }

  /** A validly placed piece covers only empty cells, so the overlay hides no
      locked cell and shows every occupied piece cell at or below the top row. */
  lemma OverlayOfValidPlacement(g: Grid, p: Piece, pos: Position)
    requires IsGrid(g)
    ensures ValidPlacement(p, 0, 0, g, pos) ==>
      forall r, c :: 0 <= r < BOARD_HEIGHT && 0 <= c < BOARD_WIDTH && g[r][c] != Empty ==>
        Overlay(g, p, pos)[r][c] == g[r][c]
    ensures ValidPlacement(p, 0, 0, g, pos) ==>
      forall y, x :: 0 <= y < |p.shape| && 0 <= x < |p.shape[y]| && p.shape[y][x] != 0 && pos.y + y >= 0 ==>
        Overlay(g, p, pos)[pos.y + y][pos.x + x] == Filled(p.color)
  {
  }

  /** Two boards that agree on every cell are equal. */
  lemma SameGrid(a: Grid, b: Grid)
    requires IsGrid(a) && IsGrid(b)
    requires forall r, c :: 0 <= r < BOARD_HEIGHT && 0 <= c < BOARD_WIDTH ==> a[r][c] == b[r][c]
    ensures a == b
  {
    forall r | 0 <= r < BOARD_HEIGHT ensures a[r] == b[r] {
      assert |a[r]| == |b[r]|;
    }
  }

  /** A row is full when every one of its cells is filled. */
  predicate IsFull(row: seq<Cell>) {
    forall c :: 0 <= c < |row| ==> row[c] != Empty
  }

  /** Number of full rows. */
  function FullRowCount(g: Grid): nat {
    if g == [] then 0 else (if IsFull(g[0]) then 1 else 0) + FullRowCount(g[1..])
  }

  /** The rows that are not full, kept in their order. */
  function Survivors(g: Grid): (s: Grid)
    ensures |s| + FullRowCount(g) == |g|
    ensures forall i :: 0 <= i < |s| ==> !IsFull(s[i]) && s[i] in g
  {
    if g == [] then [] else (if IsFull(g[0]) then [] else [g[0]]) + Survivors(g[1..])
  }

  /** linesToClear: how many rows the filter removed. */
  function LinesCleared(g: Grid): (n: nat)
    ensures n == FullRowCount(g)
  {
    |g| - |Survivors(g)|
  }

  /** The cleared board: as many empty rows as were removed, then the rows
      that were kept. */
  function ClearFullRows(g: Grid): (res: Grid)
    requires IsGrid(g)
    ensures IsGrid(res)
    ensures forall r :: 0 <= r < |res| ==> !IsFull(res[r])
    ensures forall r :: 0 <= r < LinesCleared(g) ==> res[r] == EmptyRow()
    ensures res[LinesCleared(g)..] == Survivors(g)
  {
    var s := Survivors(g);
    var res := EmptyRows(LinesCleared(g)) + s;
    assert forall r :: 0 <= r < |res| ==> !IsFull(res[r]) by {
      forall r | 0 <= r < |res| ensures !IsFull(res[r]) {
        if r < LinesCleared(g) {
          assert res[r][0] == Empty;
        } else {
          assert res[r] == s[r - LinesCleared(g)];
        }
      }
    }
    assert IsGrid(res) by {
      forall r | 0 <= r < |res| ensures |res[r]| == BOARD_WIDTH {
        if r >= LinesCleared(g) {
          assert res[r] in g;
        }
      }
    }
    assert res[LinesCleared(g)..] == s;
    res
  }

  lemma {:induction false} FullRowCountAppend(a: Grid, b: Grid)
    ensures FullRowCount(a + b) == FullRowCount(a) + FullRowCount(b)
  {
    if a != [] {
      assert (a + b)[0] == a[0];
      assert (a + b)[1..] == a[1..] + b;
      FullRowCountAppend(a[1..], b);
    } else {
      assert a + b == b;
    }
  }

  /** Surviving row i of g moves to index i - (full rows above it) among the
      survivors: the filter keeps the rows that are not full in their order. */
  lemma {:induction false} SurvivorPosition(g: Grid, i: nat)
    requires i < |g| && !IsFull(g[i])
    ensures FullRowCount(g[..i]) <= i
    ensures i - FullRowCount(g[..i]) < |Survivors(g)|
    ensures Survivors(g)[i - FullRowCount(g[..i])] == g[i]
  {
    if i == 0 {
      assert g[..0] == [];
    } else {
      SurvivorPosition(g[1..], i - 1);
      assert g[..i] == [g[0]] + g[1..][..i - 1];
      FullRowCountAppend([g[0]], g[1..][..i - 1]);
      assert FullRowCount([g[0]]) == if IsFull(g[0]) then 1 else 0 by {
        assert [g[0]][1..] == [];
      }
    }
  }

  /** Line clearing moves each row that is not full down by the number of
      full rows below it, so surviving rows keep their relative order. */
  lemma ClearedRowPosition(g: Grid, i: nat)
    requires IsGrid(g) && i < |g| && !IsFull(g[i])
    ensures i + FullRowCount(g[i + 1..]) < BOARD_HEIGHT
    ensures ClearFullRows(g)[i + FullRowCount(g[i + 1..])] == g[i]
  {
    SurvivorPosition(g, i);
    assert g == g[..i] + ([g[i]] + g[i + 1..]);
    FullRowCountAppend(g[..i], [g[i]] + g[i + 1..]);
    FullRowCountAppend([g[i]], g[i + 1..]);
    assert FullRowCount([g[i]]) == 0 by {
      assert [g[i]][1..] == [];
    }
    var res := ClearFullRows(g);
    var k := LinesCleared(g);
    assert res[k..] == Survivors(g);
    assert res[k + (i - FullRowCount(g[..i]))] == Survivors(g)[i - FullRowCount(g[..i])];
  }

  /** On a board without full rows the filter keeps every row. */
  lemma {:induction false} SurvivorsOfNoFullRows(g: Grid)
    requires forall r :: 0 <= r < |g| ==> !IsFull(g[r])
    ensures Survivors(g) == g
  {
    if g != [] {
      SurvivorsOfNoFullRows(g[1..]);
    }
  }

  /** Clearing twice in a row clears nothing the second time. */
  lemma ClearFullRowsIdempotent(g: Grid)
    requires IsGrid(g)
    ensures LinesCleared(ClearFullRows(g)) == 0
    ensures ClearFullRows(ClearFullRows(g)) == ClearFullRows(g)
  {
    var res := ClearFullRows(g);
    SurvivorsOfNoFullRows(res);
    assert EmptyRows(0) + res == res;
  }

  /** Every shape has an occupied cell at local (1, 1), so a filled board
      cell (5, 1) blocks every spawn: the next merge ends the game. */
  lemma SpawnBlocked(g: Grid, k: nat)
    requires IsGrid(g) && k < |SHAPES| && g[1][5] != Empty
    ensures !ValidPlacement(NewPiece(k), 0, 0, g, SPAWN)
  {
  }

  /** Every new piece fits at the spawn position on an empty board. */
  lemma SpawnOnEmptyGrid(k: nat)
    requires k < |SHAPES|
    ensures ValidPlacement(NewPiece(k), 0, 0, EmptyGrid(), SPAWN)
  {
  }

  /** The I bar spawned at (4, 0) lies in row 1, so on an empty board it can
      be moved down by d exactly when d <= 18 (its row stays above the floor). */
  lemma BarDropDistance(d: int)
    ensures ValidPlacement(NewPiece(0), 0, d, EmptyGrid(), SPAWN) <==> d <= 18
  {
  }
}
