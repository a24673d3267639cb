/** The piece catalog of the falling-block game: the seven shape matrices,
    their index-matched colours, and the rotation the engine applies. */
module TetrisShapes {

  /** A shape matrix in the piece's local frame; a nonzero entry is an
      occupied cell (the source stores 0 and 1 and tests truthiness). */
  type Matrix = seq<seq<int>>

  /** A piece: a shape matrix paired with its colour token. */
  datatype Piece = Piece(shape: Matrix, color: string)

  /** The matrices the engine works with: at least one row, every row of the
      same nonzero length. Rotation reads `shape[0]`, so it needs a first row. */
  predicate WellFormed(m: Matrix) {
    |m| > 0 && |m[0]| > 0 && forall r :: 0 <= r < |m| ==> |m[r]| == |m[0]|
  }

  /** I, O, T, L, reverse L, S and Z, in that order. */
  const SHAPES: seq<Matrix> := [
    [[0, 0, 0, 0],
     [1, 1, 1, 1],
     [0, 0, 0, 0],
     [0, 0, 0, 0]],
    [[1, 1],
     [1, 1]],
    [[0, 1, 0],
     [1, 1, 1],
     [0, 0, 0]],
    [[0, 0, 1],
     [1, 1, 1],
     [0, 0, 0]],
    [[1, 0, 0],
     [1, 1, 1],
     [0, 0, 0]],
    [[0, 1, 1],
     [1, 1, 0],
     [0, 0, 0]],
    [[1, 1, 0],
     [0, 1, 1],
     [0, 0, 0]]
  ]

  /** The colour of SHAPES[k] is COLORS[k]. */
  const COLORS: seq<string> := [
    "#FF0D72", "#0DC2FF", "#0DFF72", "#F538FF", "#FF8E0D", "#FFE138", "#3877FF"
  ]

  /** Number of occupied cells of a matrix. */
  function CellCount(m: Matrix): nat {
    if m == [] then 0 else RowCount(m[0]) + CellCount(m[1..])
  }

  function RowCount(row: seq<int>): nat {
    if row == [] then 0 else (if row[0] != 0 then 1 else 0) + RowCount(row[1..])
  }

  /** The piece chosen by getRandomPiece once its random shape index is drawn:
      the shape and the colour with that index. */
  function NewPiece(shapeIndex: nat): (p: Piece)
    requires shapeIndex < |SHAPES|
    ensures WellFormed(p.shape) && CellCount(p.shape) == 4
    ensures p.shape == SHAPES[shapeIndex] && p.color == COLORS[shapeIndex]
  {
    Piece(SHAPES[shapeIndex], COLORS[shapeIndex])
  }

  /** Column i of m, top to bottom. */
  function Column(m: Matrix, i: nat): seq<int>
    requires WellFormed(m) && i < |m[0]|
  {
    seq(|m|, r requires 0 <= r < |m| => m[r][i])
  }

  function Reverse(s: seq<int>): seq<int> {
    if s == [] then [] else Reverse(s[1..]) + [s[0]]
  }

  lemma {:induction false} ReverseAt(s: seq<int>, k: nat)
    requires k < |s|
    ensures |Reverse(s)| == |s| && Reverse(s)[k] == s[|s| - 1 - k]
  {
    if k < |s| - 1 {
      ReverseAt(s[1..], k);
    } else {
      ReverseLength(s[1..]);
    }
  }

  lemma {:induction false} ReverseLength(s: seq<int>)
    ensures |Reverse(s)| == |s|
  {
    if s != [] {
      ReverseLength(s[1..]);
    }
  }

  /** The rotation of rotatePiece: row i of the result is column i of the
      shape, reversed (transpose, then reverse each row: a clockwise turn). */
  function Rotate(m: Matrix): (r: Matrix)
    requires WellFormed(m)
    ensures WellFormed(r)
    ensures |r| == |m[0]| && |r[0]| == |m|
    ensures forall i, j :: 0 <= i < |m[0]| && 0 <= j < |m| ==> r[i][j] == m[|m| - 1 - j][i]
  {
    var r := seq(|m[0]|, i requires 0 <= i < |m[0]| => Reverse(Column(m, i)));
    forall i, j | 0 <= i < |m[0]| && 0 <= j < |m|
      ensures |r[i]| == |m| && r[i][j] == m[|m| - 1 - j][i]
    {
      ReverseAt(Column(m, i), j);
    }
    forall i | 0 <= i < |m[0]| ensures |r[i]| == |m| {
      ReverseLength(Column(m, i));
    }
    r
  }

  /** Two rotations turn the matrix upside down and mirror it. */
  lemma RotateTwice(m: Matrix)
    requires WellFormed(m)
    ensures |Rotate(Rotate(m))| == |m| && |Rotate(Rotate(m))[0]| == |m[0]|
    ensures forall i, j :: 0 <= i < |m| && 0 <= j < |m[0]| ==>
      Rotate(Rotate(m))[i][j] == m[|m| - 1 - i][|m[0]| - 1 - j]
  {
  }

  /** Four rotations give back the original matrix. */
  lemma RotateFourTimes(m: Matrix)
    requires WellFormed(m)
    ensures Rotate(Rotate(Rotate(Rotate(m)))) == m
  {
    var rr := Rotate(Rotate(m));
    RotateTwice(m);
    RotateTwice(rr);
    var r4 := Rotate(Rotate(rr));
    forall i | 0 <= i < |m| ensures r4[i] == m[i] {
      forall j | 0 <= j < |m[0]| ensures r4[i][j] == m[i][j] {
        assert r4[i][j] == rr[|m| - 1 - i][|m[0]| - 1 - j];
      }
    }
  }

  /** Two well-formed matrices of the same dimensions that agree everywhere are equal. */
  lemma SameMatrix(a: Matrix, b: Matrix)
    requires WellFormed(a) && WellFormed(b) && |a| == |b| && |a[0]| == |b[0]|
    requires forall i, j :: 0 <= i < |a| && 0 <= j < |a[0]| ==> a[i][j] == b[i][j]
    ensures a == b
  {
    forall i | 0 <= i < |a| ensures a[i] == b[i] {
      assert |a[i]| == |b[i]|;
    }
  }

  /** The O piece is a fixed point of rotation. */
  lemma SquareIsRotationInvariant()
    ensures Rotate(SHAPES[1]) == SHAPES[1]
  {
    var o := SHAPES[1];
    SameMatrix(Rotate(o), o);
  }

  /** The I piece alternates between a horizontal and a vertical bar. */
  lemma BarRotations()
    ensures Rotate(SHAPES[0]) == [[0, 0, 1, 0], [0, 0, 1, 0], [0, 0, 1, 0], [0, 0, 1, 0]]
    ensures Rotate(Rotate(SHAPES[0])) == [[0, 0, 0, 0], [0, 0, 0, 0], [1, 1, 1, 1], [0, 0, 0, 0]]
  {
    var bar := SHAPES[0];
    var upright: Matrix := [[0, 0, 1, 0], [0, 0, 1, 0], [0, 0, 1, 0], [0, 0, 1, 0]];
    var lowered: Matrix := [[0, 0, 0, 0], [0, 0, 0, 0], [1, 1, 1, 1], [0, 0, 0, 0]];
    forall i, j | 0 <= i < 4 && 0 <= j < 4 ensures Rotate(bar)[i][j] == upright[i][j] {
      assert j == 0 || j == 1 || j == 2 || j == 3;
    }
    SameMatrix(Rotate(bar), upright);
    forall i, j | 0 <= i < 4 && 0 <= j < 4 ensures Rotate(upright)[i][j] == lowered[i][j] {
      assert i == 0 || i == 1 || i == 2 || i == 3;
    }
    SameMatrix(Rotate(upright), lowered);
  }
}
