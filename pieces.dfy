/**
 * The seven tetromino kinds, their spawn matrices (`PIECES`), matrix
 * rotation (`getRotatedShape`) and the Super Rotation System kick tables
 * (`WALL_KICKS`) of game.js.
 */
module Pieces {

  datatype PieceType = I | O | T | S | Z | J | L

  /** `Object.keys(PIECES)`: the kinds in declaration order. */
  const AllTypes: seq<PieceType> := [I, O, T, S, Z, J, L]

  /** A shape matrix; a cell is filled when it is non-zero. */
  type Shape = seq<seq<int>>

  predicate IsSquare(s: Shape) {
    forall r | 0 <= r < |s| :: |s[r]| == |s|
  }

  /** The filled cells of a square matrix, as (row, column) pairs. */
  function Cells(s: Shape): set<(int, int)>
    requires IsSquare(s)
  {
    set r, c | 0 <= r < |s| && 0 <= c < |s| && s[r][c] != 0 :: (r, c)
  }

  /** The matrix has a filled cell. */
  predicate HasCell(s: Shape) {
    exists r, c | 0 <= r < |s| && 0 <= c < |s[r]| :: s[r][c] != 0
  }

  /** The spawn matrix of each kind. Every one of them is filled at (1, 1). */
  function Matrix(t: PieceType): (m: Shape)
    ensures IsSquare(m) && 2 <= |m| <= 4
    ensures m[1][1] != 0
  {
    match t
    case I => [[0, 0, 0, 0], [1, 1, 1, 1], [0, 0, 0, 0], [0, 0, 0, 0]]
    case O => [[1, 1], [1, 1]]
    case T => [[0, 1, 0], [1, 1, 1], [0, 0, 0]]
    case S => [[0, 1, 1], [1, 1, 0], [0, 0, 0]]
    case Z => [[1, 1, 0], [0, 1, 1], [0, 0, 0]]
    case J => [[1, 0, 0], [1, 1, 1], [0, 0, 0]]
    case L => [[0, 0, 1], [1, 1, 1], [0, 0, 0]]
  }

  /** `getRotatedShape(shape, 1)`: `rotated[x][n-1-y] = shape[y][x]`. */
  function Clockwise(s: Shape): (r: Shape)
    requires IsSquare(s)
    ensures IsSquare(r) && |r| == |s|
  {
    var n := |s|;
    seq(n, i requires 0 <= i < n => seq(n, j requires 0 <= j < n => s[n - 1 - j][i]))
  }

  /** `getRotatedShape(shape, d)` for any `d != 1`: `rotated[n-1-x][y] = shape[y][x]`. */
  function CounterClockwise(s: Shape): (r: Shape)
    requires IsSquare(s)
    ensures IsSquare(r) && |r| == |s|
  {
    var n := |s|;
    seq(n, i requires 0 <= i < n => seq(n, j requires 0 <= j < n => s[j][n - 1 - i]))
  }

  /** `getRotatedShape(shape, direction)`. */
  function Rotated(s: Shape, direction: int): Shape
    requires IsSquare(s)
  {
    if direction == 1 then Clockwise(s) else CounterClockwise(s)
  }

  /** Turning moves a filled cell but does not lose it. */
  lemma RotatedHasCell(s: Shape, direction: int)
    requires IsSquare(s) && HasCell(s)
    ensures HasCell(Rotated(s, direction))
  {
    var n := |s|;
    var r, c :| 0 <= r < n && 0 <= c < |s[r]| && s[r][c] != 0;
    if direction == 1 {
      assert Clockwise(s)[c][n - 1 - r] == s[r][c];
    } else {
      assert CounterClockwise(s)[n - 1 - c][r] == s[r][c];
    }
  }

  /** The matrix after `k` clockwise quarter turns. */
  function Turns(s: Shape, k: nat): (r: Shape)
    requires IsSquare(s)
    ensures IsSquare(r) && |r| == |s|
  {
    if k == 0 then s else Clockwise(Turns(s, k - 1))
  }

  /** Any number of quarter turns keeps the number of filled cells. */
  lemma {:induction false} TurnsKeepCells(s: Shape, k: nat)
    requires IsSquare(s)
    ensures |Cells(Turns(s, k))| == |Cells(s)|
  {
    if k > 0 {
      TurnsKeepCells(s, k - 1);
      ClockwiseKeepsCells(Turns(s, k - 1));
    }
  }

  /** Two square matrices of the same size agreeing cell by cell are equal. */
  lemma SameCells(a: Shape, b: Shape)
    requires IsSquare(a) && IsSquare(b) && |a| == |b|
    requires forall i, j | 0 <= i < |a| && 0 <= j < |a| :: a[i][j] == b[i][j]
    ensures a == b
  {
    forall i | 0 <= i < |a|
      ensures a[i] == b[i]
    {
      assert |a[i]| == |b[i]|;
    }
  }

  /** Turning counter-clockwise undoes a clockwise turn. */
  lemma CounterClockwiseUndoesClockwise(s: Shape)
    requires IsSquare(s)
    ensures CounterClockwise(Clockwise(s)) == s
  {
    var n := |s|;
    var r := CounterClockwise(Clockwise(s));
    forall i, j | 0 <= i < n && 0 <= j < n
      ensures r[i][j] == s[i][j]
    {
      assert r[i][j] == Clockwise(s)[j][n - 1 - i];
    }
    SameCells(r, s);
  }

  /** Turning clockwise undoes a counter-clockwise turn. */
  lemma ClockwiseUndoesCounterClockwise(s: Shape)
    requires IsSquare(s)
    ensures Clockwise(CounterClockwise(s)) == s
  {
    var n := |s|;
    var r := Clockwise(CounterClockwise(s));
    forall i, j | 0 <= i < n && 0 <= j < n
      ensures r[i][j] == s[i][j]
    {
      assert r[i][j] == CounterClockwise(s)[n - 1 - j][i];
    }
    SameCells(r, s);
  }

  /** Two clockwise turns are a half turn. */
  lemma HalfTurn(s: Shape)
    requires IsSquare(s)
    ensures forall i, j | 0 <= i < |s| && 0 <= j < |s| ::
      Clockwise(Clockwise(s))[i][j] == s[|s| - 1 - i][|s| - 1 - j]
  {
    var n := |s|;
    forall i, j | 0 <= i < n && 0 <= j < n
      ensures Clockwise(Clockwise(s))[i][j] == s[n - 1 - i][n - 1 - j]
    {
      assert Clockwise(Clockwise(s))[i][j] == Clockwise(s)[n - 1 - j][i];
    }
  }

  /** Four clockwise turns give back the original matrix. */
  lemma FourTurns(s: Shape)
    requires IsSquare(s)
    ensures Turns(s, 4) == s
  {
    var n := |s|;
    var h := Clockwise(Clockwise(s));
    HalfTurn(s);
    HalfTurn(h);
    assert Turns(s, 1) == Clockwise(s);
    assert Turns(s, 2) == h;
    assert Turns(s, 3) == Clockwise(h);
    assert Turns(s, 4) == Clockwise(Clockwise(h));
    forall i, j | 0 <= i < n && 0 <= j < n
      ensures Turns(s, 4)[i][j] == s[i][j]
    {
      assert Clockwise(Clockwise(h))[i][j] == h[n - 1 - i][n - 1 - j];
    }
    SameCells(Turns(s, 4), s);
  }

  /** Counter-clockwise from `k` turns (k >= 1) is `k - 1` turns; from 0 it is 3 turns. */
  lemma CounterClockwiseTurns(s: Shape, k: nat)
    requires IsSquare(s) && k < 4
    ensures CounterClockwise(Turns(s, k)) == Turns(s, (k + 3) % 4)
  {
    if k == 0 {
      FourTurns(s);
      CounterClockwiseUndoesClockwise(Turns(s, 3));
    } else {
      CounterClockwiseUndoesClockwise(Turns(s, k - 1));
    }
  }

  /** Clockwise from `k` turns is `(k + 1) % 4` turns. */
  lemma ClockwiseTurns(s: Shape, k: nat)
    requires IsSquare(s) && k < 4
    ensures Clockwise(Turns(s, k)) == Turns(s, (k + 1) % 4)
  {
    if k == 3 {
      FourTurns(s);
    }
  }

  /** The image of a set of cells under the clockwise map (r, c) -> (c, n-1-r). */
  function TurnCells(cs: set<(int, int)>, n: int): set<(int, int)> {
    set p | p in cs :: (p.1, n - 1 - p.0)
  }

  lemma {:induction false} TurnCellsCard(cs: set<(int, int)>, n: int)
    ensures |TurnCells(cs, n)| == |cs|
    decreases |cs|
  {
    if cs != {} {
      var p :| p in cs;
      var rest := cs - {p};
      TurnCellsCard(rest, n);
      assert TurnCells(cs, n) == TurnCells(rest, n) + {(p.1, n - 1 - p.0)};
      assert (p.1, n - 1 - p.0) !in TurnCells(rest, n);
    }
  }

  /** A clockwise turn keeps the number of filled cells. */
  lemma ClockwiseKeepsCells(s: Shape)
    requires IsSquare(s)
    ensures |Cells(Clockwise(s))| == |Cells(s)|
  {
    var n := |s|;
    var r := Clockwise(s);
    forall q | q in Cells(r)
      ensures q in TurnCells(Cells(s), n)
    {
      var p := (n - 1 - q.1, q.0);
      assert r[q.0][q.1] == s[p.0][p.1];
      assert p in Cells(s);
    }
    forall q | q in TurnCells(Cells(s), n)
      ensures q in Cells(r)
    {
      var p :| p in Cells(s) && q == (p.1, n - 1 - p.0);
      assert r[q.0][q.1] == s[p.0][p.1];
    }
    assert Cells(r) == TurnCells(Cells(s), n);
    TurnCellsCard(Cells(s), n);
  }

  /** A counter-clockwise turn keeps the number of filled cells. */
  lemma CounterClockwiseKeepsCells(s: Shape)
    requires IsSquare(s)
    ensures |Cells(CounterClockwise(s))| == |Cells(s)|
  {
    var c := CounterClockwise(s);
    ClockwiseKeepsCells(c);
    ClockwiseUndoesCounterClockwise(s);
  }

  /** The `JLSTZ` table of `WALL_KICKS`, as (dx, dy) with dy pointing up. */
  function JlstzKicks(from: int, to: int): seq<(int, int)> {
    if from == 0 && to == 1 then [(0, 0), (-1, 0), (-1, 1), (0, -2), (-1, -2)]
    else if from == 1 && to == 0 then [(0, 0), (1, 0), (1, -1), (0, 2), (1, 2)]
    else if from == 1 && to == 2 then [(0, 0), (1, 0), (1, -1), (0, 2), (1, 2)]
    else if from == 2 && to == 1 then [(0, 0), (-1, 0), (-1, 1), (0, -2), (-1, -2)]
    else if from == 2 && to == 3 then [(0, 0), (1, 0), (1, 1), (0, -2), (1, -2)]
    else if from == 3 && to == 2 then [(0, 0), (-1, 0), (-1, -1), (0, 2), (-1, 2)]
    else if from == 3 && to == 0 then [(0, 0), (-1, 0), (-1, -1), (0, 2), (-1, 2)]
    else if from == 0 && to == 3 then [(0, 0), (1, 0), (1, 1), (0, -2), (1, -2)]
    else [(0, 0)]
  }

  /** The `I` table of `WALL_KICKS`. */
  function IKicks(from: int, to: int): seq<(int, int)> {
    if from == 0 && to == 1 then [(0, 0), (-2, 0), (1, 0), (-2, -1), (1, 2)]
    else if from == 1 && to == 0 then [(0, 0), (2, 0), (-1, 0), (2, 1), (-1, -2)]
    else if from == 1 && to == 2 then [(0, 0), (-1, 0), (2, 0), (-1, 2), (2, -1)]
    else if from == 2 && to == 1 then [(0, 0), (1, 0), (-2, 0), (1, -2), (-2, 1)]
    else if from == 2 && to == 3 then [(0, 0), (2, 0), (-1, 0), (2, 1), (-1, -2)]
    else if from == 3 && to == 2 then [(0, 0), (-2, 0), (1, 0), (-2, -1), (1, 2)]
    else if from == 3 && to == 0 then [(0, 0), (1, 0), (-2, 0), (1, -2), (-2, 1)]
    else if from == 0 && to == 3 then [(0, 0), (-1, 0), (2, 0), (-1, 2), (2, -1)]
    else [(0, 0)]
  }

  /**
   * The kick offsets tried when turning from rotation `from` to `to`: the
   * `I` table for the I piece and the `JLSTZ` table for every other kind,
   * the O piece included; a pair missing from the table gives `[(0, 0)]`.
   * Rotation in place is always the first candidate.
   */
  function Kicks(t: PieceType, from: int, to: int): (ks: seq<(int, int)>)
    ensures |ks| >= 1 && ks[0] == (0, 0)
    ensures 0 <= from < 4 && (to == (from + 1) % 4 || to == (from + 3) % 4) ==> |ks| == 5
    ensures t == I ==> ks == IKicks(from, to)
    ensures t != I ==> ks == JlstzKicks(from, to)
  {
    if t == I then IKicks(from, to) else JlstzKicks(from, to)
  }
}
