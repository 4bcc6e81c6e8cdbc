/**
 * The 20 x 10 playfield of game.js and the pure computations over it: the
 * legality test `isValidPosition`, the landing row `getGhostY`, the cells
 * written by `lockPiece`, the rows kept by `clearLines`, the rows injected
 * by `addGarbage`, and the scoring constants.
 */
module Board {
  import opened Wrappers
  import opened Pieces

  const Width := 10
  const Height := 20

  /** What an occupied cell holds: a piece colour (the kind's letter) or `'garbage'`. */
  datatype Tag = Colour(kind: PieceType) | Garbage

  /** `null` or a tag. */
  type Cell = Option<Tag>

  /** Rows from top (index 0) to bottom. */
  type Grid = seq<seq<Cell>>

  predicate IsBoard(b: Grid) {
    |b| == Height && forall r | 0 <= r < |b| :: |b[r]| == Width
  }

  /** `Array(BOARD_WIDTH).fill(null)`. */
  function EmptyRow(): (row: seq<Cell>)
    ensures |row| == Width
  {
    seq(Width, _ => None)
  }

  /** `createBoard()`. */
  function EmptyBoard(): (b: Grid)
    ensures IsBoard(b)
  {
    seq(Height, _ => EmptyRow())
  }

  /** A cell a filled shape cell may land on: inside the side walls, above the floor, and free if on the board. */
  predicate CellOpen(b: Grid, cx: int, cy: int)
    requires IsBoard(b)
  {
    0 <= cx < Width && cy < Height && (cy >= 0 ==> b[cy][cx].None?)
  }

  /** Every filled cell of `s`, anchored at (x, y), lands on an open cell. */
  predicate Fits(b: Grid, x: int, y: int, s: Shape)
    requires IsBoard(b)
  {
    forall py, px | 0 <= py < |s| && 0 <= px < |s[py]| && s[py][px] != 0 :: CellOpen(b, x + px, y + py)
  }

  /** The inner loop of `isValidPosition` over the cells of row `py` from column `px` on. */
  function ScanRow(b: Grid, x: int, y: int, s: Shape, py: nat, px: nat): bool
    requires IsBoard(b) && py < |s|
    decreases |s[py]| - px
  {
    if px >= |s[py]| then true
    else if s[py][px] != 0 && (x + px < 0 || x + px >= Width || y + py >= Height) then false
    else if s[py][px] != 0 && y + py >= 0 && b[y + py][x + px].Some? then false
    else ScanRow(b, x, y, s, py, px + 1)
  }

  /** The outer loop of `isValidPosition` over the rows of `s` from row `py` on. */
  function ScanRows(b: Grid, x: int, y: int, s: Shape, py: nat): bool
    requires IsBoard(b)
    decreases |s| - py
  {
    if py >= |s| then true
    else ScanRow(b, x, y, s, py, 0) && ScanRows(b, x, y, s, py + 1)
  }

  /** The row scan succeeds exactly when every filled cell from column `px` on lands on an open cell. */
  lemma {:induction false} ScanRowOpen(b: Grid, x: int, y: int, s: Shape, py: nat, px: nat)
    requires IsBoard(b) && py < |s|
    ensures ScanRow(b, x, y, s, py, px) <==>
      forall c | px <= c < |s[py]| && s[py][c] != 0 :: CellOpen(b, x + c, y + py)
    decreases |s[py]| - px
  {
    if px < |s[py]| {
      ScanRowOpen(b, x, y, s, py, px + 1);
    }
  }

  /** The full scan succeeds exactly when every filled cell from row `py` on lands on an open cell. */
  lemma {:induction false} ScanRowsOpen(b: Grid, x: int, y: int, s: Shape, py: nat)
    requires IsBoard(b)
    ensures ScanRows(b, x, y, s, py) <==>
      forall r, c | py <= r < |s| && 0 <= c < |s[r]| && s[r][c] != 0 :: CellOpen(b, x + c, y + r)
    decreases |s| - py
  {
    if py < |s| {
      ScanRowOpen(b, x, y, s, py, 0);
      ScanRowsOpen(b, x, y, s, py + 1);
    }
  }

  /**
   * `isValidPosition(x, y, shape)`: false as soon as a filled cell lands left
   * of column 0, right of column 9 or below row 19, or on an occupied board
   * cell in a row >= 0; cells above the board (row < 0) are allowed.
   */
  function IsValidPosition(b: Grid, x: int, y: int, s: Shape): bool
    requires IsBoard(b)
  {
    ScanRows(b, x, y, s, 0)
  }

  /** `isValidPosition` accepts a placement exactly when every filled cell lands on an open cell. */
  lemma ValidIffFits(b: Grid, x: int, y: int, s: Shape)
    requires IsBoard(b)
    ensures IsValidPosition(b, x, y, s) <==> Fits(b, x, y, s)
  {
    ScanRowsOpen(b, x, y, s, 0);
  }

  /** The filled cells of `s` at (x, y) are between the walls and above the floor (they may overlap). */
  predicate InBounds(x: int, y: int, s: Shape) {
    forall py, px | 0 <= py < |s| && 0 <= px < |s[py]| && s[py][px] != 0 ::
      0 <= x + px < Width && y + py < Height
  }

  /** A legal placement lies inside the walls and above the floor. */
  lemma ValidInBounds(b: Grid, x: int, y: int, s: Shape)
    requires IsBoard(b) && IsValidPosition(b, x, y, s)
    ensures InBounds(x, y, s)
  {
    ValidIffFits(b, x, y, s);
  }

  /** A legal placement of a shape with a filled cell is above the floor row. */
  lemma ValidAboveFloor(b: Grid, x: int, y: int, s: Shape)
    requires IsBoard(b) && IsSquare(s) && HasCell(s)
    requires IsValidPosition(b, x, y, s)
    ensures y < Height
  {
    ValidIffFits(b, x, y, s);
    var r, c :| 0 <= r < |s| && 0 <= c < |s[r]| && s[r][c] != 0;
    assert CellOpen(b, x + c, y + r);
  }

  /**
   * The row `getGhostY` returns: the piece is moved down while the row below
   * is legal.
   */
  function GhostRow(b: Grid, x: int, y: int, s: Shape): (g: int)
    requires IsBoard(b) && IsSquare(s) && HasCell(s)
    ensures g >= y
    ensures !IsValidPosition(b, x, g + 1, s)
    ensures g > y ==> IsValidPosition(b, x, g, s)
    ensures IsValidPosition(b, x, y, s) ==> forall k | y <= k <= g :: IsValidPosition(b, x, k, s)
    decreases Height - y
  {
    if IsValidPosition(b, x, y + 1, s) then
      ValidAboveFloor(b, x, y + 1, s);
      GhostRow(b, x, y + 1, s)
    else y
  }

  /** The landing row of a piece inside the walls and above the floor is inside them too. */
  lemma GhostRowInBounds(b: Grid, x: int, y: int, s: Shape)
    requires IsBoard(b) && IsSquare(s) && HasCell(s) && InBounds(x, y, s)
    ensures InBounds(x, GhostRow(b, x, y, s), s)
  {
    var g := GhostRow(b, x, y, s);
    if g > y {
      ValidInBounds(b, x, g, s);
    }
  }

  /** The falling loop of `getGhostY` and `hardDrop`: move down while the row below is legal. */
  method DropRow(b: Grid, x: int, y: int, s: Shape) returns (g: int)
    requires IsBoard(b) && IsSquare(s) && HasCell(s)
    ensures g == GhostRow(b, x, y, s)
  {
    g := y;
    while IsValidPosition(b, x, g + 1, s)
      invariant GhostRow(b, x, g, s) == GhostRow(b, x, y, s)
      decreases Height - g
    {
      ValidAboveFloor(b, x, g + 1, s);
      g := g + 1;
    }
  }

  /**
   * The row `addGarbage` leaves an overlapping piece at: moved up one row at a
   * time while it is illegal and its row is above 0.
   */
  function RaiseRow(b: Grid, x: int, y: int, s: Shape): (r: int)
    requires IsBoard(b)
    ensures r <= y
    ensures IsValidPosition(b, x, r, s) || r <= 0
    ensures forall k | r < k <= y :: !IsValidPosition(b, x, k, s)
    decreases y
  {
    if !IsValidPosition(b, x, y, s) && y > 0 then RaiseRow(b, x, y - 1, s) else y
  }

  /** The raising loop of `addGarbage`: move up while illegal and below row 1. */
  method RaisePiece(b: Grid, x: int, y: int, s: Shape) returns (r: int)
    requires IsBoard(b)
    ensures r == RaiseRow(b, x, y, s)
  {
    r := y;
    while !IsValidPosition(b, x, r, s) && r > 0
      invariant RaiseRow(b, x, r, s) == RaiseRow(b, x, y, s)
      decreases r
    {
      r := r - 1;
    }
  }

  /**
   * The first of the kick offsets `ks[i..]` at which `s` is legal, where an
   * offset (dx, dy) moves the anchor to (x + dx, y - dy): the search order of
   * `rotate`.
   */
  function FirstFitFrom(b: Grid, x: int, y: int, s: Shape, ks: seq<(int, int)>, i: nat): (r: Option<nat>)
    requires IsBoard(b)
    ensures r.Some? ==> i <= r.value < |ks| && IsValidPosition(b, x + ks[r.value].0, y - ks[r.value].1, s)
    ensures r.Some? ==> forall j | i <= j < r.value :: !IsValidPosition(b, x + ks[j].0, y - ks[j].1, s)
    ensures r.None? ==> forall j | i <= j < |ks| :: !IsValidPosition(b, x + ks[j].0, y - ks[j].1, s)
    decreases |ks| - i
  {
    if i >= |ks| then None
    else if IsValidPosition(b, x + ks[i].0, y - ks[i].1, s) then Some(i)
    else FirstFitFrom(b, x, y, s, ks, i + 1)
  }

  /** The first legal kick offset of `ks`, if any. */
  function FirstFit(b: Grid, x: int, y: int, s: Shape, ks: seq<(int, int)>): Option<nat>
    requires IsBoard(b)
  {
    FirstFitFrom(b, x, y, s, ks, 0)
  }

  /** The kick loop of `rotate`: try the offsets in order and stop at the first legal one. */
  method FindKick(b: Grid, x: int, y: int, s: Shape, ks: seq<(int, int)>) returns (k: Option<nat>)
    requires IsBoard(b)
    ensures k == FirstFit(b, x, y, s, ks)
  {
    var i := 0;
    while i < |ks|
      invariant 0 <= i <= |ks|
      invariant FirstFitFrom(b, x, y, s, ks, i) == FirstFit(b, x, y, s, ks)
    {
      var (dx, dy) := ks[i];
      if IsValidPosition(b, x + dx, y - dy, s) {
        return Some(i);
      }
      i := i + 1;
    }
    return None;
  }

  /** The shape cell (py, px) exists and is filled. */
  predicate Covers(s: Shape, py: int, px: int) {
    0 <= py < |s| && 0 <= px < |s[py]| && s[py][px] != 0
  }

  /**
   * The board after the writing loop of `lockPiece`: every board cell under a
   * filled cell of `s` at (x, y) takes `tag`; cells in rows < 0 have no board
   * cell and are skipped.
   */
  function Stamp(b: Grid, x: int, y: int, s: Shape, tag: Tag): (r: Grid)
    requires IsBoard(b)
    ensures IsBoard(r)
  {
    seq(Height, i requires 0 <= i < Height =>
      seq(Width, j requires 0 <= j < Width => if Covers(s, i - y, j - x) then Some(tag) else b[i][j]))
  }

  /** Stamping writes the tag at every filled cell landing on the board and nothing elsewhere. */
  lemma StampCells(b: Grid, x: int, y: int, s: Shape, tag: Tag)
    requires IsBoard(b) && InBounds(x, y, s)
    ensures forall py, px | Covers(s, py, px) && y + py >= 0 :: Stamp(b, x, y, s, tag)[y + py][x + px] == Some(tag)
    ensures forall i, j | 0 <= i < Height && 0 <= j < Width && !Covers(s, i - y, j - x) ::
      Stamp(b, x, y, s, tag)[i][j] == b[i][j]
  {
  }

  /** Two boards agreeing cell by cell are equal. */
  lemma SameGrid(a: Grid, b: Grid)
    requires IsBoard(a) && IsBoard(b)
    requires forall i, j | 0 <= i < Height && 0 <= j < Width :: a[i][j] == b[i][j]
    ensures a == b
  {
    forall i | 0 <= i < Height
      ensures a[i] == b[i]
    {
    }
  }

  /** Shape cell (qy, qx) comes before (py, px) in row-major order. */
  predicate Before(qy: int, qx: int, py: int, px: int) {
    qy < py || (qy == py && qx < px)
  }

  /**
   * The writing loop of `lockPiece` on a board value: row by row, cell by
   * cell, a filled shape cell in a row >= 0 writes `tag` into the board.
   */
  method StampPiece(b: Grid, x: int, y: int, s: Shape, tag: Tag) returns (r: Grid)
    requires IsBoard(b) && InBounds(x, y, s)
    ensures r == Stamp(b, x, y, s, tag)
  {
    StampPartStart(b, x, y, s, tag);
    r := b;
    var py := 0;
    while py < |s|
      invariant 0 <= py <= |s|
      invariant r == StampPart(b, x, y, s, tag, py, 0)
    {
      var px := 0;
      while px < |s[py]|
        invariant 0 <= px <= |s[py]|
        invariant r == StampPart(b, x, y, s, tag, py, px)
      {
        StampPartStep(b, x, y, s, tag, py, px);
        if s[py][px] != 0 {
          var boardY := y + py;
          var boardX := x + px;
          if boardY >= 0 {
            r := r[boardY := r[boardY][boardX := Some(tag)]];
          }
        }
        px := px + 1;
      }
      StampPartRow(b, x, y, s, tag, py);
      py := py + 1;
    }
    StampPartEnd(b, x, y, s, tag);
  }

  /** The board part-way through the writing loop of `lockPiece`: the shape cells before (py, px) are written. */
  function StampPart(b: Grid, x: int, y: int, s: Shape, tag: Tag, py: int, px: int): (r: Grid)
    requires IsBoard(b)
    ensures IsBoard(r)
    ensures forall i, j | 0 <= i < Height && 0 <= j < Width ::
      r[i][j] == if Covers(s, i - y, j - x) && Before(i - y, j - x, py, px) then Some(tag) else b[i][j]
  {
    seq(Height, i requires 0 <= i < Height =>
      seq(Width, j requires 0 <= j < Width =>
        if Covers(s, i - y, j - x) && Before(i - y, j - x, py, px) then Some(tag) else b[i][j]))
  }

  /** Nothing is written before the first cell. */
  lemma StampPartStart(b: Grid, x: int, y: int, s: Shape, tag: Tag)
    requires IsBoard(b)
    ensures StampPart(b, x, y, s, tag, 0, 0) == b
  {
    var w := StampPart(b, x, y, s, tag, 0, 0);
    forall i, j | 0 <= i < Height && 0 <= j < Width
      ensures w[i][j] == b[i][j]
    {
    }
    SameGrid(w, b);
  }

  /** Visiting cell (py, px) writes the tag there if it is filled and on the board, and nothing else. */
  lemma StampPartStep(b: Grid, x: int, y: int, s: Shape, tag: Tag, py: int, px: int)
    requires IsBoard(b) && InBounds(x, y, s) && 0 <= py < |s| && 0 <= px < |s[py]|
    ensures var w := StampPart(b, x, y, s, tag, py, px);
      StampPart(b, x, y, s, tag, py, px + 1) ==
        if s[py][px] != 0 && y + py >= 0 then w[y + py := w[y + py][x + px := Some(tag)]] else w
  {
    var w := StampPart(b, x, y, s, tag, py, px);
    var v := if s[py][px] != 0 && y + py >= 0 then w[y + py := w[y + py][x + px := Some(tag)]] else w;
    var u := StampPart(b, x, y, s, tag, py, px + 1);
    assert IsBoard(v);
    forall i, j | 0 <= i < Height && 0 <= j < Width
      ensures u[i][j] == v[i][j]
    {
      if i == y + py && j == x + px {
      } else {
        assert !(i - y == py && j - x == px);
      }
    }
    SameGrid(u, v);
  }

  /** The end of one shape row is the start of the next. */
  lemma StampPartRow(b: Grid, x: int, y: int, s: Shape, tag: Tag, py: int)
    requires IsBoard(b) && 0 <= py < |s|
    ensures StampPart(b, x, y, s, tag, py, |s[py]|) == StampPart(b, x, y, s, tag, py + 1, 0)
  {
    var u := StampPart(b, x, y, s, tag, py, |s[py]|);
    var v := StampPart(b, x, y, s, tag, py + 1, 0);
    forall i, j | 0 <= i < Height && 0 <= j < Width
      ensures u[i][j] == v[i][j]
    {
    }
    SameGrid(u, v);
  }

  /** After the last shape row every cell is written. */
  lemma StampPartEnd(b: Grid, x: int, y: int, s: Shape, tag: Tag)
    requires IsBoard(b) && InBounds(x, y, s)
    ensures StampPart(b, x, y, s, tag, |s|, 0) == Stamp(b, x, y, s, tag)
  {
    var u := StampPart(b, x, y, s, tag, |s|, 0);
    var v := Stamp(b, x, y, s, tag);
    StampCells(b, x, y, s, tag);
    forall i, j | 0 <= i < Height && 0 <= j < Width
      ensures u[i][j] == v[i][j]
    {
    }
    SameGrid(u, v);
  }

  /** Every cell of the row is occupied (`row.every(cell => cell !== null)`). */
  predicate IsFull(row: seq<Cell>) {
    forall c | 0 <= c < |row| :: row[c].Some?
  }

  predicate NoFullRow(b: Grid) {
    forall r | 0 <= r < |b| :: !IsFull(b[r])
  }

  /** The rows that are not full, in their original order. */
  function Unfull(b: Grid): (r: Grid)
    ensures |r| <= |b|
  {
    if b == [] then []
    else if IsFull(b[0]) then Unfull(b[1..])
    else [b[0]] + Unfull(b[1..])
  }

  /** The kept rows are exactly the rows of the board that are not full. */
  lemma {:induction false} UnfullRows(b: Grid)
    ensures forall row :: row in Unfull(b) <==> row in b && !IsFull(row)
  {
    if b != [] {
      UnfullRows(b[1..]);
      assert b == [b[0]] + b[1..];
    }
  }

  /** The number of full rows. */
  function FullCount(b: Grid): nat {
    |b| - |Unfull(b)|
  }

  function EmptyRows(k: nat): (rows: Grid)
    ensures |rows| == k
  {
    seq(k, _ => EmptyRow())
  }

  /** The board after `clearLines`: the full rows removed and as many empty rows added on top. */
  function Cleared(b: Grid): Grid {
    EmptyRows(FullCount(b)) + Unfull(b)
  }

  /**
   * Clearing keeps the board 20 x 10, leaves no full row, keeps the other rows
   * in order below `FullCount(b)` empty rows, and changes nothing on a board
   * without full rows.
   */
  lemma ClearedShape(b: Grid)
    requires IsBoard(b)
    ensures IsBoard(Cleared(b)) && NoFullRow(Cleared(b))
    ensures Cleared(b)[FullCount(b)..] == Unfull(b)
    ensures forall i | 0 <= i < FullCount(b) :: Cleared(b)[i] == EmptyRow()
    ensures NoFullRow(b) ==> Cleared(b) == b
  {
    var c := Cleared(b);
    UnfullRows(b);
    assert c[FullCount(b)..] == Unfull(b);
    forall i | 0 <= i < |c|
      ensures |c[i]| == Width && !IsFull(c[i])
    {
      if i < FullCount(b) {
        assert c[i] == EmptyRow();
        assert c[i][0] == None;
      } else {
        assert c[i] in Unfull(b);
      }
    }
    if NoFullRow(b) {
      UnfullKeepsAll(b);
    }
  }

  lemma {:induction false} UnfullKeepsAll(b: Grid)
    requires NoFullRow(b)
    ensures Unfull(b) == b
  {
    if b != [] {
      assert !IsFull(b[0]);
      UnfullKeepsAll(b[1..]);
    }
  }

  /**
   * The board part-way through the bottom-up scan of `clearLines`: `n`
   * inserted empty rows, the `m` top rows not yet scanned, then the scanned
   * rows that were kept.
   */
  function Scanning(b: Grid, n: nat, m: nat): (w: Grid)
    requires m <= |b|
    ensures |w| == n + m + |Unfull(b[m..])|
  {
    EmptyRows(n) + b[..m] + Unfull(b[m..])
  }

  /**
   * One step of the scan at index n + m - 1, which holds the lowest unscanned
   * row: a full row is spliced out and an empty row inserted on top; a row
   * that is not full is kept and the scan moves up.
   */
  lemma ScanStep(b: Grid, n: nat, m: nat)
    requires 0 < m <= |b|
    ensures Scanning(b, n, m)[n + m - 1] == b[m - 1]
    ensures IsFull(b[m - 1]) ==>
      var w := Scanning(b, n, m);
      && [EmptyRow()] + w[..n + m - 1] + w[n + m..] == Scanning(b, n + 1, m - 1)
      && FullCount(b[m - 1..]) == FullCount(b[m..]) + 1
    ensures !IsFull(b[m - 1]) ==>
      Scanning(b, n, m) == Scanning(b, n, m - 1) && FullCount(b[m - 1..]) == FullCount(b[m..])
  {
    var w := Scanning(b, n, m);
    assert b[m - 1..] == [b[m - 1]] + b[m..];
    assert b[m - 1..][1..] == b[m..];
    assert b[..m] == b[..m - 1] + [b[m - 1]];
    if IsFull(b[m - 1]) {
      assert w[..n + m - 1] == EmptyRows(n) + b[..m - 1];
      assert w[n + m..] == Unfull(b[m..]);
      assert [EmptyRow()] + EmptyRows(n) == EmptyRows(n + 1);
    }
  }

  /** Once every row is scanned, the rows above the kept ones are the inserted empty rows. */
  lemma ScanTop(b: Grid, n: nat, i: int)
    requires 0 <= i < n
    ensures Scanning(b, n, 0)[i] == EmptyRow()
  {
  }

  /** The finished scan is the cleared board. */
  lemma ScanDone(b: Grid)
    ensures Scanning(b, FullCount(b), 0) == Cleared(b)
  {
    assert b[..0] == [] && b[0..] == b;
  }

  /**
   * The scan loop of `clearLines` on a board value: bottom-up, a full row is
   * spliced out and an empty row put on top, and the same index is checked
   * again; also the number of rows removed.
   */
  method ClearFullRows(b: Grid) returns (r: Grid, n: nat)
    requires IsBoard(b)
    ensures r == Cleared(b) && n == FullCount(b)
  {
    ghost var m := Height;
    r, n := b, 0;
    var y := Height - 1;
    assert b[..Height] == b && b[Height..] == [];
    while y >= 0
      invariant 0 <= m <= Height
      invariant r == Scanning(b, n, m)
      invariant n == FullCount(b[m..])
      invariant m > 0 ==> y == n + m - 1
      invariant m == 0 ==> -1 <= y < n
      decreases m, y + 1
    {
      if m > 0 {
        ScanStep(b, n, m);
      } else {
        ScanTop(b, n, y);
        assert r[y][0] == None;
      }
      if IsFull(r[y]) {
        r := [EmptyRow()] + r[..y] + r[y + 1..];
        n := n + 1;
        m := m - 1;
      } else {
        y := y - 1;
        if m > 0 {
          m := m - 1;
        }
      }
    }
    assert b[0..] == b;
    ScanDone(b);
  }

  /** Clearing twice is clearing once. */
  lemma ClearedIdempotent(b: Grid)
    requires IsBoard(b)
    ensures Cleared(Cleared(b)) == Cleared(b)
  {
    ClearedShape(b);
    ClearedShape(Cleared(b));
  }

  /** If every full row lies in the index window [lo, hi), there are at most hi - lo of them. */
  lemma {:induction false} FullRowsInWindow(b: Grid, lo: int, hi: int)
    requires lo <= hi
    requires forall i | 0 <= i < |b| && IsFull(b[i]) :: lo <= i < hi
    ensures FullCount(b) <= hi - lo
  {
    if b != [] {
      var t := b[1..];
      if IsFull(b[0]) {
        assert lo <= 0 < hi;
        forall i | 0 <= i < |t| && IsFull(t[i])
          ensures 0 <= i < hi - 1
        {
          assert IsFull(b[i + 1]);
        }
        FullRowsInWindow(t, 0, hi - 1);
      } else {
        forall i | 0 <= i < |t| && IsFull(t[i])
          ensures lo - 1 <= i < hi - 1
        {
          assert IsFull(b[i + 1]);
        }
        FullRowsInWindow(t, lo - 1, hi - 1);
      }
    }
  }

  /**
   * Stamping an n x n shape onto a board without full rows leaves at most n
   * full rows: only the rows the shape covers can have filled up. For the
   * seven pieces this bounds a clear at four rows.
   */
  lemma StampFullRows(b: Grid, x: int, y: int, s: Shape, tag: Tag)
    requires IsBoard(b) && NoFullRow(b) && IsSquare(s)
    ensures FullCount(Stamp(b, x, y, s, tag)) <= |s|
  {
    var r := Stamp(b, x, y, s, tag);
    forall i | 0 <= i < |r| && IsFull(r[i])
      ensures y <= i < y + |s|
    {
      if !(y <= i < y + |s|) {
        forall j | 0 <= j < Width
          ensures r[i][j] == b[i][j]
        {
          assert !Covers(s, i - y, j - x);
        }
        assert false;
      }
    }
    FullRowsInWindow(r, y, y + |s|);
  }

  /** A garbage row: `'garbage'` in every column except `null` at `gap`. */
  function GarbageRow(gap: int): (row: seq<Cell>)
    ensures |row| == Width
  {
    seq(Width, c => if c == gap then None else Some(Garbage))
  }

  function GarbageRows(n: nat, gap: int): (rows: Grid)
    ensures |rows| == n
  {
    seq(n, _ => GarbageRow(gap))
  }

  /** The board after the `shift`/`push` loop of `addGarbage(n)`. */
  function WithGarbage(b: Grid, n: nat, gap: int): Grid
    requires |b| == Height
  {
    (b + GarbageRows(n, gap))[n..]
  }

  /** The `shift`/`push` loop of `addGarbage(n)` on a board value. */
  method PushGarbage(b: Grid, n: nat, gap: int) returns (r: Grid)
    requires |b| == Height
    ensures r == WithGarbage(b, n, gap)
  {
    r := b;
    var i := 0;
    assert GarbageRows(0, gap) == [];
    assert (b + [])[0..] == b;
    while i < n
      invariant 0 <= i <= n
      invariant r == WithGarbage(b, i, gap)
    {
      r := r[1..] + [GarbageRow(gap)];
      assert b + GarbageRows(i + 1, gap) == (b + GarbageRows(i, gap)) + [GarbageRow(gap)];
      i := i + 1;
    }
  }

  /**
   * Injecting n garbage rows keeps the board 20 x 10, drops the top n rows,
   * moves every other row up by n and fills the bottom n rows (all of them
   * when n >= 20) with garbage rows sharing one gap; no full row appears.
   */
  lemma GarbageShape(b: Grid, n: nat, gap: int)
    requires IsBoard(b) && 0 <= gap < Width
    ensures IsBoard(WithGarbage(b, n, gap))
    ensures forall i | 0 <= i < Height - n :: WithGarbage(b, n, gap)[i] == b[i + n]
    ensures forall i | Height - n <= i < Height && 0 <= i :: WithGarbage(b, n, gap)[i] == GarbageRow(gap)
    ensures NoFullRow(b) ==> NoFullRow(WithGarbage(b, n, gap))
  {
    var w := WithGarbage(b, n, gap);
    var g := GarbageRows(n, gap);
    forall i | 0 <= i < |w|
      ensures w[i] == (if i + n < Height then b[i + n] else GarbageRow(gap))
    {
      assert w[i] == (b + g)[i + n];
    }
    if NoFullRow(b) {
      forall i | 0 <= i < |w|
        ensures !IsFull(w[i])
      {
        if i + n >= Height {
          assert w[i][gap] == None;
        }
      }
    }
  }

  /** `lineScores = [0, 100, 300, 500, 800]`. */
  function LineScore(n: int): int
    requires 0 <= n <= 4
  {
    [0, 100, 300, 500, 800][n]
  }

  /** `Math.floor(lines / 10) + 1`. */
  function LevelFor(lines: nat): (level: int)
    ensures level >= 1
  {
    lines / 10 + 1
  }

  /** The level is the number of the ten-line band the cleared-line count falls in, counting from 1. */
  lemma LevelBand(lines: nat)
    ensures (LevelFor(lines) - 1) * 10 <= lines < LevelFor(lines) * 10
  {
  }

  /** `Math.max(100, 1000 - (level - 1) * 80)`. */
  function DropIntervalFor(level: int): (ms: int)
    ensures ms >= 100
    ensures level >= 1 ==> ms <= 1000
    ensures ms == 100 || ms == 1000 - (level - 1) * 80
  {
    var v := 1000 - (level - 1) * 80;
    if v < 100 then 100 else v
  }

  /** The drop interval never grows as the level rises, and bottoms out at level 13. */
  lemma DropIntervalMonotone(a: int, b: int)
    requires a <= b
    ensures DropIntervalFor(b) <= DropIntervalFor(a)
    ensures b >= 13 ==> DropIntervalFor(b) == 100
  {
  }
}
