/**
 * What the engine's state functions promise: where a piece spawns and when
 * the game ends, how hold swaps, which wall kick a rotation commits, where a
 * hard drop lands and what it scores, what locking and line clearing do to
 * the board and the counters, and how garbage pushes the stack up.
 */
module Rules {
  import opened Wrappers
  import opened Pieces
  import opened Bag
  import opened Board
  import opened Engine

  /**
   * `spawnPiece`: the head of the queue enters at rotation 0, row 0 and the
   * centred column, with its spawn matrix; the queue is topped up from the
   * bag to at least three; holding is allowed again; the game ends exactly
   * when the spawn placement is not free (or had already ended).
   */
  lemma SpawnRules(st: GameState, perm: seq<PieceType>)
    requires Consistent(st) && IsPermutation(perm)
    ensures var r := Spawn(st, perm);
      var t := st.next[0];
      && r.current == Some(Piece(t, Matrix(t)))
      && r.rotation == 0 && r.y == 0 && r.x == SpawnColumn(t) && 3 <= r.x <= 4
      && r.canHold
      && |r.next| >= QueueLength
      && r.next == st.next[1..] + Draws(st.bag, perm, |r.next| - (|st.next| - 1))
      && (r.gameOver <==> st.gameOver || !Fits(st.board, SpawnColumn(t), 0, Matrix(t)))
      && r.board == st.board && r.score == st.score && r.lines == st.lines && r.hold == st.hold
  {
    ValidIffFits(st.board, SpawnColumn(st.next[0]), 0, Matrix(st.next[0]));
  }

  /**
   * The swap of `hold`: the falling kind goes to the slot, the held kind
   * enters at the spawn point with its spawn matrix, and a second hold before
   * the next spawn is refused.
   */
  lemma HoldSwapRules(st: GameState)
    requires Consistent(st) && st.current.Some? && st.hold.Some?
    ensures var r := Swapped(st);
      && r.hold == Some(st.current.value.kind)
      && r.current == Some(Piece(st.hold.value, Matrix(st.hold.value)))
      && r.rotation == 0 && r.y == 0 && r.x == SpawnColumn(st.hold.value)
      && !r.canHold
      && Consistent(r)
      && r.board == st.board && r.next == st.next && r.score == st.score
  {
  }

  /**
   * Holding into an empty slot stores the falling kind and spawns the next
   * one; because spawning allows holding again, a second hold is possible
   * before that piece locks.
   */
  lemma HoldIntoEmptySlot(st: GameState, perm: seq<PieceType>)
    requires Consistent(st) && IsPermutation(perm) && st.current.Some? && st.hold.None?
    ensures var r := Spawn(st.(hold := Some(st.current.value.kind)), perm);
      && r.hold == Some(st.current.value.kind)
      && r.current == Some(Piece(st.next[0], Matrix(st.next[0])))
      && r.canHold
  {
  }

  /** Swapping twice gives back the falling kind and the held kind. */
  lemma SwapTwice(st: GameState)
    requires st.current.Some? && st.hold.Some?
    ensures Swapped(Swapped(st)).current.value.kind == st.current.value.kind
    ensures Swapped(Swapped(st)).hold == st.hold
  {
  }

  /** The rotation index stays in 0..3 and moves one step in the direction of the turn. */
  lemma TargetRotationRules(rotation: int, direction: int)
    requires 0 <= rotation < 4 && (direction == 1 || direction == -1)
    ensures 0 <= TargetRotation(rotation, direction) < 4
    ensures direction == 1 ==> TargetRotation(rotation, direction) == (rotation + 1) % 4
    ensures direction == -1 ==> TargetRotation(rotation, direction) == (rotation + 3) % 4
    ensures TargetRotation(TargetRotation(rotation, direction), -direction) == rotation
  {
  }

  /** Every turn between adjacent rotations has five kick offsets to try, the first of them in place. */
  lemma KickCount(st: GameState, direction: int)
    requires Consistent(st) && st.current.Some? && (direction == 1 || direction == -1)
    ensures var ks := Kicks(st.current.value.kind, st.rotation, TargetRotation(st.rotation, direction));
      |ks| == 5 && ks[0] == (0, 0)
  {
    TargetRotationRules(st.rotation, direction);
  }

  /** The kick search in terms of `Fits`: the first offset of `ks` at which `s` fits, if any. */
  lemma FirstFitRules(b: Grid, x: int, y: int, s: Shape, ks: seq<(int, int)>)
    requires IsBoard(b)
    ensures match FirstFit(b, x, y, s, ks)
      case None => forall j | 0 <= j < |ks| :: !Fits(b, x + ks[j].0, y - ks[j].1, s)
      case Some(k) =>
        && k < |ks|
        && Fits(b, x + ks[k].0, y - ks[k].1, s)
        && (forall j | 0 <= j < k :: !Fits(b, x + ks[j].0, y - ks[j].1, s))
  {
    forall j | 0 <= j < |ks| {
      ValidIffFits(b, x + ks[j].0, y - ks[j].1, s);
    }
  }

  /**
   * `rotate`: the kick offset committed is the first of the table `ks` for
   * this kind and rotation pair at which the turned matrix fits; when none
   * is committed, no offset fits.
   */
  lemma RotationRules(st: GameState, direction: int, ks: seq<(int, int)>)
    requires IsBoard(st.board) && Oriented(st.current, st.rotation) && st.current.Some?
    requires ks == Kicks(st.current.value.kind, st.rotation, TargetRotation(st.rotation, direction))
    ensures var s := Rotated(st.current.value.shape, direction);
      match RotationKick(st, direction)
      case None => forall j | 0 <= j < |ks| :: !Fits(st.board, st.x + ks[j].0, st.y - ks[j].1, s)
      case Some(k) =>
        && Fits(st.board, st.x + ks[k].0, st.y - ks[k].1, s)
        && (forall j | 0 <= j < k :: !Fits(st.board, st.x + ks[j].0, st.y - ks[j].1, s))
  {
    FirstFitRules(st.board, st.x, st.y, Rotated(st.current.value.shape, direction), ks);
  }

  /**
   * The matrix of a falling piece always matches its rotation index: a
   * spawned piece has the spawn matrix at rotation 0, and a turn moves both
   * one step the same way.
   */
  lemma SpawnMatchesRotation(st: GameState, t: PieceType)
    ensures SpawnAt(st, t).current.value.shape == Turns(Matrix(t), SpawnAt(st, t).rotation)
  {
  }

  lemma TurnedMatchesRotation(st: GameState, direction: int, kick: (int, int))
    requires Oriented(st.current, st.rotation) && st.current.Some? && (direction == 1 || direction == -1)
    requires st.current.value.shape == Turns(Matrix(st.current.value.kind), st.rotation)
    ensures var r := Turned(st, direction, kick);
      r.current.value.kind == st.current.value.kind
      && r.current.value.shape == Turns(Matrix(r.current.value.kind), r.rotation)
  {
    var m := Matrix(st.current.value.kind);
    if direction == 1 {
      ClockwiseTurns(m, st.rotation);
    } else {
      CounterClockwiseTurns(m, st.rotation);
    }
  }

  /**
   * The hard-drop fall: the piece ends at its ghost row, never above where it
   * was, on a row where it fits and from which it cannot fall further, with
   * 2 points per row travelled; dropping again moves nothing.
   */
  lemma DropRules(st: GameState)
    requires Consistent(st) && st.current.Some?
    ensures var r := Dropped(st);
      var s := st.current.value.shape;
      && r.y == GhostRow(st.board, st.x, st.y, s) && r.y >= st.y
      && r.score == st.score + 2 * (r.y - st.y)
      && !Fits(st.board, st.x, r.y + 1, s)
      && (Fits(st.board, st.x, st.y, s) ==> forall k | st.y <= k <= r.y :: Fits(st.board, st.x, k, s))
      && r.x == st.x && r.current == st.current && r.board == st.board
  {
    var s := st.current.value.shape;
    var g := GhostRow(st.board, st.x, st.y, s);
    ValidIffFits(st.board, st.x, g + 1, s);
    ValidIffFits(st.board, st.x, st.y, s);
    forall k | st.y <= k <= g {
      ValidIffFits(st.board, st.x, k, s);
    }
  }

  /** A second hard-drop fall from the landing row neither moves the piece nor scores. */
  lemma DroppedIdempotent(st: GameState)
    requires Consistent(st)
    ensures Dropped(Dropped(st)) == Dropped(st)
  {
  }

  /**
   * `lockPiece`: the piece's cells on the board take its colour, the rows
   * that became full are cleared, the line count, level and score follow
   * from their number, the lock timer is off, and the head of the queue
   * is the new falling piece.
   */
  lemma LockRules(st: GameState, perm: seq<PieceType>)
    requires Consistent(st) && IsPermutation(perm) && st.current.Some?
    ensures var p := st.current.value;
      var b := Locked(st);
      && (forall py, px | Covers(p.shape, py, px) && st.y + py >= 0 :: b[st.y + py][st.x + px] == Some(Colour(p.kind)))
      && (forall i, j | 0 <= i < Height && 0 <= j < Width && !Covers(p.shape, i - st.y, j - st.x) :: b[i][j] == st.board[i][j])
    ensures var (r, n) := Lock(st, perm);
      var b := Locked(st);
      && n == FullCount(b) && n <= 4
      && r.board == Cleared(b)
      && r.lines == st.lines + n
      && r.level == LevelFor(st.lines + n)
      && r.score == st.score + LineScore(n) * LevelFor(st.lines + n)
      && !r.lockPending && r.canHold
      && r.current == Some(Piece(st.next[0], Matrix(st.next[0])))
  {
    var p := st.current.value;
    StampCells(st.board, st.x, st.y, p.shape, Colour(p.kind));
  }

  /**
   * `clearLines` on the board: the full rows go, the other rows keep their
   * order and sink to the bottom, and empty rows fill the top.
   */
  lemma ClearBoardRules(st: GameState)
    requires Settled(st) && FullCount(st.board) <= 4
    ensures var (r, n) := ClearRows(st);
      && n == FullCount(st.board)
      && r.board[n..] == Unfull(st.board)
      && (forall i | 0 <= i < n :: r.board[i] == EmptyRow())
      && NoFullRow(r.board)
      && r.current == st.current && r.x == st.x && r.y == st.y && r.next == st.next
  {
    ClearedShape(st.board);
  }

  /** The rows kept by a clear are exactly the rows of the board that were not full. */
  lemma ClearKeepsRows(st: GameState)
    requires Settled(st) && FullCount(st.board) <= 4
    ensures var (r, n) := ClearRows(st);
      forall row :: row in r.board[n..] <==> row in st.board && !IsFull(row)
  {
    ClearedShape(st.board);
    UnfullRows(st.board);
  }

  /**
   * `clearLines` on the counters: the line count grows by the number
   * cleared, level and speed are recomputed from it, and the score grows by
   * the line score times the new level.
   */
  lemma ClearCountRules(st: GameState)
    requires Settled(st) && FullCount(st.board) <= 4
    ensures var (r, n) := ClearRows(st);
      && r.lines == st.lines + n
      && r.level == (st.lines + n) / 10 + 1
      && r.dropInterval == (if 1000 - (r.level - 1) * 80 < 100 then 100 else 1000 - (r.level - 1) * 80)
      && r.score == st.score + [0, 100, 300, 500, 800][n] * r.level
  {
  }

  /** Clearing a board with no full row changes nothing. */
  lemma ClearNothing(st: GameState)
    requires Consistent(st)
    ensures FullCount(st.board) == 0
    ensures ClearRows(st) == (st, 0)
  {
    UnfullKeepsAll(st.board);
    ClearedShape(st.board);
  }

  /** A line that takes the count from 9 to 10 is scored at the new level 2. */
  lemma LevelUpScoring(st: GameState)
    requires Settled(st) && st.lines == 9 && FullCount(st.board) == 1
    ensures ClearRows(st).0.score == st.score + 200
    ensures ClearRows(st).0.level == 2 && ClearRows(st).0.dropInterval == 920
  {
  }

  /** A four-line clear from level 1 scores 800. */
  lemma TetrisScoring(st: GameState)
    requires Settled(st) && st.lines == 0 && FullCount(st.board) == 4
    ensures ClearRows(st).0.score == st.score + 800
    ensures ClearRows(st).0.lines == 4 && ClearRows(st).0.level == 1
  {
  }

  /**
   * `addGarbage(n)`: every row moves up by n, the bottom rows become garbage
   * rows with one gap; a piece that still fits stays, one that overlaps is
   * raised to the lowest row above it where it fits (not above row 0), and
   * the game ends if it still does not fit there.
   */
  lemma GarbageRules(st: GameState, n: nat, gap: int)
    requires Consistent(st) && 0 <= gap < Width && n > 0
    ensures var r := Garbaged(st, n, gap);
      && (forall i | 0 <= i < Height - n :: r.board[i] == st.board[i + n])
      && (forall i | Height - n <= i < Height && 0 <= i :: r.board[i] == GarbageRow(gap))
      && NoFullRow(r.board)
      && r.current == st.current && r.x == st.x && r.y <= st.y && r.score == st.score
    ensures st.current.Some? ==>
      var r := Garbaged(st, n, gap);
      var s := st.current.value.shape;
      && (Fits(r.board, st.x, st.y, s) ==> r.y == st.y)
      && (forall k | r.y < k <= st.y :: !Fits(r.board, st.x, k, s))
      && (r.y > 0 ==> Fits(r.board, st.x, r.y, s))
      && (r.gameOver <==> st.gameOver || !Fits(r.board, st.x, r.y, s))
  {
    GarbageShape(st.board, n, gap);
    if st.current.Some? {
      var b := WithGarbage(st.board, n, gap);
      var s := st.current.value.shape;
      var r := Garbaged(st, n, gap);
      ValidIffFits(b, st.x, st.y, s);
      ValidIffFits(b, st.x, r.y, s);
      forall k | r.y < k <= st.y {
        ValidIffFits(b, st.x, k, s);
      }
    }
  }

  /** The I piece on an empty board fits at every row down to 18 with its anchor in column 3. */
  lemma IFitsEmpty(k: int)
    ensures Fits(EmptyBoard(), 3, k, Matrix(I)) <==> k <= 18
  {
    if k > 18 {
      assert Matrix(I)[1][0] != 0;
      assert !CellOpen(EmptyBoard(), 3, k + 1);
    }
  }

  /** The I piece dropped from row 0 of an empty board lands on row 18. */
  lemma ILandsOnEmpty(b: Grid)
    requires b == EmptyBoard()
    ensures GhostRow(b, 3, 0, Matrix(I)) == 18
  {
    var s := Matrix(I);
    var g := GhostRow(b, 3, 0, s);
    IFitsEmpty(0);
    IFitsEmpty(g + 1);
    ValidIffFits(b, 3, 0, s);
    ValidIffFits(b, 3, g + 1, s);
    if g > 18 {
      IFitsEmpty(19);
      ValidIffFits(b, 3, 19, s);
      assert false;
    }
  }

  /** Locking that I piece on row 18 fills columns 3 to 6 of the bottom row and nothing else there. */
  lemma IStampsBottom(b: Grid)
    requires b == EmptyBoard()
    ensures forall j | 0 <= j < Width :: Stamp(b, 3, 18, Matrix(I), Colour(I))[19][j] == if 3 <= j < 7 then Some(Colour(I)) else None
  {
    var s := Matrix(I);
    forall j | 0 <= j < Width
      ensures Stamp(b, 3, 18, s, Colour(I))[19][j] == if 3 <= j < 7 then Some(Colour(I)) else None
    {
      assert Covers(s, 1, j - 3) <==> 3 <= j < 7;
    }
  }

  /**
   * An I piece spawned on an empty board enters at column 3, lands on row
   * 18 (its cells on the bottom row, columns 3 to 6) and scores 36 points.
   */
  lemma IPieceHardDrop(st: GameState)
    requires Consistent(st) && st.board == EmptyBoard()
    requires st.current == Some(Piece(I, Matrix(I))) && st.x == SpawnColumn(I) && st.y == 0
    ensures st.x == 3
    ensures Dropped(st).y == 18 && Dropped(st).score == st.score + 36
    ensures forall j | 0 <= j < Width :: Locked(Dropped(st))[19][j] == if 3 <= j < 7 then Some(Colour(I)) else None
  {
    assert SpawnColumn(I) == 3;
    ILandsOnEmpty(st.board);
    IStampsBottom(st.board);
    var d := Dropped(st);
    assert d.x == 3 && d.y == 18 && d.current == st.current && d.board == st.board;
  }
}
