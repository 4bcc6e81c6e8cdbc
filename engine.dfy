/**
 * The single-player engine `TetrisGame` of game.js: a class whose methods
 * update the board, the falling piece, the hold slot, the lookahead queue,
 * the bag and the counters in place.
 *
 * Each method is specified against a pure function of the whole state
 * (`GameState`, read by `State()`); those functions keep the invariant
 * `Consistent`, and the lemmas in rules.dfy state what they promise about
 * landing, scoring and line clears.
 */
module Engine {
  import opened Wrappers
  import opened Pieces
  import opened Bag
  import opened Board

  /** `currentPiece`: the kind (its colour) and the current matrix. */
  datatype Piece = Piece(kind: PieceType, shape: Shape)

  /** Every field of a `TetrisGame` except the ghost bookkeeping of the bag. */
  datatype GameState = GameState(
    board: Grid,
    current: Option<Piece>,
    x: int,
    y: int,
    rotation: int,
    hold: Option<PieceType>,
    canHold: bool,
    next: seq<PieceType>,
    bag: seq<PieceType>,
    score: int,
    lines: nat,
    level: int,
    gameOver: bool,
    lastDrop: int,
    dropInterval: int,
    lockPending: bool)

  /** `lockDelay`, in milliseconds; the pending timer itself is the `lockPending` flag. */
  const LockDelay := 500

  /** `Math.floor((BOARD_WIDTH - shape[0].length) / 2)` for a freshly spawned kind. */
  function SpawnColumn(t: PieceType): (x: int)
    ensures 3 <= x <= 4
  {
    (Width - |Matrix(t)[0]|) / 2
  }

  /** A matrix a falling piece can have: square, 2 to 4 wide, with a filled cell. */
  predicate Formed(s: Shape) {
    IsSquare(s) && 2 <= |s| <= 4 && HasCell(s)
  }

  /** The rotation is one of the four states and the piece's matrix is well formed. */
  predicate Oriented(current: Option<Piece>, rotation: int) {
    0 <= rotation < 4 && (current.Some? ==> Formed(current.value.shape))
  }

  /** Turning keeps a matrix well formed. */
  lemma RotatedFormed(s: Shape, direction: int)
    requires Formed(s)
    ensures Formed(Rotated(s, direction))
  {
    RotatedHasCell(s, direction);
  }

  /** The piece's filled cells lie between the walls and above the floor. */
  predicate Inside(current: Option<Piece>, x: int, y: int) {
    current.Some? ==> InBounds(x, y, current.value.shape)
  }

  /** Level and drop speed follow from the cleared-line count. */
  predicate Paced(lines: nat, level: int, dropInterval: int) {
    level == LevelFor(lines) && dropInterval == DropIntervalFor(level)
  }

  /** The invariant of a game, except that the board may hold full rows (between locking and clearing). */
  predicate Settled(st: GameState) {
    && IsBoard(st.board)
    && Oriented(st.current, st.rotation)
    && Inside(st.current, st.x, st.y)
    && (st.lockPending ==> st.current.Some?)
    && |st.next| >= QueueLength
    && Paced(st.lines, st.level, st.dropInterval)
  }

  /** The invariant kept by every public operation. */
  predicate Consistent(st: GameState) {
    Settled(st) && NoFullRow(st.board)
  }

  /** The matrix of a falling piece is square, 2 to 4 wide and not empty. */
  lemma PieceShape(current: Option<Piece>, rotation: int)
    requires Oriented(current, rotation) && current.Some?
    ensures IsSquare(current.value.shape) && 2 <= |current.value.shape| <= 4
    ensures HasCell(current.value.shape)
  {
  }

  /** A kind placed at the spawn point: rotation 0, row 0, centred. */
  function SpawnAt(st: GameState, t: PieceType): (r: GameState)
    ensures Oriented(r.current, r.rotation) && Inside(r.current, r.x, r.y)
  {
    assert Matrix(t)[1][1] != 0;
    st.(current := Some(Piece(t, Matrix(t))), rotation := 0, x := SpawnColumn(t), y := 0)
  }

  /**
   * `spawnPiece`: the head of the queue becomes the falling piece at the
   * spawn point, the queue is refilled, holding is allowed again, and the
   * game ends if the spawn placement is illegal.
   */
  function Spawn(st: GameState, perm: seq<PieceType>): (r: GameState)
    requires Consistent(st) && IsPermutation(perm)
    ensures Consistent(r)
  {
    var t := st.next[0];
    var (q, b) := Fill(st.next[1..], st.bag, perm);
    SpawnAt(st, t).(next := q, bag := b, canHold := true,
                    gameOver := st.gameOver || !IsValidPosition(st.board, SpawnColumn(t), 0, Matrix(t)))
  }

  /** `Spawn` written out field by field, given the drawn kind and the refilled queue and bag. */
  lemma SpawnFields(st: GameState, perm: seq<PieceType>, t: PieceType, q: seq<PieceType>, b: seq<PieceType>)
    requires Consistent(st) && IsPermutation(perm)
    requires t == st.next[0] && (q, b) == Fill(st.next[1..], st.bag, perm)
    ensures Spawn(st, perm) == GameState(st.board, Some(Piece(t, Matrix(t))), SpawnColumn(t), 0, 0, st.hold, true, q, b,
      st.score, st.lines, st.level, st.gameOver || !IsValidPosition(st.board, SpawnColumn(t), 0, Matrix(t)),
      st.lastDrop, st.dropInterval, st.lockPending)
  {
  }

  /** `clearLines`: the new state and the number of rows removed. */
  function ClearRows(st: GameState): (r: (GameState, nat))
    requires Settled(st) && FullCount(st.board) <= 4
    ensures Consistent(r.0)
    ensures r.0.board == Cleared(st.board) && r.1 == FullCount(st.board)
  {
    var n := FullCount(st.board);
    ClearedShape(st.board);
    if n == 0 then (st.(board := Cleared(st.board)), 0)
    else
      var lines := st.lines + n;
      var level := LevelFor(lines);
      (st.(board := Cleared(st.board), lines := lines, level := level,
           dropInterval := DropIntervalFor(level), score := st.score + LineScore(n) * level), n)
  }

  /** The board after the falling piece is written into it. */
  function Locked(st: GameState): (b: Grid)
    requires Consistent(st) && st.current.Some?
    ensures IsBoard(b) && FullCount(b) <= 4
  {
    var p := st.current.value;
    PieceShape(st.current, st.rotation);
    StampFullRows(st.board, st.x, st.y, p.shape, Colour(p.kind));
    Stamp(st.board, st.x, st.y, p.shape, Colour(p.kind))
  }

  /**
   * `lockPiece`: write the piece into the board, cancel the lock timer,
   * clear rows, spawn the next piece; also the number of rows cleared.
   */
  function Lock(st: GameState, perm: seq<PieceType>): (r: (GameState, nat))
    requires Consistent(st) && IsPermutation(perm)
    ensures Consistent(r.0) && r.1 <= 4
  {
    if st.current.None? then (st, 0)
    else
      var (c, n) := ClearRows(st.(board := Locked(st), lockPending := false));
      (Spawn(c, perm), n)
  }

  /**
   * The first half of `hardDrop`: the piece moved down to the row where it
   * lands, 2 points per row travelled.
   */
  function Dropped(st: GameState): (r: GameState)
    requires Consistent(st)
    ensures Consistent(r)
    ensures r.current.Some? ==> !IsValidPosition(r.board, r.x, r.y + 1, r.current.value.shape)
  {
    if st.current.None? then st
    else
      var s := st.current.value.shape;
      var g := GhostRow(st.board, st.x, st.y, s);
      GhostRowInBounds(st.board, st.x, st.y, s);
      st.(y := g, score := st.score + 2 * (g - st.y))
  }

  /** The state after `addGarbage(n)` with gap column `gap`, for n > 0. */
  function Garbaged(st: GameState, n: nat, gap: int): (r: GameState)
    requires Consistent(st) && 0 <= gap < Width
    ensures Consistent(r)
  {
    var b := WithGarbage(st.board, n, gap);
    GarbageShape(st.board, n, gap);
    if st.current.None? then st.(board := b)
    else
      var s := st.current.value.shape;
      var r := RaiseRow(b, st.x, st.y, s);
      st.(board := b, y := r, gameOver := st.gameOver || !IsValidPosition(b, st.x, r, s))
  }

  /**
   * The swap branch of `hold`: the held kind comes in at the spawn point
   * (without a legality check) and the falling kind goes to the slot.
   */
  function Swapped(st: GameState): (r: GameState)
    requires st.current.Some? && st.hold.Some?
    ensures Oriented(r.current, r.rotation) && Inside(r.current, r.x, r.y)
  {
    SpawnAt(st, st.hold.value).(hold := Some(st.current.value.kind), canHold := false)
  }

  /** The target rotation of `rotate(direction)`. */
  function TargetRotation(rotation: int, direction: int): int {
    (rotation + direction + 4) % 4
  }

  /** The kick offset index `rotate` commits, if any. */
  function RotationKick(st: GameState, direction: int): (k: Option<nat>)
    requires IsBoard(st.board) && Oriented(st.current, st.rotation) && st.current.Some?
    ensures k.Some? ==> k.value < |Kicks(st.current.value.kind, st.rotation, TargetRotation(st.rotation, direction))|
  {
    PieceShape(st.current, st.rotation);
    var p := st.current.value;
    var to := TargetRotation(st.rotation, direction);
    FirstFit(st.board, st.x, st.y, Rotated(p.shape, direction), Kicks(p.kind, st.rotation, to))
  }

  /** The state after a successful `rotate(direction)` with kick offset `kick`. */
  function Turned(st: GameState, direction: int, kick: (int, int)): GameState
    requires Oriented(st.current, st.rotation) && st.current.Some?
  {
    PieceShape(st.current, st.rotation);
    var p := st.current.value;
    st.(current := Some(Piece(p.kind, Rotated(p.shape, direction))),
        x := st.x + kick.0, y := st.y - kick.1,
        rotation := TargetRotation(st.rotation, direction), lockPending := false)
  }

  /** A legal rotation keeps the invariant. */
  lemma TurnedConsistent(st: GameState, direction: int, kick: (int, int))
    requires Consistent(st) && st.current.Some?
    requires IsValidPosition(st.board, st.x + kick.0, st.y - kick.1, Rotated(st.current.value.shape, direction))
    ensures Consistent(Turned(st, direction, kick))
  {
    RotatedFormed(st.current.value.shape, direction);
    ValidInBounds(st.board, st.x + kick.0, st.y - kick.1, Rotated(st.current.value.shape, direction));
  }

  class TetrisGame {
    var board: Grid
    var current: Option<Piece>
    var currentX: int
    var currentY: int
    var currentRotation: int
    var holdPiece: Option<PieceType>
    var canHold: bool
    var nextPieces: seq<PieceType>
    var bag: seq<PieceType>
    /** The permutation the bag was last filled with. */
    ghost var bagSource: seq<PieceType>
    var score: int
    var lines: nat
    var level: int
    var gameOver: bool
    var lastDrop: int
    var dropInterval: int
    /** `lockTimer !== null`. */
    var lockPending: bool

    ghost function State(): GameState
      reads this
    {
      GameState(board, current, currentX, currentY, currentRotation, holdPiece, canHold,
                nextPieces, bag, score, lines, level, gameOver, lastDrop, dropInterval, lockPending)
    }

    ghost predicate Valid()
      reads this
    {
      Consistent(State()) && BagFrom(bag, bagSource)
    }

    /** `new TetrisGame(...)`: empty board, no piece, bag filled with `perm`, queue filled from it. */
    constructor (perm: seq<PieceType>)
      requires IsPermutation(perm)
      ensures Valid()
      ensures board == EmptyBoard() && current.None? && holdPiece.None? && canHold
      ensures score == 0 && lines == 0 && level == 1 && !gameOver && !lockPending
      ensures currentX == 0 && currentY == 0 && currentRotation == 0
      ensures lastDrop == 0 && dropInterval == 1000
      ensures (nextPieces, bag) == Fill([], perm, perm)
    {
      board := EmptyBoard();
      current := None;
      currentX, currentY, currentRotation := 0, 0, 0;
      holdPiece := None;
      canHold := true;
      nextPieces := [];
      bag := perm;
      bagSource := perm;
      score, lines, level := 0, 0, 1;
      gameOver := false;
      lastDrop := 0;
      dropInterval := 1000;
      lockPending := false;
      new;
      assert perm[..|perm|] == perm;
      FillNextPieces(perm);
      assert NoFullRow(board) by {
        forall r | 0 <= r < Height
          ensures !IsFull(board[r])
        {
          assert board[r][0] == None;
        }
      }
    }

    /** `fillBag`. */
    method FillBag(perm: seq<PieceType>)
      requires IsPermutation(perm)
      modifies this`bag, this`bagSource
      ensures bag == perm && BagFrom(bag, bagSource)
    {
      bag := perm;
      bagSource := perm;
      assert perm[..|perm|] == perm;
    }

    /** `getNextFromBag`. */
    method GetNextFromBag(perm: seq<PieceType>) returns (t: PieceType)
      requires BagFrom(bag, bagSource) && IsPermutation(perm)
      modifies this`bag, this`bagSource
      ensures (t, bag) == Next(old(bag), perm)
      ensures BagFrom(bag, bagSource)
    {
      NextKeepsBag(bag, bagSource, perm);
      if |bag| == 0 {
        FillBag(perm);
      }
      t := bag[|bag| - 1];
      bag := bag[..|bag| - 1];
    }

    /** `fillNextPieces`: draw from the bag until the queue holds three kinds. */
    method FillNextPieces(perm: seq<PieceType>)
      requires BagFrom(bag, bagSource) && IsPermutation(perm)
      modifies this`nextPieces, this`bag, this`bagSource
      ensures (nextPieces, bag) == Fill(old(nextPieces), old(bag), perm)
      ensures BagFrom(bag, bagSource)
    {
      while |nextPieces| < QueueLength
        invariant BagFrom(bag, bagSource)
        invariant Fill(nextPieces, bag, perm) == Fill(old(nextPieces), old(bag), perm)
        decreases QueueLength - |nextPieces|
      {
        var t := GetNextFromBag(perm);
        nextPieces := nextPieces + [t];
      }
    }

    /** The queue step of `spawnPiece`: shift the head off the queue, then refill it from the bag. */
    method TakeNext(perm: seq<PieceType>) returns (t: PieceType)
      requires BagFrom(bag, bagSource) && IsPermutation(perm) && |nextPieces| > 0
      modifies this`nextPieces, this`bag, this`bagSource
      ensures t == old(nextPieces)[0]
      ensures (nextPieces, bag) == Fill(old(nextPieces)[1..], old(bag), perm)
      ensures BagFrom(bag, bagSource)
    {
      t := nextPieces[0];
      nextPieces := nextPieces[1..];
      FillNextPieces(perm);
    }

    /** `spawnPiece`. */
    method SpawnPiece(perm: seq<PieceType>)
      requires Valid() && IsPermutation(perm)
      modifies this
      ensures Valid()
      ensures State() == Spawn(old(State()), perm)
    {
      ghost var st := State();
      var t := TakeNext(perm);
      current := Some(Piece(t, Matrix(t)));
      currentRotation := 0;
      currentX := SpawnColumn(t);
      currentY := 0;
      canHold := true;
      if !IsValidPosition(board, currentX, currentY, Matrix(t)) {
        gameOver := true;
      }
      assert board == st.board && holdPiece == st.hold && lockPending == st.lockPending;
      assert score == st.score && lines == st.lines && level == st.level;
      assert lastDrop == st.lastDrop && dropInterval == st.dropInterval;
      SpawnFields(st, perm, t, nextPieces, bag);
      assert State() == Spawn(st, perm);
    }

    /**
     * `hold`: with hold allowed and a piece falling, store its kind; with a
     * kind already held, bring that kind in at the spawn point (without a
     * legality check) and forbid holding; with the slot empty, spawn the next
     * piece instead, which allows holding again.
     */
    method Hold(perm: seq<PieceType>)
      requires Valid() && IsPermutation(perm)
      modifies this
      ensures Valid()
      ensures var st := old(State());
        if !st.canHold || st.current.None? then State() == st
        else if st.hold.Some? then State() == Swapped(st)
        else State() == Spawn(st.(hold := Some(st.current.value.kind)), perm)
    {
      if !canHold || current.None? {
        return;
      }
      var currentType := current.value.kind;
      if holdPiece.Some? {
        var temp := holdPiece.value;
        holdPiece := Some(currentType);
        current := Some(Piece(temp, Matrix(temp)));
      } else {
        holdPiece := Some(currentType);
        SpawnPiece(perm);
        return;
      }
      currentRotation := 0;
      currentX := SpawnColumn(current.value.kind);
      currentY := 0;
      canHold := false;
    }

    /** `resetLockTimer`. */
    method ResetLockTimer()
      modifies this`lockPending
      ensures !lockPending
    {
      lockPending := false;
    }

    /**
     * `rotate(direction)`: the kick offsets of the table for this kind and
     * rotation pair are tried in order and the first legal one is committed;
     * if none is legal nothing changes.
     */
    method Rotate(direction: int) returns (rotated: bool)
      requires Valid() && (direction == 1 || direction == -1)
      modifies this
      ensures Valid()
      ensures old(current).None? ==> !rotated && State() == old(State())
      ensures old(current).Some? ==>
        var st := old(State());
        var ks := Kicks(st.current.value.kind, st.rotation, TargetRotation(st.rotation, direction));
        match RotationKick(old(State()), direction)
        case None => !rotated && State() == st
        case Some(k) => rotated && State() == Turned(st, direction, ks[k])
    {
      if current.None? {
        return false;
      }
      var p := current.value;
      var newRotation := TargetRotation(currentRotation, direction);
      var s := Rotated(p.shape, direction);
      var kicks := Kicks(p.kind, currentRotation, newRotation);
      var k := FindKick(board, currentX, currentY, s, kicks);
      if k.None? {
        return false;
      }
      assert k == RotationKick(old(State()), direction);
      var kick := kicks[k.value];
      TurnedConsistent(old(State()), direction, kick);
      Place(Some(Piece(p.kind, s)), currentX + kick.0, currentY - kick.1, newRotation);
      assert State() == Turned(old(State()), direction, kick);
      return true;
    }

    /** The placement update shared by `rotate`: new matrix, anchor and rotation, lock timer cancelled. */
    method Place(piece: Option<Piece>, x: int, y: int, rotation: int)
      modifies this`current, this`currentX, this`currentY, this`currentRotation, this`lockPending
      ensures State() == old(State()).(current := piece, x := x, y := y, rotation := rotation, lockPending := false)
    {
      current, currentX, currentY, currentRotation, lockPending := piece, x, y, rotation, false;
    }

    /** `move(dx)`: shift sideways if the new placement is legal. */
    method Move(dx: int) returns (moved: bool)
      requires Valid()
      modifies this
      ensures Valid()
      ensures moved <==> old(current).Some? && IsValidPosition(old(board), old(currentX) + dx, old(currentY), old(current).value.shape)
      ensures moved ==> State() == old(State()).(x := old(currentX) + dx, lockPending := false)
      ensures !moved ==> State() == old(State())
    {
      if current.None? {
        return false;
      }
      if IsValidPosition(board, currentX + dx, currentY, current.value.shape) {
        ValidInBounds(board, currentX + dx, currentY, current.value.shape);
        currentX := currentX + dx;
        ResetLockTimer();
        return true;
      }
      return false;
    }

    /** `softDrop`: move down one row if legal, scoring one point; the lock timer is left alone. */
    method SoftDrop() returns (dropped: bool)
      requires Valid()
      modifies this
      ensures Valid()
      ensures dropped <==> old(current).Some? && IsValidPosition(old(board), old(currentX), old(currentY) + 1, old(current).value.shape)
      ensures dropped ==> State() == old(State()).(y := old(currentY) + 1, score := old(score) + 1)
      ensures !dropped ==> State() == old(State())
    {
      if current.None? {
        return false;
      }
      if IsValidPosition(board, currentX, currentY + 1, current.value.shape) {
        ValidInBounds(board, currentX, currentY + 1, current.value.shape);
        currentY := currentY + 1;
        score := score + 1;
        return true;
      }
      return false;
    }

    /** `getGhostY`: the row where the piece would land, as `hardDrop` moves it. */
    method GetGhostY() returns (g: int)
      requires Valid()
      ensures g == Dropped(State()).y
    {
      if current.None? {
        return currentY;
      }
      g := DropRow(board, currentX, currentY, current.value.shape);
    }

    /**
     * `clearLines`: the scan removes every full row, then the line count,
     * level, drop interval and score are updated if any row went.
     */
    method ClearLines() returns (n: nat)
      requires Settled(State()) && FullCount(board) <= 4
      modifies this`board, this`lines, this`level, this`dropInterval, this`score
      ensures (State(), n) == ClearRows(old(State()))
    {
      ghost var st := State();
      var b;
      b, n := ClearFullRows(board);
      board := b;
      if n > 0 {
        lines := lines + n;
        level := LevelFor(lines);
        dropInterval := DropIntervalFor(level);
        score := score + LineScore(n) * level;
        assert State() == st.(board := b, lines := lines, level := level, dropInterval := dropInterval, score := score);
        assert State() == ClearRows(st).0;
      } else {
        assert State() == ClearRows(st).0;
      }
    }

    /**
     * `lockPiece`: write the piece colour into the board, cancel the lock
     * timer, clear rows and spawn the next piece; returns the number of rows
     * cleared, which `onLinesCleared` reports.
     */
    method LockPiece(perm: seq<PieceType>) returns (cleared: nat)
      requires Valid() && IsPermutation(perm)
      modifies this
      ensures Valid()
      ensures (State(), cleared) == Lock(old(State()), perm)
    {
      if current.None? {
        return 0;
      }
      ghost var st := State();
      var p := current.value;
      board := StampPiece(board, currentX, currentY, p.shape, Colour(p.kind));
      lockPending := false;
      ghost var stamped := st.(board := Locked(st), lockPending := false);
      assert State() == stamped;
      cleared := ClearLines();
      assert (State(), cleared) == ClearRows(stamped);
      SpawnPiece(perm);
    }

    /** `hardDrop`: fall to the landing row, 2 points per row, then lock. */
    method HardDrop(perm: seq<PieceType>) returns (cleared: nat)
      requires Valid() && IsPermutation(perm)
      modifies this
      ensures Valid()
      ensures (State(), cleared) == Lock(Dropped(old(State())), perm)
    {
      if current.None? {
        return 0;
      }
      ghost var st := State();
      var y := DropRow(board, currentX, currentY, current.value.shape);
      score := score + (y - currentY) * 2;
      currentY := y;
      assert State() == Dropped(st);
      cleared := LockPiece(perm);
    }

    /**
     * `addGarbage(lines)` with gap column `gap`: nothing for n <= 0; otherwise
     * the garbage rows go in at the bottom and an overlapping piece is raised.
     */
    method AddGarbage(n: int, gap: int)
      requires Valid() && 0 <= gap < Width
      modifies this`board, this`currentY, this`gameOver
      ensures Valid()
      ensures n <= 0 ==> State() == old(State())
      ensures n > 0 ==> State() == Garbaged(old(State()), n, gap)
    {
      if n <= 0 {
        return;
      }
      ghost var st := State();
      board := PushGarbage(board, n, gap);
      if current.Some? && !IsValidPosition(board, currentX, currentY, current.value.shape) {
        currentY := RaisePiece(board, currentX, currentY, current.value.shape);
        if !IsValidPosition(board, currentX, currentY, current.value.shape) {
          gameOver := true;
        }
      }
      assert State() == Garbaged(st, n, gap);
    }

    /**
     * `update(timestamp)` without its timer callback: once the drop interval
     * has passed, drop one row, or start the lock timer if the piece rests.
     */
    method Update(timestamp: int)
      requires Valid()
      modifies this
      ensures Valid()
      ensures var st := old(State());
        if st.gameOver || st.current.None? || timestamp - st.lastDrop <= st.dropInterval then State() == st
        else if IsValidPosition(st.board, st.x, st.y + 1, st.current.value.shape) then
          State() == st.(y := st.y + 1, score := st.score + 1, lastDrop := timestamp)
        else State() == st.(lockPending := true, lastDrop := timestamp)
    {
      if gameOver || current.None? {
        return;
      }
      if timestamp - lastDrop > dropInterval {
        var dropped := SoftDrop();
        if !dropped && !lockPending {
          lockPending := true;
        }
        lastDrop := timestamp;
      }
    }

    /** The lock-delay timer callback: lock only if the piece still cannot move down. */
    method FireLockTimer(perm: seq<PieceType>) returns (cleared: nat)
      requires Valid() && lockPending && IsPermutation(perm)
      modifies this
      ensures Valid()
      ensures var st := old(State());
        if IsValidPosition(st.board, st.x, st.y + 1, st.current.value.shape) then
          cleared == 0 && State() == st.(lockPending := false)
        else (State(), cleared) == Lock(st, perm)
    {
      ghost var st := State();
      cleared := 0;
      if !IsValidPosition(board, currentX, currentY + 1, current.value.shape) {
        cleared := LockPiece(perm);
        assert (State(), cleared) == Lock(st, perm);
        assert !lockPending;
      } else {
        lockPending := false;
      }
    }
  }
}
