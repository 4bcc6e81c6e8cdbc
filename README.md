# nya-tetris in Dafny

A model of the core of nya-tetris, a browser Tetris with peer-to-peer
multiplayer rooms:

- **The board engine** (`TetrisGame`, game.js):
  - a 20 × 10 grid whose cells are empty or hold a colour tag;
  - the falling piece: a shape matrix with an anchor column, row and rotation index;
  - a 7-piece bag feeding a lookahead queue of three;
  - spawning and holding;
  - the legality check `isValidPosition`;
  - rotation with the SRS wall-kick tables;
  - moving, soft drop, hard drop and the ghost row;
  - locking, line clearing with score, level and speed updates;
  - garbage rows pushed in from below.
- **The room relay** (`MultiplayerManager`, multiplayer.js):
  - the player directory and the set of open connections;
  - the host's handling of a connection opening and closing;
  - message dispatch;
  - broadcast with sender exclusion;
  - the host-versus-joiner routing of state updates, game-over notices and garbage.
- **The match rules** (main.js):
  - how many garbage rows a line clear sends, and to whom;
  - when the match ends and who wins;
  - the bookkeeping of the `games` map when a game ends, a remote update arrives or a player leaves.

## Layout

- **pieces.dfy**: the seven kinds, their spawn matrices, clockwise and counter-clockwise rotation, and the wall-kick tables.
- **bag.dfy**: the bag and the lookahead queue as functions of a given permutation.
- **board.dfy**: the grid and the legality scan (`IsValidPosition`, proved equal to the cell-wise `Fits`). Also:
  - the ghost row and the garbage raise;
  - the kick search, stamping a piece, line clearing and garbage injection;
  - scoring, level and drop interval.

  The loops of `hardDrop`/`getGhostY`, the garbage raise, the kick search, `lockPiece`'s stamping, `clearLines` and the garbage push are methods proved equal to functions: `DropRow`, `RaisePiece`, `FindKick`, `StampPiece`, `ClearFullRows` and `PushGarbage`. The legality scan is the recursive function `IsValidPosition`, proved equal to `Fits`. The rotation loops of `getRotatedShape` are sequence comprehensions in pieces.dfy, and the `fillNextPieces` loop is a method of `TetrisGame`.
- **engine.dfy**: `class TetrisGame`, whose fields are updated in place. Each method is specified against a pure function of the whole state (`Spawn`, `Lock`, `Dropped`, `Garbaged`, `Turned`, …). Those functions keep the invariant `Consistent`:
  - the board is 20 × 10 and has no full row;
  - the piece matrix is square and 2 to 4 wide;
  - the piece lies between the walls and above the floor;
  - the queue holds at least three kinds;
  - level and speed follow from the line count.
- **rules.dfy**: what those functions promise: spawn, hold, rotation and kicks, landing, locking, clearing, scoring, garbage, and a worked I-piece drop.
- **ordered_map.dfy**: a JavaScript `Map` as an insertion-ordered association list.
- **relay.dfy**: `class MultiplayerManager`. Connections are peer ids, every `conn.send` is a `(destination, message)` pair appended to `outbox`, and every callback is an `Event` appended to `events`.
- **match.dfy**: `class Coordinator`, the module-level state of main.js (`games`, `isMultiplayer`, `gameRunning`, the manager) and the match rules.

## Model

| member | source | states |
|---|---|---|
| Pieces.Matrix | game.js:5-34 | Every spawn matrix is square, 2 to 4 wide, and filled at (1, 1). |
| Pieces.Clockwise | game.js:173-187 | A clockwise turn gives a square matrix of the same size. |
| Pieces.CounterClockwise | game.js:173-187 | A counter-clockwise turn gives a square matrix of the same size. |
| Pieces.CounterClockwiseUndoesClockwise | game.js:173-187 | A clockwise turn followed by a counter-clockwise turn gives back the original matrix. |
| Pieces.ClockwiseUndoesCounterClockwise | game.js:173-187 | A counter-clockwise turn followed by a clockwise turn gives back the original matrix. |
| Pieces.HalfTurn | game.js:173-187 | Two clockwise turns move cell (i, j) to (n-1-i, n-1-j). |
| Pieces.FourTurns | game.js:173-187 | Four clockwise turns are the identity. |
| Pieces.ClockwiseTurns | game.js:173-187 | A clockwise turn of the k-turn matrix is the (k+1) mod 4 turn matrix. |
| Pieces.CounterClockwiseTurns | game.js:173-187 | A counter-clockwise turn of the k-turn matrix is the (k+3) mod 4 turn matrix. |
| Pieces.ClockwiseKeepsCells | game.js:173-187 | A clockwise turn keeps the number of filled cells. |
| Pieces.CounterClockwiseKeepsCells | game.js:173-187 | A counter-clockwise turn keeps the number of filled cells. |
| Pieces.TurnsKeepCells | game.js:173-187 | Any number of quarter turns keeps the number of filled cells. |
| Pieces.RotatedHasCell | game.js:173-187 | A turned matrix still has a filled cell. |
| Pieces.Kicks | game.js:37-58 | The table for a pair of adjacent rotations has five offsets, and (0, 0) comes first. The I piece uses the I table; every other kind, O included, uses the JLSTZ table. |
| Bag.PermutationDistinct | game.js:93-95 | A filled bag is one of each of the seven kinds, with no repeats. |
| Bag.NextKeepsBag | game.js:97-100 | After a pop, with a refill when the bag is empty, the bag is still an unconsumed front part of the permutation it was last filled with. |
| Bag.DrawsFromEnd | game.js:97-100 | Successive pops hand out the bag from its end backwards. |
| Bag.SevenDrawsFromEmptyBag | game.js:93-100 | The seven pops after a refill hand out every kind exactly once. |
| Bag.Fill | game.js:102-106 | Filling leaves the queue at length max(3, old length), extended by the kinds popped from the bag. |
| Board.EmptyBoard | game.js:89-91 | A new board is 20 rows of 10 cells. |
| Board.ValidIffFits | game.js:235-253 | The scan accepts a placement iff every filled cell lands inside columns 0..9 and above row 20, on an empty cell when its row is at least 0. |
| Board.ValidInBounds | game.js:235-253 | A legal placement lies between the walls and above the floor. |
| Board.GhostRow | game.js:225-233 | The landing row is at or below the start row, the row below it is illegal, and every row between a legal start and it is legal. |
| Board.DropRow | game.js:217-220 | The hard-drop and ghost loop stops at `GhostRow`. |
| Board.RaiseRow | game.js:328-330 | The raised row is at or above the start row, and no row passed over is legal. It is legal unless the search stopped at row 0 or above. |
| Board.RaisePiece | game.js:328-330 | The push-up loop stops at `RaiseRow`. |
| Board.FirstFitFrom | game.js:159-170 | The kick found is legal and no earlier offset is; when none is found, no offset is legal. |
| Board.FindKick | game.js:159-170 | The kick loop returns the first legal offset, as `FirstFit`. |
| Board.StampCells | game.js:265-276 | Locking writes the tag at every filled cell whose row is at least 0 and changes no other cell. |
| Board.StampPiece | game.js:265-276 | The writing loop produces `Stamp`. |
| Board.StampFullRows | game.js:262-279 | Stamping a board with no full row makes at most as many full rows as the matrix is tall. |
| Board.UnfullRows | game.js:291-298 | The rows kept by clearing are exactly the board's rows that are not full. |
| Board.ClearedShape | game.js:288-298 | Clearing keeps the board at 20 × 10 and leaves no full row. The kept rows sit at the bottom in order, empty rows are on top, and a board without full rows is unchanged. |
| Board.ClearFullRows | game.js:289-298 | The bottom-up splice/unshift scan produces `Cleared` and counts the full rows. |
| Board.ClearedIdempotent | game.js:288-298 | Clearing twice is clearing once. |
| Board.PushGarbage | game.js:318-323 | The shift/push loop produces `WithGarbage`. |
| Board.GarbageShape | game.js:313-323 | Injecting n rows keeps the board at 20 × 10, moves every row up by n and fills the bottom n rows with garbage rows that share one gap. It creates no full row. |
| Board.LevelFor | game.js:302 | The level is at least 1. |
| Board.LevelBand | game.js:302 | Level L covers the line counts from 10·(L−1) to 10·L − 1. |
| Board.DropIntervalFor | game.js:303 | The interval is 100, or 1000 - (level-1)·80, and lies between 100 and 1000 from level 1 on. |
| Board.DropIntervalMonotone | game.js:302-303 | The interval never grows with the level, and it is 100 from level 13 on. |
| Engine.SpawnColumn | game.js:114 | The spawn column is 3 or 4. |
| Engine.SpawnAt | game.js:112-115 | A kind placed at the spawn point has a well-formed matrix and lies inside the walls. |
| Engine.Spawn | game.js:108-124 | Spawning keeps the invariant `Consistent`. |
| Engine.Swapped | game.js:131-144 | The hold swap gives a well-formed placement inside the walls. |
| Engine.ClearRows | game.js:288-311 | Clearing a settled state with at most 4 full rows yields a consistent state whose board is `Cleared` and whose count is `FullCount`. |
| Engine.Locked | game.js:262-277 | The stamped board is 20 × 10 with at most 4 full rows. |
| Engine.Lock | game.js:262-286 | Locking keeps the invariant and clears at most 4 rows. |
| Engine.Dropped | game.js:213-221 | The hard-drop fall keeps the invariant and leaves the piece unable to fall further. |
| Engine.Garbaged | game.js:313-338 | Garbage injection keeps the invariant. |
| Engine.RotationKick | game.js:155-160 | The committed kick index lies within the kick table. |
| Engine.TurnedConsistent | game.js:159-165 | A rotation committed at a legal offset keeps the invariant. |
| Engine.TetrisGame.constructor | game.js:61-87 | A new game has an empty board and no piece. Its hold slot is empty and hold is allowed; score and lines are 0 at level 1 with a 1000 ms drop interval. The anchor column, row and rotation are 0, the last-drop time is 0 and no lock is pending. Its queue is filled from a fresh bag. |
| Engine.TetrisGame.FillBag | game.js:93-95 | The bag becomes the given permutation. |
| Engine.TetrisGame.GetNextFromBag | game.js:97-100 | It returns and removes the last kind, after a refill when the bag is empty. |
| Engine.TetrisGame.FillNextPieces | game.js:102-106 | Queue and bag become `Fill` of their old values. |
| Engine.TetrisGame.TakeNext | game.js:109-110 | It takes the queue head, then refills. |
| Engine.TetrisGame.SpawnPiece | game.js:108-124 | The new state is `Spawn` of the old one, and the invariant holds. |
| Engine.TetrisGame.Hold | game.js:126-147 | Nothing changes when hold is refused or no piece falls. A held kind is swapped in (`Swapped`); with an empty slot the falling kind is stored and the next piece spawns. |
| Engine.TetrisGame.ResetLockTimer | game.js:255-260 | The lock timer is off. |
| Engine.TetrisGame.Rotate | game.js:149-171 | Nothing happens without a piece. With a kick it returns true and the state is `Turned` at the first legal kick; without one it returns false and nothing changes. |
| Engine.TetrisGame.Place | game.js:161-165 | It sets matrix, anchor and rotation, cancels the lock timer, and leaves everything else unchanged. |
| Engine.TetrisGame.Move | game.js:189-199 | It moves iff the shifted placement is legal: only x changes and the lock timer is cancelled. Otherwise nothing changes. |
| Engine.TetrisGame.SoftDrop | game.js:201-211 | It drops iff the row below is legal: y + 1 and score + 1. Otherwise nothing changes. |
| Engine.TetrisGame.GetGhostY | game.js:225-233 | It returns the row `Dropped` lands on. |
| Engine.TetrisGame.ClearLines | game.js:288-311 | State and count are `ClearRows` of the old state. |
| Engine.TetrisGame.LockPiece | game.js:262-286 | State and count are `Lock` of the old state. |
| Engine.TetrisGame.HardDrop | game.js:213-223 | State and count are `Lock` of `Dropped` of the old state. |
| Engine.TetrisGame.AddGarbage | game.js:313-338 | Nothing changes for n ≤ 0; otherwise the state is `Garbaged`. |
| Engine.TetrisGame.Update | game.js:340-357 | Nothing happens when the game is over, no piece falls or the interval has not passed. Otherwise the piece drops one row with score + 1, or the lock timer starts; lastDrop is updated in both cases. |
| Engine.TetrisGame.FireLockTimer | game.js:347-352 | If the piece can fall, the timer is only cleared; otherwise the state and count are `Lock` of the old state. |
| Rules.SpawnRules | game.js:108-124 | The queue head enters with its spawn matrix at rotation 0, row 0 and column 3 or 4, and hold is allowed. The queue is refilled from the bag to at least 3. The game is over iff the spawn placement does not fit or it already was. |
| Rules.HoldSwapRules | game.js:131-144 | A swap puts the falling kind in the slot and brings the held kind in at the spawn point. Hold is then refused, and the invariant holds. |
| Rules.HoldIntoEmptySlot | game.js:135-138 | Holding into an empty slot stores the kind and spawns the next piece with hold allowed again. |
| Rules.SwapTwice | game.js:131-134 | Two swaps give back the falling and the held kind. |
| Rules.TargetRotationRules | game.js:152 | The new index is in 0..3, one step clockwise or counter-clockwise, and turning back restores it. |
| Rules.KickCount | game.js:155-157 | Every turn has 5 offsets, (0, 0) first. |
| Rules.FirstFitRules | game.js:159-160 | The kick search in terms of `Fits`: the first fitting offset, or none. |
| Rules.RotationRules | game.js:149-170 | The offset `rotate` commits is the first in the kind's table at which the turned matrix fits at (x+dx, y−dy). When none is committed, no offset fits. |
| Rules.SpawnMatchesRotation | game.js:112-113 | A spawned piece's matrix is the spawn matrix turned 0 times. |
| Rules.TurnedMatchesRotation | game.js:152-164 | After a rotation the matrix is still the spawn matrix turned as often as the rotation index says. |
| Rules.DropRules | game.js:213-221 | The piece lands on its ghost row, at or below where it was, with 2 points per row. It cannot fall further there, and every row it passed fits. |
| Rules.DroppedIdempotent | game.js:213-221 | A second hard-drop fall neither moves the piece nor scores. |
| Rules.LockRules | game.js:262-286 | The piece's cells in rows ≥ 0 take its colour and other cells stay. The full rows are cleared, lines, level and score follow from their number, the timer is off, and the queue head falls next. |
| Rules.ClearBoardRules | game.js:288-298 | The cleared count is the number of full rows. The kept rows in order form the bottom, empty rows are on top, and no full row remains. |
| Rules.ClearKeepsRows | game.js:291-298 | A row is kept iff it was on the board and not full. |
| Rules.ClearCountRules | game.js:300-307 | lines += n; level = lines / 10 + 1; interval = max(100, 1000 − (level−1)·80); score += [0,100,300,500,800][n] · new level. |
| Rules.ClearNothing | game.js:288-311 | A board without full rows is left unchanged and scores nothing. |
| Rules.LevelUpScoring | game.js:300-307 | A single that takes the line count from 9 to 10 scores 200 at the new level 2, with interval 920. |
| Rules.TetrisScoring | game.js:306-307 | Four lines from 0 lines score 800. |
| Rules.GarbageRules | game.js:313-338 | Rows move up by n and garbage rows fill the bottom. A fitting piece stays. An overlapping one rises to the lowest fitting row above it, never above row 0, and the game ends iff it still does not fit. |
| Rules.IFitsEmpty | game.js:235-253 | On an empty board the I piece at column 3 fits exactly at rows ≤ 18. |
| Rules.ILandsOnEmpty | game.js:225-233 | Dropped from row 0 of an empty board, the I piece lands on row 18. |
| Rules.IStampsBottom | game.js:265-276 | Locking it there fills columns 3 to 6 of the bottom row only. |
| Rules.IPieceHardDrop | game.js:213-223 | A spawned I piece on an empty board starts at column 3, hard-drops to row 18 for 36 points and fills columns 3 to 6 of the bottom row. |
| OrderedMap.Get | multiplayer.js:212 | `get` finds a value iff the key is present. |
| OrderedMap.GetSet | multiplayer.js:149 | After `set(k, v)`, k reads v and every other key reads as before. |
| OrderedMap.KeysSet | multiplayer.js:149 | `set` keeps the key order and appends a new key at the end. |
| OrderedMap.SetAppends | multiplayer.js:108 | `set` on a new key appends the entry. |
| OrderedMap.SetUnique | multiplayer.js:149 | `set` keeps one entry per key. |
| OrderedMap.Delete | multiplayer.js:129 | `delete` never lengthens the map, and its keys are the old keys without k, in their old order. |
| OrderedMap.GetDelete | multiplayer.js:129 | After `delete(k)`, k is absent and every other key reads as before. |
| OrderedMap.Without | multiplayer.js:128 | The keys after removing k are exactly the old keys other than k. |
| OrderedMap.WithoutDistinct | multiplayer.js:128 | Removing a key keeps the keys distinct. |
| OrderedMap.DeleteUnique | multiplayer.js:129 | `delete` keeps one entry per key. |
| Relay.HostAddress | multiplayer.js:224 | The host's address is "nyatetris-" followed by the room code. |
| Relay.AlphabetIndexInverts | multiplayer.js:19 | Reading a character of the alphabet back gives its index, so the 32 characters are distinct. |
| Relay.AlphabetShape | multiplayer.js:19 | The alphabet has 32 characters and none of I, O, 0, 1. |
| Relay.GenerateRoomCode | multiplayer.js:18-25 | The code has 4 characters, each from the alphabet, and each is the picked index read back. |
| Relay.Fanout | multiplayer.js:203-209 | A broadcast sends only `data`, only to connected peers, and never to the excluded one. |
| Relay.FanoutOnce | multiplayer.js:203-209 | Each connected peer other than the excluded one receives `data` exactly once; no one else receives it. |
| Relay.UnicastOnce | multiplayer.js:211-216 | `send` delivers once to a connected peer and sends nothing otherwise. |
| Relay.GetMerge | multiplayer.js:148-150 | After a `playerList`, a listed id reads its last listed entry and an unlisted id keeps its entry. |
| Relay.MergeKeys | multiplayer.js:148-150 | The merge keeps one entry per id, and ids present before keep their order at the front. |
| Relay.DirectoryRules | multiplayer.js:144-170 | `playerList` merges; `playerJoin` sets the id as a non-host; `playerLeave` deletes the id. Every other type leaves the directory unchanged. |
| Relay.DirectoryUnique | multiplayer.js:144-170 | Every message keeps one directory entry per id. |
| Relay.GarbageSendDropped | multiplayer.js:144-201 | A `garbageSend` changes nothing, raises nothing and is not relayed. |
| Relay.JoinEvents | multiplayer.js:151-155 | One join callback per directory entry. |
| Relay.JoinEventsAt | multiplayer.js:151-155 | The i-th join callback announces the i-th entry with its name. |
| Relay.RelayRule | multiplayer.js:197-200 | Only a host relays, and only `stateUpdate` and `gameOver`. Each connection other than the sender receives the message once, unchanged. |
| Relay.GarbageRouting | multiplayer.js:256-266 | A host sends `garbage` to the target alone; a joiner sends `garbageSend` to the host's address alone. Either message is sent only over an open connection. |
| Relay.OutgoingRouting | multiplayer.js:242-279 | A host's own update reaches every connection once; a joiner's reaches only the host. |
| Relay.DisplayName | multiplayer.js:107 | A missing or empty metadata name becomes "Player", so the name is never empty. |
| Relay.AddKey | multiplayer.js:93 | Opening adds the peer to the connections, keeps the rest, and keeps them distinct. |
| Relay.HostOpenDelivery | multiplayer.js:92-119 | The new peer gets 2 messages, the player list first; every other connection gets the `playerJoin` once. |
| Relay.HostCloseDelivery | multiplayer.js:127-136 | `playerLeave` reaches every remaining connection once and never the peer that left. |
| Relay.MultiplayerManager.constructor | multiplayer.js:3-16 | A manager starts with no connections, no players and not hosting. |
| Relay.MultiplayerManager.HostGame | multiplayer.js:27-40 | It hosts under a generated 4-character code at "nyatetris-" + code, and the host is in the directory as host. |
| Relay.MultiplayerManager.JoinGame | multiplayer.js:59-67 | It joins as a non-host with the room code and the own peer id. |
| Relay.MultiplayerManager.Send | multiplayer.js:211-216 | The outbox grows by `Unicast`. |
| Relay.MultiplayerManager.Broadcast | multiplayer.js:203-209 | The outbox grows by `Fanout` over the connections. |
| Relay.MultiplayerManager.OnOpen | multiplayer.js:92-121 | The peer is connected. On a host: the peer gets the old player list, is added as a non-host under its display name, `playerJoin` is broadcast to all, and a join is raised. A joiner changes nothing else. |
| Relay.MultiplayerManager.OnClose | multiplayer.js:127-141 | The peer leaves both maps. Only a host broadcasts `playerLeave`, and a leave is raised. |
| Relay.MultiplayerManager.HandleMessage | multiplayer.js:144-201 | The directory becomes `Directory`, the callbacks raised are `Raised`, and the relay output is `Relayed`. |
| Relay.MultiplayerManager.SendToHost | multiplayer.js:218-230 | A host handles the message itself; a joiner sends it to the host's address only. |
| Relay.MultiplayerManager.StartGame | multiplayer.js:232-240 | A joiner does nothing; a host broadcasts `gameStart` and raises the start itself. |
| Relay.MultiplayerManager.SendStateUpdate | multiplayer.js:242-254 | The update goes out as `Outgoing` under the own id; directory and callbacks are unchanged. |
| Relay.MultiplayerManager.SendGarbage | multiplayer.js:256-266 | The output is `GarbageOut`; directory and callbacks are unchanged. |
| Relay.MultiplayerManager.SendGameOver | multiplayer.js:268-279 | The notice goes out as `Outgoing` under the own id. |
| Relay.MultiplayerManager.Destroy | multiplayer.js:289-295 | Both maps are empty. |
| Match.GarbageFor | main.js:455-458 | Rows are sent iff multiplayer and at least 2 lines, and then 2 lines send 1 row, 3 lines send 2 and 4 or more send 4. |
| Match.GarbageMonotone | main.js:458 | More lines never send less garbage. |
| Match.TargetsExact | main.js:460-468 | The targets are distinct: exactly the games that exist and are not the source, not over and not local. |
| Match.BurstOnHost | main.js:460-468 | On a host each connected target receives exactly one `garbage`, and no one else receives any. |
| Match.BurstOnJoiner | main.js:460-468 | On a joiner all garbage goes to the host's address, one `garbageSend` per target. |
| Match.AliveExact | main.js:492 | The alive list holds exactly the games not over, once each. |
| Match.OutcomeRules | main.js:491-499 | Single-player: over iff no game is alive, with no winner. Multiplayer: over iff no two games are alive, and a named winner is the one game alive. |
| Match.MarkOverEffect | main.js:471-475 | Marking keeps the ids and kills exactly the named game. Its record only gains `gameOver`, keeping score, lines, level and local flag, and every other record is unchanged. |
| Match.UpdatedEffect | main.js:446-452 | Only an existing remote game takes the snapshot; the ids and every other game are unchanged. |
| Match.Roster | main.js:200-215 | One game per player. |
| Match.RosterAt | main.js:200-215 | Each player gets a fresh game under its id, local iff it is this peer's id. |
| Match.RosterIds | main.js:200-215 | The games have the directory's ids in order. |
| Match.RosterKeys | main.js:200-215 | The games have distinct ids and at most one local game. |
| Match.Coordinator.constructor | main.js:2-8 | No games, single-player, not running, no manager. |
| Match.Coordinator.StartSinglePlayer | main.js:84-101 | There is one local game under "local", the match is single-player, and it runs. |
| Match.Coordinator.StartMultiplayerGame | main.js:192-241 | The games are the roster of the directory, the match is multiplayer and it runs. The local id is this peer's if it is listed. |
| Match.Coordinator.EndGame | main.js:501-502 | The match stops with the given winner. |
| Match.Coordinator.CheckWinCondition | main.js:491-499 | The match stops with `Outcome` when that says it is over; otherwise nothing changes. |
| Match.SendBurst | main.js:460-468 | The loop sends the garbage to each of `Targets` in map order: the outbox grows by `Burst`, and the manager's directory, callbacks, host flag, connections, room code and own id are unchanged. |
| Match.Coordinator.HandleLinesCleared | main.js:454-469 | The relay outbox grows by the garbage burst to `Targets`, or by nothing when no garbage is due. The manager's directory, callbacks, host flag, connections, room code and own id are unchanged. |
| Match.Coordinator.HandleGameOver | main.js:471-489 | The game is marked over. The notice is sent only for the local game of a multiplayer match, and the win check follows. The manager's directory, callbacks, host flag, connections, room code and own id are unchanged. |
| Match.Coordinator.UpdateRemotePlayer | main.js:446-452 | The games become `Updated`. |
| Match.Coordinator.OnPlayerLeave | main.js:116-122 | The game is removed, then the win check runs if the match is running. |

## Left out

- The DOM, screens and rendering of main.js and the keyboard bindings. Rendering is display only, and the keys call engine methods that are modelled.
- The PeerJS transport is modelled away:
  - creating peers, the room-code retry on a taken id, the 10-second join timeout, upper-casing the code at connect time (`JoinGame` takes the code already upper-cased, so that `HostAddress(roomCode)` is the host's peer id), and `conn.on('data')` delivery;
  - `HostGame` and `JoinGame` model only the state their `open` handlers set;
  - a joiner's `handleConnection` (multiplayer.js:73-74) registers its own `open` listener from inside the connection's `open` callback. The model assumes that listener runs, so the host is in the joiner's connections and `SendToHost` reaches it;
  - a connection is its peer id, and `conn.send` is an entry in `outbox`.
- Timers are not modelled as timers:
  - the lock-delay timer is the `lockPending` flag, and its callback is the explicit step `FireLockTimer`;
  - `requestAnimationFrame` is not modelled;
  - the 3-second countdown is collapsed, so `StartMultiplayerGame` spawns no pieces and starts the match at once.
- Randomness is a parameter: the bag permutation (`perm`), the garbage gap column, the room-code indices and the `gameStart` seed. The model claims nothing about distributions.
- `notifyStateChange`, `getState` and `setState` are not modelled. The match sees a remote game as a `Snapshot` of score, lines, level and game-over.
- The match's record of the local game is kept apart from the engine object. In main.js the record and the engine are the same object.
- Callbacks:
  - they are `Event`s recorded whether or not a handler is installed;
  - the wiring of manager callbacks to match handlers in main.js is direct dispatch and is not modelled;
  - `onLinesCleared` and `onGameOver` are not raised by the engine: `LockPiece` returns the cleared count and `gameOver` is a field.
- `getPlayerCount` and `getPlayers` are plain reads and are not modelled.
- The results screen of `endGame`, the `gameLoop` frame callback and `backToMenu` are not modelled. `endGame` is reduced to stopping the match and recording the winner, and a frame of `gameLoop` is one `TetrisGame.Update` step.
- The `spawnPiece` calls of `startSinglePlayer` and `startMultiplayerGame` are not modelled in the match. They act on engine objects, which the match does not hold, and `TetrisGame.SpawnPiece` models them.
- Engine.TetrisGame.Rotate: requires the direction to be 1 or -1, because those are the only values the key handlers pass.
- A `null` room code or local id is the empty string.

Where the code departs from its evident design, the model follows the code:

- Holding into an empty slot spawns the next piece, which allows holding again (`Rules.HoldIntoEmptySlot`).
- A host drops a `garbageSend` from a joiner, so a joiner's garbage reaches no one (`Relay.GarbageSendDropped`).
- The `gameStart` seed is never used by the bag.
- A host broadcasts `playerJoin` to every connection, the new peer included.
