/**
 * The match rules of main.js: the `games` map from player id to game, how
 * many garbage rows a clear sends and to whom, and when the match ends and
 * who wins. Each game is represented by the part of its state the rules
 * read: whether it is the local one and its last snapshot.
 */
module Match {
  import opened Wrappers
  import opened OrderedMap
  import opened Relay

  /** A game as the match sees it. */
  datatype GameRecord = GameRecord(isLocal: bool, state: Snapshot)

  type Games = Entries<PeerId, GameRecord>

  /** A new game: no score, no lines, level 1, not over. */
  const FreshSnapshot := Snapshot(0, 0, 1, false)

  /** The id of the only game of a single-player match. */
  const SoloId: PeerId := "local"

  // ---------------------------------------------------------------------
  // Garbage
  // ---------------------------------------------------------------------

  /**
   * Garbage rows a clear of `lines` rows sends: nothing outside multiplayer
   * or below 2 lines, then 2 -> 1, 3 -> 2, 4 or more -> 4.
   */
  function GarbageFor(isMultiplayer: bool, lines: int): (rows: int)
    ensures 0 <= rows <= 4
    ensures rows > 0 <==> isMultiplayer && lines >= 2
    ensures 0 < lines < 4 ==> rows < lines
    ensures isMultiplayer && lines == 2 ==> rows == 1
    ensures isMultiplayer && lines == 3 ==> rows == 2
    ensures isMultiplayer && lines >= 4 ==> rows == 4
  {
    if !isMultiplayer || lines < 2 then 0
    else if lines == 2 then 1
    else if lines == 3 then 2
    else 4
  }

  /** Clearing more lines never sends less garbage. */
  lemma GarbageMonotone(isMultiplayer: bool, lines: int, more: int)
    requires lines <= more
    ensures GarbageFor(isMultiplayer, lines) <= GarbageFor(isMultiplayer, more)
  {
  }

  /** Whether a game receives the garbage of a clear by `source`. */
  predicate Targeted(id: PeerId, rec: GameRecord, source: PeerId) {
    id != source && !rec.state.gameOver && !rec.isLocal
  }

  /** The ids, in map order, the garbage loop sends to. */
  function Targets(games: Games, source: PeerId): (ts: seq<PeerId>) {
    if |games| == 0 then []
    else
      var last := games[|games| - 1];
      Targets(games[..|games| - 1], source) + (if Targeted(last.0, last.1, source) then [last.0] else [])
  }

  /** The targets are distinct games of the map, each targeted, and no targeted game is missed. */
  lemma {:induction false} TargetsExact(games: Games, source: PeerId)
    requires UniqueKeys(games)
    ensures Distinct(Targets(games, source))
    ensures forall q :: q in Targets(games, source) <==>
      Get(games, q).Some? && Targeted(q, Get(games, q).value, source)
  {
    if |games| > 0 {
      var init := games[..|games| - 1];
      var last := games[|games| - 1];
      assert games == init + [last];
      PrefixKeys(games, |games| - 1);
      TargetsExact(init, source);
      assert last.0 !in Keys(init) by {
        assert Keys(games)[|games| - 1] == last.0;
      }
      forall q
        ensures Get(games, q) == if q == last.0 then Some(last.1) else Get(init, q)
      {
        GetSnoc(init, last, q);
      }
      if Targeted(last.0, last.1, source) {
        DistinctSnoc(Targets(init, source), last.0);
      }
    }
  }

  /** One step of the garbage loop: the next game is a target or not. */
  lemma TargetsStep(games: Games, i: int, source: PeerId)
    requires 0 <= i < |games|
    ensures Targets(games[..i + 1], source) ==
      Targets(games[..i], source) + (if Targeted(games[i].0, games[i].1, source) then [games[i].0] else [])
  {
    assert games[..i + 1][..i] == games[..i];
  }

  /** Looking up in a map that ends with `last`. */
  lemma {:induction false} GetSnoc(init: Games, last: (PeerId, GameRecord), q: PeerId)
    requires last.0 !in Keys(init)
    ensures Get(init + [last], q) == if q == last.0 then Some(last.1) else Get(init, q)
  {
    if |init| > 0 {
      assert (init + [last])[1..] == init[1..] + [last];
      GetSnoc(init[1..], last, q);
    }
  }

  /** Everything the garbage loop hands to the relay, target by target. */
  function Burst(isHost: bool, conns: seq<PeerId>, roomCode: string, targets: seq<PeerId>, rows: int): Outbox {
    if |targets| == 0 then []
    else
      Burst(isHost, conns, roomCode, targets[..|targets| - 1], rows)
        + GarbageOut(isHost, conns, roomCode, targets[|targets| - 1], rows)
  }

  /** The garbage of one more target follows the garbage of the earlier ones. */
  lemma BurstSnoc(isHost: bool, conns: seq<PeerId>, roomCode: string, targets: seq<PeerId>, id: PeerId, rows: int)
    ensures Burst(isHost, conns, roomCode, targets + [id], rows)
      == Burst(isHost, conns, roomCode, targets, rows) + GarbageOut(isHost, conns, roomCode, id, rows)
  {
    assert (targets + [id])[..|targets|] == targets;
  }

  /** On a host, each connected target receives exactly one `garbage` message and no one else does. */
  lemma {:induction false} BurstOnHost(conns: seq<PeerId>, roomCode: string, targets: seq<PeerId>, rows: int, q: PeerId)
    requires Distinct(targets)
    ensures Count(Burst(true, conns, roomCode, targets, rows), q) == if q in targets && q in conns then 1 else 0
  {
    if |targets| > 0 {
      var init := targets[..|targets| - 1];
      var last := targets[|targets| - 1];
      assert targets == init + [last];
      BurstOnHost(conns, roomCode, init, rows, q);
      CountAppend(Burst(true, conns, roomCode, init, rows), GarbageOut(true, conns, roomCode, last, rows), q);
      GarbageRouting(true, conns, roomCode, last, rows, q);
      if q == last {
        assert q !in init;
      }
    }
  }

  /** On a joiner, every message goes to the host's address: one `garbageSend` per target. */
  lemma {:induction false} BurstOnJoiner(conns: seq<PeerId>, roomCode: string, targets: seq<PeerId>, rows: int, q: PeerId)
    ensures Count(Burst(false, conns, roomCode, targets, rows), q) ==
      if q == HostAddress(roomCode) && q in conns then |targets| else 0
  {
    if |targets| > 0 {
      var init := targets[..|targets| - 1];
      var last := targets[|targets| - 1];
      BurstOnJoiner(conns, roomCode, init, rows, q);
      CountAppend(Burst(false, conns, roomCode, init, rows), GarbageOut(false, conns, roomCode, last, rows), q);
      GarbageRouting(false, conns, roomCode, last, rows, q);
    }
  }

  // ---------------------------------------------------------------------
  // Winning
  // ---------------------------------------------------------------------

  /** The ids of the games still alive, in map order. */
  function Alive(games: Games): seq<PeerId> {
    if |games| == 0 then []
    else
      var last := games[|games| - 1];
      Alive(games[..|games| - 1]) + (if !last.1.state.gameOver then [last.0] else [])
  }

  /** Whether the game with id `q` exists and is not over. */
  predicate IsAlive(games: Games, q: PeerId) {
    Get(games, q).Some? && !Get(games, q).value.state.gameOver
  }

  /** `Alive` lists exactly the alive games, once each. */
  lemma {:induction false} AliveExact(games: Games)
    requires UniqueKeys(games)
    ensures Distinct(Alive(games))
    ensures forall q :: q in Alive(games) <==> IsAlive(games, q)
  {
    if |games| > 0 {
      var init := games[..|games| - 1];
      var last := games[|games| - 1];
      assert games == init + [last];
      PrefixKeys(games, |games| - 1);
      AliveExact(init);
      assert last.0 !in Keys(init) by {
        assert Keys(games)[|games| - 1] == last.0;
      }
      forall q
        ensures Get(games, q) == if q == last.0 then Some(last.1) else Get(init, q)
      {
        GetSnoc(init, last, q);
      }
      if !last.1.state.gameOver {
        DistinctSnoc(Alive(init), last.0);
      }
    }
  }

  /**
   * `checkWinCondition`: `Some(winner)` when the match ends, `None` while it
   * goes on. A single-player match ends with no winner once nothing is alive;
   * a multiplayer match ends once at most one game is alive, won by the
   * first alive game in map order if there is one.
   */
  function Outcome(games: Games, isMultiplayer: bool): Option<Option<PeerId>> {
    var alive := Alive(games);
    if !isMultiplayer && |alive| == 0 then Some(None)
    else if isMultiplayer && |alive| <= 1 then Some(if |alive| == 0 then None else Some(alive[0]))
    else None
  }

  /**
   * A single-player match is over iff every game is over, and then nobody
   * wins. A multiplayer match is over iff no two games are both alive, and a
   * winner, if named, is the one game still alive.
   */
  lemma OutcomeRules(games: Games, isMultiplayer: bool)
    requires UniqueKeys(games)
    ensures !isMultiplayer ==>
      (Outcome(games, false).Some? <==> forall q | q in Keys(games) :: !IsAlive(games, q))
    ensures !isMultiplayer && Outcome(games, false).Some? ==> Outcome(games, false).value.None?
    ensures isMultiplayer ==>
      (Outcome(games, true).Some? <==> forall p, q | IsAlive(games, p) && IsAlive(games, q) :: p == q)
    ensures isMultiplayer && Outcome(games, true) == Some(None) ==> forall q :: !IsAlive(games, q)
    ensures forall w | Outcome(games, isMultiplayer) == Some(Some(w)) ::
      IsAlive(games, w) && forall q | IsAlive(games, q) :: q == w
  {
    AliveExact(games);
    var alive := Alive(games);
    if isMultiplayer && |alive| > 1 {
      assert IsAlive(games, alive[0]) && IsAlive(games, alive[1]);
    }
    if |alive| > 0 {
      assert alive[0] in alive;
    }
    if |alive| == 1 {
      forall q | IsAlive(games, q)
        ensures q == alive[0]
      {
        assert q in alive;
      }
    }
    if |alive| > 0 {
      assert Get(games, alive[0]).Some?;
    }
  }

  // ---------------------------------------------------------------------
  // Game-map updates
  // ---------------------------------------------------------------------

  /** `handleGameOver`'s map update: the game with id `id`, if any, is marked over. */
  function MarkOver(games: Games, id: PeerId): Games {
    match Get(games, id)
    case None => games
    case Some(rec) => Set(games, id, rec.(state := rec.state.(gameOver := true)))
  }

  /** Marking a game over keeps the ids and kills exactly that game. */
  lemma MarkOverEffect(games: Games, id: PeerId, q: PeerId)
    requires UniqueKeys(games)
    ensures UniqueKeys(MarkOver(games, id)) && Keys(MarkOver(games, id)) == Keys(games)
    ensures IsAlive(MarkOver(games, id), q) <==> IsAlive(games, q) && q != id
    ensures Get(MarkOver(games, id), q).Some? ==> Get(MarkOver(games, id), q).value.isLocal == Get(games, q).value.isLocal
    ensures q != id ==> Get(MarkOver(games, id), q) == Get(games, q)
    ensures Get(games, id).Some? ==>
      Get(MarkOver(games, id), id) == Some(Get(games, id).value.(state := Get(games, id).value.state.(gameOver := true)))
  {
    if Get(games, id).Some? {
      var rec := Get(games, id).value;
      var rec' := rec.(state := rec.state.(gameOver := true));
      SetUnique(games, id, rec');
      KeysSet(games, id, rec');
      GetSet(games, id, rec', q);
      GetSet(games, id, rec', id);
    }
  }

  /** `updateRemotePlayer`'s map update: only an existing remote game takes the new snapshot. */
  function Updated(games: Games, id: PeerId, state: Snapshot): Games {
    match Get(games, id)
    case Some(rec) => if rec.isLocal then games else Set(games, id, GameRecord(false, state))
    case None => games
  }

  /** An update keeps the ids, never touches a local game, and sets exactly the named remote game. */
  lemma UpdatedEffect(games: Games, id: PeerId, state: Snapshot, q: PeerId)
    requires UniqueKeys(games)
    ensures UniqueKeys(Updated(games, id, state)) && Keys(Updated(games, id, state)) == Keys(games)
    ensures Get(Updated(games, id, state), q) ==
      if q == id && Get(games, q).Some? && !Get(games, q).value.isLocal then Some(GameRecord(false, state))
      else Get(games, q)
  {
    if Get(games, id).Some? && !Get(games, id).value.isLocal {
      SetUnique(games, id, GameRecord(false, state));
      KeysSet(games, id, GameRecord(false, state));
      GetSet(games, id, GameRecord(false, state), q);
    }
  }

  /** The games `startMultiplayerGame` creates: one fresh game per player, in directory order. */
  function Roster(players: Entries<PeerId, PlayerInfo>, localPlayerId: PeerId): (games: Games)
    ensures |games| == |players|
  {
    if |players| == 0 then []
    else
      var id := players[|players| - 1].0;
      Roster(players[..|players| - 1], localPlayerId) + [(id, GameRecord(id == localPlayerId, FreshSnapshot))]
  }

  /** Each player gets a fresh game under its own id, local exactly for the local player. */
  lemma {:induction false} RosterAt(players: Entries<PeerId, PlayerInfo>, localPlayerId: PeerId, i: int)
    requires 0 <= i < |players|
    ensures Roster(players, localPlayerId)[i] ==
      (players[i].0, GameRecord(players[i].0 == localPlayerId, FreshSnapshot))
  {
    if i < |players| - 1 {
      RosterAt(players[..|players| - 1], localPlayerId, i);
    }
  }

  /** The roster of a prefix has that prefix's ids. */
  lemma {:induction false} RosterIds(players: Entries<PeerId, PlayerInfo>, localPlayerId: PeerId)
    ensures Keys(Roster(players, localPlayerId)) == Keys(players)
  {
    if |players| > 0 {
      RosterIds(players[..|players| - 1], localPlayerId);
    }
  }

  /** One step of the roster loop: `games.set` on the next player appends its game. */
  lemma RosterStep(players: Entries<PeerId, PlayerInfo>, localPlayerId: PeerId, i: int)
    requires UniqueKeys(players) && 0 <= i < |players|
    ensures var id := players[i].0;
      Set(Roster(players[..i], localPlayerId), id, GameRecord(id == localPlayerId, FreshSnapshot))
        == Roster(players[..i + 1], localPlayerId)
    ensures Keys(players[..i + 1]) == Keys(players[..i]) + [players[i].0]
  {
    var id := players[i].0;
    assert players[..i + 1][..i] == players[..i];
    PrefixKeys(players, i);
    PrefixKeys(players, i + 1);
    RosterIds(players[..i], localPlayerId);
    assert id == Keys(players)[i];
    assert id !in Keys(players[..i]);
    SetAppends(Roster(players[..i], localPlayerId), id, GameRecord(id == localPlayerId, FreshSnapshot));
  }

  /** The roster has the directory's ids, and at most one local game. */
  lemma RosterKeys(players: Entries<PeerId, PlayerInfo>, localPlayerId: PeerId)
    requires UniqueKeys(players)
    ensures Keys(Roster(players, localPlayerId)) == Keys(players)
    ensures UniqueKeys(Roster(players, localPlayerId))
    ensures forall i, j | 0 <= i < j < |players| ::
      !(Roster(players, localPlayerId)[i].1.isLocal && Roster(players, localPlayerId)[j].1.isLocal)
  {
    RosterIds(players, localPlayerId);
    forall i | 0 <= i < |players|
      ensures Roster(players, localPlayerId)[i] == (players[i].0, GameRecord(players[i].0 == localPlayerId, FreshSnapshot))
    {
      RosterAt(players, localPlayerId, i);
    }
    forall i, j | 0 <= i < j < |players|
      ensures !(Roster(players, localPlayerId)[i].1.isLocal && Roster(players, localPlayerId)[j].1.isLocal)
    {
      assert Keys(players)[i] != Keys(players)[j];
    }
  }

  // ---------------------------------------------------------------------
  // The controller
  // ---------------------------------------------------------------------

  /**
   * The `games.forEach` loop of `handleLinesCleared`: `sendGarbage` to every
   * targeted game, in map order.
   */
  method SendBurst(mp: MultiplayerManager, games: Games, source: PeerId, rows: int)
    requires mp.Valid()
    modifies mp
    ensures mp.Valid() && mp.players == old(mp.players) && mp.events == old(mp.events)
    ensures mp.isHost == old(mp.isHost) && mp.connections == old(mp.connections)
    ensures mp.roomCode == old(mp.roomCode) && mp.localPlayerId == old(mp.localPlayerId)
    ensures mp.outbox == old(mp.outbox) + Burst(mp.isHost, mp.connections, mp.roomCode, Targets(games, source), rows)
  {
    ghost var host, conns, code := mp.isHost, mp.connections, mp.roomCode;
    ghost var before := mp.outbox;
    var i := 0;
    while i < |games|
      invariant 0 <= i <= |games|
      invariant mp.Valid() && mp.players == old(mp.players) && mp.events == old(mp.events)
      invariant mp.isHost == host && mp.connections == conns && mp.roomCode == code
      invariant mp.localPlayerId == old(mp.localPlayerId)
      invariant mp.outbox == before + Burst(host, conns, code, Targets(games[..i], source), rows)
    {
      var id := games[i].0;
      TargetsStep(games, i, source);
      if Targeted(id, games[i].1, source) {
        BurstSnoc(host, conns, code, Targets(games[..i], source), id, rows);
        mp.SendGarbage(id, rows);
      } else {
        assert Targets(games[..i + 1], source) == Targets(games[..i], source);
      }
      i := i + 1;
    }
    assert games[..i] == games;
  }

  /** The match state main.js keeps in module variables. */
  class Coordinator {
    var games: Games
    /** The id of `localGame`, if there is one. */
    var localId: Option<PeerId>
    var isMultiplayer: bool
    var gameRunning: bool
    /** What the last `endGame` reported: `Some(winner)`, or `None` if no match has ended. */
    var outcome: Option<Option<PeerId>>
    var multiplayer: MultiplayerManager?

    ghost predicate Valid()
      reads this, multiplayer
    {
      UniqueKeys(games) && (isMultiplayer ==> multiplayer != null && multiplayer.Valid())
    }

    constructor()
      ensures Valid()
      ensures games == [] && localId == None && !isMultiplayer && !gameRunning
      ensures outcome == None && multiplayer == null
    {
      games := [];
      localId := None;
      isMultiplayer := false;
      gameRunning := false;
      outcome := None;
      multiplayer := null;
    }

    /** `startSinglePlayer`: one local game under the id "local", and the match runs. */
    method StartSinglePlayer()
      modifies this`games, this`localId, this`isMultiplayer, this`gameRunning
      ensures Valid()
      ensures !isMultiplayer && gameRunning
      ensures games == [(SoloId, GameRecord(true, FreshSnapshot))] && localId == Some(SoloId)
    {
      isMultiplayer := false;
      games := [];
      games := Set(games, SoloId, GameRecord(true, FreshSnapshot));
      localId := Some(SoloId);
      gameRunning := true;
    }

    /**
     * `startMultiplayerGame`: one fresh game per player in the directory,
     * the local one for this peer's id; the countdown is collapsed, so the
     * match runs at once. The seed is accepted and not used.
     */
    method StartMultiplayerGame(seed: int)
      requires multiplayer != null && multiplayer.Valid()
      modifies this`games, this`localId, this`isMultiplayer, this`gameRunning
      ensures Valid()
      ensures isMultiplayer && gameRunning
      ensures games == Roster(multiplayer.players, multiplayer.localPlayerId)
      ensures localId == if multiplayer.localPlayerId in Keys(multiplayer.players)
        then Some(multiplayer.localPlayerId) else old(localId)
    {
      var players := multiplayer.players;
      var me := multiplayer.localPlayerId;
      var roster: Games := [];
      var local := localId;
      var i := 0;
      while i < |players|
        invariant 0 <= i <= |players|
        invariant roster == Roster(players[..i], me)
        invariant local == if me in Keys(players[..i]) then Some(me) else old(localId)
      {
        var id := players[i].0;
        RosterStep(players, me, i);
        roster := Set(roster, id, GameRecord(id == me, FreshSnapshot));
        if id == me {
          local := Some(id);
        }
        i := i + 1;
      }
      assert players[..i] == players;
      RosterIds(players, me);
      isMultiplayer := true;
      games := roster;
      localId := local;
      gameRunning := true;
    }

    /** `endGame`, reduced to its outcome. */
    method EndGame(winner: Option<PeerId>)
      modifies this`gameRunning, this`outcome
      ensures !gameRunning && outcome == Some(winner)
    {
      gameRunning := false;
      outcome := Some(winner);
    }

    /** `checkWinCondition`: ends the match when `Outcome` says it is over. */
    method CheckWinCondition()
      modifies this`gameRunning, this`outcome
      ensures Outcome(games, isMultiplayer).Some? ==> !gameRunning && outcome == Outcome(games, isMultiplayer)
      ensures Outcome(games, isMultiplayer).None? ==> gameRunning == old(gameRunning) && outcome == old(outcome)
    {
      var alive := Alive(games);
      if !isMultiplayer && |alive| == 0 {
        EndGame(None);
      } else if isMultiplayer && |alive| <= 1 {
        EndGame(if |alive| == 0 then None else Some(alive[0]));
      }
    }

    /** `handleLinesCleared`: garbage to every remote game that is alive, other than the source. */
    method HandleLinesCleared(playerId: PeerId, lines: int)
      requires Valid()
      modifies multiplayer
      ensures Valid()
      ensures multiplayer != null ==> (multiplayer.players == old(multiplayer.players)
        && multiplayer.events == old(multiplayer.events))
      ensures multiplayer != null ==> (multiplayer.isHost == old(multiplayer.isHost)
        && multiplayer.connections == old(multiplayer.connections)
        && multiplayer.roomCode == old(multiplayer.roomCode)
        && multiplayer.localPlayerId == old(multiplayer.localPlayerId))
      ensures multiplayer != null ==> (multiplayer.outbox == old(multiplayer.outbox) +
        (if GarbageFor(isMultiplayer, lines) == 0 then []
         else Burst(multiplayer.isHost, multiplayer.connections, multiplayer.roomCode,
                    Targets(games, playerId), GarbageFor(isMultiplayer, lines))))
    {
      if !isMultiplayer || lines < 2 {
        return;
      }
      SendBurst(multiplayer, games, playerId, GarbageFor(isMultiplayer, lines));
    }

    /**
     * `handleGameOver`: mark the game over, tell the room when it is the
     * local game of a multiplayer match, then check for the end.
     */
    method HandleGameOver(playerId: PeerId)
      requires Valid()
      modifies this`games, this`gameRunning, this`outcome, multiplayer
      ensures Valid()
      ensures games == MarkOver(old(games), playerId)
      ensures multiplayer != null ==> (multiplayer.players == old(multiplayer.players)
        && multiplayer.events == old(multiplayer.events))
      ensures multiplayer != null ==> (multiplayer.isHost == old(multiplayer.isHost)
        && multiplayer.connections == old(multiplayer.connections)
        && multiplayer.roomCode == old(multiplayer.roomCode)
        && multiplayer.localPlayerId == old(multiplayer.localPlayerId))
      ensures multiplayer != null ==> (multiplayer.outbox == old(multiplayer.outbox) +
        (if isMultiplayer && localId == Some(playerId)
         then Outgoing(multiplayer.isHost, multiplayer.connections, multiplayer.roomCode, GameOver(multiplayer.localPlayerId))
         else []))
      ensures Outcome(games, isMultiplayer).Some? ==> !gameRunning && outcome == Outcome(games, isMultiplayer)
      ensures Outcome(games, isMultiplayer).None? ==> gameRunning == old(gameRunning) && outcome == old(outcome)
    {
      var g := Get(games, playerId);
      if g.Some? {
        MarkOverEffect(games, playerId, playerId);
        games := Set(games, playerId, g.value.(state := g.value.state.(gameOver := true)));
      }
      if localId == Some(playerId) && isMultiplayer {
        multiplayer.SendGameOver();
      }
      CheckWinCondition();
    }

    /** `updateRemotePlayer`: a remote game takes the snapshot it was sent. */
    method UpdateRemotePlayer(playerId: PeerId, state: Snapshot)
      requires Valid()
      modifies this`games
      ensures Valid()
      ensures games == Updated(old(games), playerId, state)
    {
      var g := Get(games, playerId);
      if g.Some? && !g.value.isLocal {
        UpdatedEffect(games, playerId, state, playerId);
        games := Set(games, playerId, GameRecord(false, state));
      }
    }

    /** The `onPlayerLeave` handler: drop the game, then check for the end if a match is running. */
    method OnPlayerLeave(id: PeerId)
      requires Valid()
      modifies this`games, this`gameRunning, this`outcome
      ensures Valid()
      ensures games == Delete(old(games), id)
      ensures old(gameRunning) && Outcome(games, isMultiplayer).Some? ==>
        !gameRunning && outcome == Outcome(games, isMultiplayer)
      ensures !(old(gameRunning) && Outcome(games, isMultiplayer).Some?) ==>
        gameRunning == old(gameRunning) && outcome == old(outcome)
    {
      DeleteUnique(games, id);
      games := Delete(games, id);
      if gameRunning {
        CheckWinCondition();
      }
    }
  }
}
