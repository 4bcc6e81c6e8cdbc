/**
 * The relay and player directory of a multiplayer room (`MultiplayerManager`).
 * The peer-to-peer transport is modelled away: a connection is its peer id,
 * `conn.send` appends a `(destination, message)` pair to `outbox`, and a
 * callback the game installed is an `Event` appended to `events`.
 */
module Relay {
  import opened Wrappers
  import opened OrderedMap

  type PeerId = string

  /** A directory entry: the display name and whether that player hosts. */
  datatype PlayerInfo = PlayerInfo(name: string, isHost: bool)

  /** The part of a game's state a `stateUpdate` carries that the match reads. */
  datatype Snapshot = Snapshot(score: int, lines: int, level: int, gameOver: bool)

  /** The messages peers exchange, one constructor per `type` tag. */
  datatype Message =
    | PlayerList(players: Entries<PeerId, PlayerInfo>)
    | PlayerJoin(playerId: PeerId, playerName: string)
    | PlayerLeave(playerId: PeerId)
    | GameStart(seed: int)
    | StateUpdate(playerId: PeerId, state: Snapshot)
    | Garbage(lines: int)
    | GarbageSend(targetId: PeerId, lines: int)
    | GameOver(playerId: PeerId)

  /** The callbacks the manager raises, in the order it raises them. */
  datatype Event =
    | PlayerJoined(id: PeerId, name: string)
    | PlayerLeft(id: PeerId)
    | GameStarted(seed: int)
    | StateUpdated(id: PeerId, state: Snapshot)
    | GarbageReceived(lines: int)
    | PlayerGameOver(id: PeerId)

  type Outbox = seq<(PeerId, Message)>

  /** The peer id a host registers for a room code. */
  function HostAddress(roomCode: string): (a: PeerId)
    ensures |a| == |roomCode| + 10 && a[..10] == "nyatetris-" && a[10..] == roomCode
  {
    "nyatetris-" + roomCode
  }

  // ---------------------------------------------------------------------
  // Room codes
  // ---------------------------------------------------------------------

  /** Upper-case letters and digits, without the look-alikes I, O, 0 and 1. */
  const Alphabet: string := "ABCDEFGHJKLMNPQRSTUVWXYZ23456789"
  const CodeLength: nat := 4

  /** Where a character of `Alphabet` stands in it, computed from its code point. */
  function AlphabetIndex(c: char): int {
    if 'A' <= c <= 'H' then c as int - 'A' as int
    else if 'J' <= c <= 'N' then c as int - 'J' as int + 8
    else if 'P' <= c <= 'Z' then c as int - 'P' as int + 13
    else if '2' <= c <= '9' then c as int - '2' as int + 24
    else -1
  }

  /** `AlphabetIndex` inverts indexing into `Alphabet`, so the 32 characters are distinct. */
  lemma AlphabetIndexInverts(i: int)
    requires 0 <= i < |Alphabet|
    ensures AlphabetIndex(Alphabet[i]) == i
  {
    var a, b, c, d := "ABCDEFGH", "JKLMN", "PQRSTUVWXYZ", "23456789";
    assert Alphabet == a + b + c + d;
    if i < 8 {
      assert Alphabet[i] == a[i];
    } else if i < 13 {
      assert Alphabet[i] == b[i - 8];
    } else if i < 24 {
      assert Alphabet[i] == c[i - 13];
    } else {
      assert Alphabet[i] == d[i - 24];
    }
  }

  /** The alphabet has 32 characters and none of I, O, 0, 1. */
  lemma AlphabetShape()
    ensures |Alphabet| == 32
    ensures 'I' !in Alphabet && 'O' !in Alphabet && '0' !in Alphabet && '1' !in Alphabet
  {
    forall i | 0 <= i < |Alphabet|
      ensures Alphabet[i] != 'I' && Alphabet[i] != 'O' && Alphabet[i] != '0' && Alphabet[i] != '1'
    {
      AlphabetIndexInverts(i);
    }
  }

  /**
   * Builds a room code one character at a time; `picks` are the random
   * indices. The code is 4 characters of `Alphabet`, and reading each
   * character back as an index gives the picks again.
   */
  method GenerateRoomCode(picks: seq<nat>) returns (code: string)
    requires |picks| == CodeLength
    requires forall i | 0 <= i < |picks| :: picks[i] < |Alphabet|
    ensures |code| == CodeLength
    ensures forall i | 0 <= i < |code| :: code[i] in Alphabet
    ensures forall i | 0 <= i < |code| :: AlphabetIndex(code[i]) == picks[i]
  {
    code := "";
    var i := 0;
    while i < CodeLength
      invariant 0 <= i <= CodeLength && |code| == i
      invariant forall k | 0 <= k < i :: code[k] == Alphabet[picks[k]]
    {
      code := code + [Alphabet[picks[i]]];
      i := i + 1;
    }
    forall k | 0 <= k < |code|
      ensures code[k] in Alphabet && AlphabetIndex(code[k]) == picks[k]
    {
      AlphabetIndexInverts(picks[k]);
    }
  }

  // ---------------------------------------------------------------------
  // Fan-out
  // ---------------------------------------------------------------------

  /** What `broadcast(data, exclude)` sends: `data` to each connection but `exclude`, in order. */
  function Fanout(conns: seq<PeerId>, data: Message, exclude: Option<PeerId>): (out: Outbox)
    ensures forall k | 0 <= k < |out| :: out[k].1 == data && out[k].0 in conns && Some(out[k].0) != exclude
  {
    if |conns| == 0 then []
    else
      var last := conns[|conns| - 1];
      Fanout(conns[..|conns| - 1], data, exclude) + (if Some(last) != exclude then [(last, data)] else [])
  }

  /** What `send(p, data)` sends: `data` to `p`, if `p` is connected. */
  function Unicast(conns: seq<PeerId>, p: PeerId, data: Message): Outbox {
    if p in conns then [(p, data)] else []
  }

  /** How many messages of `out` go to `p`. */
  function Count(out: Outbox, p: PeerId): nat {
    if |out| == 0 then 0
    else Count(out[..|out| - 1], p) + (if out[|out| - 1].0 == p then 1 else 0)
  }

  lemma {:induction false} CountAppend(a: Outbox, b: Outbox, p: PeerId)
    ensures Count(a + b, p) == Count(a, p) + Count(b, p)
  {
    if |b| > 0 {
      assert (a + b)[..|a + b| - 1] == a + b[..|b| - 1];
      CountAppend(a, b[..|b| - 1], p);
    } else {
      assert a + b == a;
    }
  }

  /** A broadcast reaches every connected peer other than `exclude` exactly once, and no one else. */
  lemma {:induction false} FanoutOnce(conns: seq<PeerId>, data: Message, exclude: Option<PeerId>, p: PeerId)
    requires Distinct(conns)
    ensures Count(Fanout(conns, data, exclude), p) == if p in conns && Some(p) != exclude then 1 else 0
  {
    if |conns| > 0 {
      var init := conns[..|conns| - 1];
      var last := conns[|conns| - 1];
      assert conns == init + [last];
      FanoutOnce(init, data, exclude, p);
      var tail: Outbox := if Some(last) != exclude then [(last, data)] else [];
      CountAppend(Fanout(init, data, exclude), tail, p);
      if |tail| == 1 {
        assert tail[..0] == [];
      }
      if p == last {
        assert p !in init;
      }
    }
  }

  /** `send` reaches `p` once when it is connected and sends nothing otherwise. */
  lemma UnicastOnce(conns: seq<PeerId>, p: PeerId, data: Message, q: PeerId)
    ensures Count(Unicast(conns, p, data), q) == if q == p && p in conns then 1 else 0
    ensures |Unicast(conns, p, data)| <= 1
  {
    if p in conns {
      assert Unicast(conns, p, data)[..0] == [];
    }
  }

  // ---------------------------------------------------------------------
  // The directory and message dispatch
  // ---------------------------------------------------------------------

  /** The `playerList` merge: each listed entry is `set` in list order; unlisted entries stay. */
  function Merge(m: Entries<PeerId, PlayerInfo>, list: Entries<PeerId, PlayerInfo>): Entries<PeerId, PlayerInfo> {
    if |list| == 0 then m
    else
      var last := list[|list| - 1];
      Set(Merge(m, list[..|list| - 1]), last.0, last.1)
  }

  /** The value the list gives `k` last, if it lists `k` at all. */
  function Listed(list: Entries<PeerId, PlayerInfo>, k: PeerId): Option<PlayerInfo> {
    if |list| == 0 then None
    else if list[|list| - 1].0 == k then Some(list[|list| - 1].1)
    else Listed(list[..|list| - 1], k)
  }

  /** After a merge a listed id reads its last listed entry and an unlisted id reads as before. */
  lemma {:induction false} GetMerge(m: Entries<PeerId, PlayerInfo>, list: Entries<PeerId, PlayerInfo>, k: PeerId)
    ensures Get(Merge(m, list), k) == if Listed(list, k).Some? then Listed(list, k) else Get(m, k)
  {
    if |list| > 0 {
      var last := list[|list| - 1];
      GetMerge(m, list[..|list| - 1], k);
      GetSet(Merge(m, list[..|list| - 1]), last.0, last.1, k);
    }
  }

  /** A merge keeps one entry per id, and the ids present before keep their order at the front. */
  lemma {:induction false} MergeKeys(m: Entries<PeerId, PlayerInfo>, list: Entries<PeerId, PlayerInfo>)
    requires UniqueKeys(m)
    ensures UniqueKeys(Merge(m, list))
    ensures |Keys(m)| <= |Keys(Merge(m, list))| && Keys(Merge(m, list))[..|m|] == Keys(m)
  {
    if |list| > 0 {
      var last := list[|list| - 1];
      var before := Merge(m, list[..|list| - 1]);
      MergeKeys(m, list[..|list| - 1]);
      SetUnique(before, last.0, last.1);
      KeysSet(before, last.0, last.1);
    }
  }

  /** The directory after a message: only `playerList`, `playerJoin` and `playerLeave` change it. */
  function Directory(players: Entries<PeerId, PlayerInfo>, data: Message): Entries<PeerId, PlayerInfo> {
    match data
    case PlayerList(list) => Merge(players, list)
    case PlayerJoin(id, name) => Set(players, id, PlayerInfo(name, false))
    case PlayerLeave(id) => Delete(players, id)
    case _ => players
  }

  /** How each message type changes the directory, id by id. */
  lemma DirectoryRules(players: Entries<PeerId, PlayerInfo>, data: Message, k: PeerId)
    ensures data.PlayerList? ==>
      Get(Directory(players, data), k) == if Listed(data.players, k).Some? then Listed(data.players, k) else Get(players, k)
    ensures data.PlayerJoin? ==>
      Get(Directory(players, data), k) == if k == data.playerId then Some(PlayerInfo(data.playerName, false)) else Get(players, k)
    ensures data.PlayerLeave? ==>
      Get(Directory(players, data), k) == if k == data.playerId then None else Get(players, k)
    ensures !(data.PlayerList? || data.PlayerJoin? || data.PlayerLeave?) ==> Directory(players, data) == players
  {
    match data
    case PlayerList(list) => GetMerge(players, list, k);
    case PlayerJoin(id, name) => GetSet(players, id, PlayerInfo(name, false), k);
    case PlayerLeave(id) => GetDelete(players, id, k);
    case _ =>
  }

  /** The directory keeps one entry per id whatever message arrives. */
  lemma DirectoryUnique(players: Entries<PeerId, PlayerInfo>, data: Message)
    requires UniqueKeys(players)
    ensures UniqueKeys(Directory(players, data))
  {
    match data
    case PlayerList(list) => MergeKeys(players, list);
    case PlayerJoin(id, name) => SetUnique(players, id, PlayerInfo(name, false));
    case PlayerLeave(id) => DeleteUnique(players, id);
    case _ =>
  }

  /** One `playerJoin` callback per directory entry, in map order. */
  function JoinEvents(players: Entries<PeerId, PlayerInfo>): (evs: seq<Event>)
    ensures |evs| == |players|
  {
    if |players| == 0 then []
    else
      var last := players[|players| - 1];
      JoinEvents(players[..|players| - 1]) + [PlayerJoined(last.0, last.1.name)]
  }

  /** `JoinEvents` announces each entry at its own position, with its own name. */
  lemma {:induction false} JoinEventsAt(players: Entries<PeerId, PlayerInfo>, i: int)
    requires 0 <= i < |players|
    ensures JoinEvents(players)[i] == PlayerJoined(players[i].0, players[i].1.name)
  {
    if i < |players| - 1 {
      JoinEventsAt(players[..|players| - 1], i);
    }
  }

  /** The callbacks a message raises, given the directory after it. */
  function Raised(players: Entries<PeerId, PlayerInfo>, data: Message): seq<Event> {
    match data
    case PlayerList(_) => JoinEvents(players)
    case PlayerJoin(id, name) => [PlayerJoined(id, name)]
    case PlayerLeave(id) => [PlayerLeft(id)]
    case GameStart(seed) => [GameStarted(seed)]
    case StateUpdate(id, s) => [StateUpdated(id, s)]
    case Garbage(n) => [GarbageReceived(n)]
    case GarbageSend(_, _) => []
    case GameOver(id) => [PlayerGameOver(id)]
  }

  /** A `garbageSend` has no case in the dispatch: it changes nothing, raises nothing and is not relayed. */
  lemma GarbageSendDropped(isHost: bool, conns: seq<PeerId>, players: Entries<PeerId, PlayerInfo>, fromId: PeerId, target: PeerId, lines: int)
    ensures Directory(players, GarbageSend(target, lines)) == players
    ensures Raised(players, GarbageSend(target, lines)) == []
    ensures Relayed(isHost, conns, fromId, GarbageSend(target, lines)) == []
  {
  }

  /** What a peer forwards after handling a message from `fromId`. */
  function Relayed(isHost: bool, conns: seq<PeerId>, fromId: PeerId, data: Message): Outbox {
    if isHost && (data.StateUpdate? || data.GameOver?) then Fanout(conns, data, Some(fromId)) else []
  }

  /**
   * Only a host relays, only `stateUpdate` and `gameOver`, unchanged, and
   * then to every connection but the sender exactly once.
   */
  lemma RelayRule(isHost: bool, conns: seq<PeerId>, fromId: PeerId, data: Message, p: PeerId)
    requires Distinct(conns)
    ensures Count(Relayed(isHost, conns, fromId, data), p) ==
      if isHost && (data.StateUpdate? || data.GameOver?) && p in conns && p != fromId then 1 else 0
    ensures forall k | 0 <= k < |Relayed(isHost, conns, fromId, data)| :: Relayed(isHost, conns, fromId, data)[k].1 == data
  {
    if isHost && (data.StateUpdate? || data.GameOver?) {
      FanoutOnce(conns, data, Some(fromId), p);
    }
  }

  /** What `sendGarbage(target, lines)` puts on the wire. */
  function GarbageOut(isHost: bool, conns: seq<PeerId>, roomCode: string, target: PeerId, lines: int): Outbox {
    if isHost then Unicast(conns, target, Garbage(lines))
    else Unicast(conns, HostAddress(roomCode), GarbageSend(target, lines))
  }

  /**
   * A host sends `garbage` to the target alone; a joiner sends `garbageSend`
   * to the host alone; either way at most one message, and none when that
   * destination is not connected.
   */
  lemma GarbageRouting(isHost: bool, conns: seq<PeerId>, roomCode: string, target: PeerId, lines: int, q: PeerId)
    ensures var dest := if isHost then target else HostAddress(roomCode);
      Count(GarbageOut(isHost, conns, roomCode, target, lines), q) == if q == dest && dest in conns then 1 else 0
    ensures forall k | 0 <= k < |GarbageOut(isHost, conns, roomCode, target, lines)| ::
      GarbageOut(isHost, conns, roomCode, target, lines)[k].1 ==
        if isHost then Garbage(lines) else GarbageSend(target, lines)
  {
    if isHost {
      UnicastOnce(conns, target, Garbage(lines), q);
    } else {
      UnicastOnce(conns, HostAddress(roomCode), GarbageSend(target, lines), q);
    }
  }

  /** `stateUpdate` and `gameOver` from this peer: broadcast by a host, sent to the host by a joiner. */
  function Outgoing(isHost: bool, conns: seq<PeerId>, roomCode: string, data: Message): Outbox {
    if isHost then Fanout(conns, data, None) else Unicast(conns, HostAddress(roomCode), data)
  }

  /** A host's own update reaches every connection once; a joiner's reaches only the host. */
  lemma OutgoingRouting(isHost: bool, conns: seq<PeerId>, roomCode: string, data: Message, q: PeerId)
    requires Distinct(conns)
    ensures Count(Outgoing(isHost, conns, roomCode, data), q) ==
      if q in conns && (isHost || q == HostAddress(roomCode)) then 1 else 0
  {
    if isHost {
      FanoutOnce(conns, data, None, q);
    } else {
      UnicastOnce(conns, HostAddress(roomCode), data, q);
    }
  }

  /** The JavaScript `metadata?.name || 'Player'`: a missing or empty name becomes "Player". */
  function DisplayName(metaName: Option<string>): (name: string)
    ensures name != ""
  {
    if metaName.Some? && metaName.value != "" then metaName.value else "Player"
  }

  /** `connections.set(p, conn)`: a new id is appended; a present one keeps its place. */
  function AddKey(conns: seq<PeerId>, p: PeerId): (r: seq<PeerId>)
    ensures p in r
    ensures Distinct(conns) ==> Distinct(r)
    ensures forall q :: q in r <==> q in conns || q == p
  {
    if p in conns then conns else conns + [p]
  }

  /**
   * When the host opens a connection to `p`, `p` receives two messages: the
   * player list first, then its own `playerJoin`; every other connection
   * receives the `playerJoin` once. The list is the directory from before,
   * so it names `p` only if `p` was already in the directory.
   */
  lemma HostOpenDelivery(conns: seq<PeerId>, players: Entries<PeerId, PlayerInfo>, p: PeerId, name: string, q: PeerId)
    requires Distinct(conns)
    ensures var out := [(p, PlayerList(players))] + Fanout(AddKey(conns, p), PlayerJoin(p, name), None);
      out[0] == (p, PlayerList(players)) &&
      Count(out, q) == (if q == p then 2 else if q in conns then 1 else 0)
  {
    var all := AddKey(conns, p);
    FanoutOnce(all, PlayerJoin(p, name), None, q);
    CountAppend([(p, PlayerList(players))], Fanout(all, PlayerJoin(p, name), None), q);
    assert [(p, PlayerList(players))][..0] == [];
  }

  /** When a host closes `p`, `playerLeave` reaches every remaining connection once and never `p`. */
  lemma HostCloseDelivery(conns: seq<PeerId>, p: PeerId, q: PeerId)
    requires Distinct(conns)
    ensures Count(Fanout(Without(conns, p), PlayerLeave(p), None), q) == if q in conns && q != p then 1 else 0
  {
    WithoutDistinct(conns, p);
    FanoutOnce(Without(conns, p), PlayerLeave(p), None, q);
  }

  // ---------------------------------------------------------------------
  // The manager
  // ---------------------------------------------------------------------

  class MultiplayerManager {
    /** Ids of the open connections, in the order `connections.set` first saw them. */
    var connections: seq<PeerId>
    /** The player directory. */
    var players: Entries<PeerId, PlayerInfo>
    var isHost: bool
    var roomCode: string
    var localPlayerId: PeerId
    /** Every `conn.send`, in order. */
    var outbox: Outbox
    /** Every callback raised, in order. */
    var events: seq<Event>

    ghost predicate Valid()
      reads this
    {
      Distinct(connections) && UniqueKeys(players)
    }

    /** A fresh manager: no connections, no players, not hosting; null ids are empty strings. */
    constructor()
      ensures Valid()
      ensures connections == [] && players == [] && !isHost
      ensures roomCode == "" && localPlayerId == ""
      ensures outbox == [] && events == []
    {
      connections := [];
      players := [];
      isHost := false;
      roomCode := "";
      localPlayerId := "";
      outbox := [];
      events := [];
    }

    /**
     * Hosting a room once the host's peer is open: a generated room code, the
     * peer id the code names, and the host in the directory.
     */
    method HostGame(picks: seq<nat>, playerName: string) returns (code: string)
      requires Valid()
      requires |picks| == CodeLength
      requires forall i | 0 <= i < |picks| :: picks[i] < |Alphabet|
      modifies this`isHost, this`roomCode, this`localPlayerId, this`players
      ensures Valid()
      ensures isHost && roomCode == code && |code| == CodeLength
      ensures forall i | 0 <= i < |code| :: code[i] in Alphabet
      ensures localPlayerId == HostAddress(code)
      ensures players == Set(old(players), HostAddress(code), PlayerInfo(playerName, true))
    {
      isHost := true;
      code := GenerateRoomCode(picks);
      roomCode := code;
      localPlayerId := HostAddress(code);
      SetUnique(players, localPlayerId, PlayerInfo(playerName, true));
      players := Set(players, localPlayerId, PlayerInfo(playerName, true));
    }

    /** Joining a room once the joiner's own peer is open with id `id`. */
    method JoinGame(code: string, id: PeerId)
      modifies this`isHost, this`roomCode, this`localPlayerId
      ensures !isHost && roomCode == code && localPlayerId == id
    {
      isHost := false;
      roomCode := code;
      localPlayerId := id;
    }

    /** `send(p, data)`: delivered only over an open connection to `p`. */
    method Send(p: PeerId, data: Message)
      modifies this`outbox
      ensures outbox == old(outbox) + Unicast(connections, p, data)
    {
      if p in connections {
        outbox := outbox + [(p, data)];
      }
    }

    /** `broadcast(data, exclude)`: one send per connection, skipping `exclude`. */
    method Broadcast(data: Message, exclude: Option<PeerId>)
      modifies this`outbox
      ensures outbox == old(outbox) + Fanout(connections, data, exclude)
    {
      var i := 0;
      while i < |connections|
        invariant 0 <= i <= |connections|
        invariant outbox == old(outbox) + Fanout(connections[..i], data, exclude)
      {
        assert connections[..i + 1][..i] == connections[..i];
        if Some(connections[i]) != exclude {
          outbox := outbox + [(connections[i], data)];
        }
        i := i + 1;
      }
      assert connections[..i] == connections;
    }

    /** The connection's open handler. */
    method OnOpen(p: PeerId, metaName: Option<string>)
      requires Valid()
      modifies this`connections, this`players, this`outbox, this`events
      ensures Valid()
      ensures connections == AddKey(old(connections), p)
      ensures !isHost ==> players == old(players) && outbox == old(outbox) && events == old(events)
      ensures isHost ==> players == Set(old(players), p, PlayerInfo(DisplayName(metaName), false))
      ensures isHost ==> (outbox == old(outbox) + [(p, PlayerList(old(players)))]
        + Fanout(connections, PlayerJoin(p, DisplayName(metaName)), None))
      ensures isHost ==> events == old(events) + [PlayerJoined(p, DisplayName(metaName))]
    {
      connections := AddKey(connections, p);
      if isHost {
        var list := players;
        outbox := outbox + [(p, PlayerList(list))];
        var name := DisplayName(metaName);
        SetUnique(players, p, PlayerInfo(name, false));
        players := Set(players, p, PlayerInfo(name, false));
        Broadcast(PlayerJoin(p, name), None);
        events := events + [PlayerJoined(p, name)];
      }
    }

    /** The connection's close handler. */
    method OnClose(p: PeerId)
      requires Valid()
      modifies this`connections, this`players, this`outbox, this`events
      ensures Valid()
      ensures connections == Without(old(connections), p)
      ensures players == Delete(old(players), p)
      ensures outbox == old(outbox) + (if isHost then Fanout(connections, PlayerLeave(p), None) else [])
      ensures events == old(events) + [PlayerLeft(p)]
    {
      WithoutDistinct(connections, p);
      connections := Without(connections, p);
      DeleteUnique(players, p);
      players := Delete(players, p);
      if isHost {
        Broadcast(PlayerLeave(p), None);
      }
      events := events + [PlayerLeft(p)];
    }

    /** `handleMessage`: dispatch on the type, then a host relays updates. */
    method HandleMessage(fromId: PeerId, data: Message)
      requires Valid()
      modifies this`players, this`outbox, this`events
      ensures Valid()
      ensures players == Directory(old(players), data)
      ensures events == old(events) + Raised(players, data)
      ensures outbox == old(outbox) + Relayed(isHost, connections, fromId, data)
    {
      match data {
        case PlayerList(list) =>
          var i := 0;
          while i < |list|
            invariant 0 <= i <= |list|
            invariant players == Merge(old(players), list[..i])
            invariant UniqueKeys(players)
            invariant events == old(events) && outbox == old(outbox)
          {
            assert list[..i + 1][..i] == list[..i];
            SetUnique(players, list[i].0, list[i].1);
            players := Set(players, list[i].0, list[i].1);
            i := i + 1;
          }
          assert list[..i] == list;
          ghost var merged := players;
          var j := 0;
          while j < |players|
            invariant players == merged && UniqueKeys(players) && outbox == old(outbox)
            invariant 0 <= j <= |players|
            invariant events == old(events) + JoinEvents(players[..j])
          {
            assert players[..j + 1][..j] == players[..j];
            events := events + [PlayerJoined(players[j].0, players[j].1.name)];
            j := j + 1;
          }
          assert players[..j] == players;
        case PlayerJoin(id, name) =>
          SetUnique(players, id, PlayerInfo(name, false));
          players := Set(players, id, PlayerInfo(name, false));
          events := events + [PlayerJoined(id, name)];
        case PlayerLeave(id) =>
          DeleteUnique(players, id);
          players := Delete(players, id);
          events := events + [PlayerLeft(id)];
        case GameStart(seed) =>
          events := events + [GameStarted(seed)];
        case StateUpdate(id, s) =>
          events := events + [StateUpdated(id, s)];
        case Garbage(n) =>
          events := events + [GarbageReceived(n)];
        case GameOver(id) =>
          events := events + [PlayerGameOver(id)];
        case GarbageSend(_, _) =>
      }
      if isHost && (data.StateUpdate? || data.GameOver?) {
        Broadcast(data, Some(fromId));
      }
    }

    /** `sendToHost`: a host handles the message itself, a joiner sends it to the host's address. */
    method SendToHost(data: Message)
      requires Valid()
      modifies this`players, this`outbox, this`events
      ensures Valid()
      ensures isHost ==> (players == Directory(old(players), data)
        && events == old(events) + Raised(players, data)
        && outbox == old(outbox) + Relayed(isHost, connections, localPlayerId, data))
      ensures !isHost ==> (players == old(players) && events == old(events)
        && outbox == old(outbox) + Unicast(connections, HostAddress(roomCode), data))
    {
      if isHost {
        HandleMessage(localPlayerId, data);
      } else {
        Send(HostAddress(roomCode), data);
      }
    }

    /** `startGame`: only a host announces a start, to everyone and to itself. */
    method StartGame(seed: int)
      modifies this`outbox, this`events
      ensures !isHost ==> outbox == old(outbox) && events == old(events)
      ensures isHost ==> (outbox == old(outbox) + Fanout(connections, GameStart(seed), None)
        && events == old(events) + [GameStarted(seed)])
    {
      if !isHost {
        return;
      }
      Broadcast(GameStart(seed), None);
      events := events + [GameStarted(seed)];
    }

    /** `sendStateUpdate`: this peer's snapshot, under its own id. */
    method SendStateUpdate(state: Snapshot)
      requires Valid()
      modifies this`players, this`outbox, this`events
      ensures Valid() && players == old(players) && events == old(events)
      ensures outbox == old(outbox) + Outgoing(isHost, connections, roomCode, StateUpdate(localPlayerId, state))
    {
      var data := StateUpdate(localPlayerId, state);
      if isHost {
        Broadcast(data, None);
      } else {
        SendToHost(data);
      }
    }

    /** `sendGarbage`: a host sends `garbage` to the target, a joiner asks the host with `garbageSend`. */
    method SendGarbage(target: PeerId, lines: int)
      requires Valid()
      modifies this`players, this`outbox, this`events
      ensures Valid() && players == old(players) && events == old(events)
      ensures outbox == old(outbox) + GarbageOut(isHost, connections, roomCode, target, lines)
    {
      if isHost {
        Send(target, Garbage(lines));
      } else {
        SendToHost(GarbageSend(target, lines));
      }
    }

    /** `sendGameOver`: this peer's game-over notice, under its own id. */
    method SendGameOver()
      requires Valid()
      modifies this`players, this`outbox, this`events
      ensures Valid() && players == old(players) && events == old(events)
      ensures outbox == old(outbox) + Outgoing(isHost, connections, roomCode, GameOver(localPlayerId))
    {
      var data := GameOver(localPlayerId);
      if isHost {
        Broadcast(data, None);
      } else {
        SendToHost(data);
      }
    }

    /** `destroy`: both maps emptied. */
    method Destroy()
      modifies this`connections, this`players
      ensures Valid()
      ensures connections == [] && players == []
    {
      connections := [];
      players := [];
    }
  }
}
