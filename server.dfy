/**
 * The two-player room coordinator of the socket server: handshake
 * authentication, the in-memory `rooms`, `userRooms` and `roomHosts` tables,
 * and the handlers `createRoom`, `joinRoom`, `playerReady`, `gameStart`,
 * `scoreUpdate`, `gameEnd` and `disconnect`.
 *
 * Each state-changing handler is given twice: as a function from the server
 * state to a `Step` (new state, the socket's new `roomId`, the emitted
 * messages), about which the lemmas speak, and as a method of `Coordinator`
 * that updates the tables in place and is proved to agree with the function.
 * A message is addressed to an `Audience` rather than sent over a network.
 */
module RoomServer {
  import opened Js

  /** `socket.user`. */
  datatype User = User(id: string, name: string, email: string)

  /** `socket.handshake.auth`: `token`, `name` and `email`, each possibly absent. */
  datatype Handshake = Handshake(token: Option<string>, name: Option<string>, email: Option<string>)

  /** The authentication middleware: a falsy token is refused, otherwise the token is the user id. */
  function Authenticate(h: Handshake): (r: Result<User>)
    ensures r.Err? <==> !Truthy(h.token)
    ensures r.Err? ==> r.error == "Unauthorized"
    ensures r.Ok? ==> r.value.id == h.token.value && r.value.id != ""
    ensures r.Ok? ==> r.value.name == OrEmpty(h.name) && r.value.email == OrEmpty(h.email)
  {
    if !Truthy(h.token) then Err("Unauthorized")
    else Ok(User(h.token.value, OrEmpty(h.name), OrEmpty(h.email)))
  }

  datatype Player = Player(id: string, name: string, email: string, ready: bool)

  /** `"waiting"` or `"ready"`. */
  datatype RoomStatus = Waiting | Ready

  /** A room record; its `createdAt` timestamp is not modelled. */
  datatype Room = Room(hostId: string, hostName: string, players: seq<Player>, status: RoomStatus)

  /** A `roomHosts` entry. */
  datatype HostInfo = HostInfo(hostId: string, hostName: string, hostEmail: string)

  /** Who receives a message: the calling socket, the room without the caller (`socket.to`), or the whole room (`io.to`). */
  datatype Audience = Caller | RoomExceptCaller(roomId: string) | WholeRoom(roomId: string)

  /** The emitted events with their payloads; timestamps are not modelled. */
  datatype Event =
    | RoomCreated(roomId: string)
    | JoinRoomError(message: string)
    | PlayerJoined(playerId: string, playerName: string, playerEmail: string)
    | JoinedRoom(roomId: string)
    | RoomReady(players: seq<Player>, canStart: bool, hostId: string)
    | OpponentReady(playerId: string, playerName: string)
    | HostStartTheGame
    | OpponentScoreUpdate(playerId: string, playerName: string, score: int)
    | OpponentGameEnd(playerId: string, playerName: string)
    | PlayerDisconnected(playerId: string, playerName: string, isHostDisconnected: bool)

  datatype Emit = Emit(to: Audience, event: Event)

  /** The message reaches the socket that sent the request. */
  predicate ReachesCaller(e: Emit)
  {
    e.to.Caller? || e.to.WholeRoom?
  }

  const RoomNotFound := "room not found"
  const RoomIsFull := "room is full"
  const AlreadyInRoom := "you are already in the room"
  /** The generic message sent when the handler throws. */
  const JoinFailed := "加入房間失敗，請稍後再試"

  /**
   * A possible result of `generateRoomId`: `Math.random().toString(36)`
   * characters 2 to 7, upper-cased. It has at most six characters, each a
   * digit or an upper-case letter, and is empty when `Math.random()` is 0.
   */
  predicate GeneratedId(id: string)
  {
    |id| <= 6 && forall i :: 0 <= i < |id| ==> IsUpperBase36(id[i])
  }

  /** A generated id is never a property name that plain objects inherit. */
  lemma GeneratedIdNotInherited(id: string)
    requires GeneratedId(id)
    ensures id !in InheritedKeys
  {
    if id in InheritedKeys {
      InheritedKeysNotUpperBase36(id);
    }
  }

  /** The player record built from the caller, not yet ready. */
  function PlayerOf(u: User): Player
  {
    Player(u.id, u.name, u.email, false)
  }

  /** Some player of `players` has id `id` (`players.find(p => p.id === id)` is found). */
  predicate HasPlayer(players: seq<Player>, id: string)
  {
    exists i :: 0 <= i < |players| && players[i].id == id
  }

  /** No two players share an id. */
  predicate DistinctIds(players: seq<Player>)
  {
    forall i, j :: 0 <= i < j < |players| ==> players[i].id != players[j].id
  }

  /** `players.filter(p => p.id !== id)`. */
  function Without(players: seq<Player>, id: string): (r: seq<Player>)
    ensures |r| <= |players|
    ensures forall p :: p in r <==> p in players && p.id != id
    decreases |players|
  {
    if players == [] then []
    else if players[0].id == id then Without(players[1..], id)
    else [players[0]] + Without(players[1..], id)
  }

  /** Filtering keeps the order of the remaining players and so their distinctness. */
  lemma {:induction false} WithoutDistinct(players: seq<Player>, id: string)
    requires DistinctIds(players)
    ensures DistinctIds(Without(players, id))
    decreases |players|
  {
    if players != [] {
      var t := players[1..];
      assert DistinctIds(t) by {
        forall i, j | 0 <= i < j < |t| ensures t[i].id != t[j].id { assert t[i] == players[i + 1] && t[j] == players[j + 1]; }
      }
      WithoutDistinct(t, id);
      if players[0].id != id {
        var r := [players[0]] + Without(t, id);
        forall i, j | 0 <= i < j < |r| ensures r[i].id != r[j].id {
          if i == 0 {
            assert r[j] in Without(t, id);
            assert r[j] in t;
            var k :| 0 <= k < |t| && t[k] == r[j];
            assert players[k + 1] == r[j];
          }
        }
      }
    }
  }

  /** Filtering out an id no player has keeps the list as it is. */
  lemma {:induction false} WithoutAbsent(players: seq<Player>, id: string)
    requires !HasPlayer(players, id)
    ensures Without(players, id) == players
    decreases |players|
  {
    if players != [] {
      var t := players[1..];
      assert !HasPlayer(t, id) by {
        forall k | 0 <= k < |t| ensures t[k].id != id { assert t[k] == players[k + 1]; }
      }
      WithoutAbsent(t, id);
      assert players[0].id != id;
      assert players == [players[0]] + t;
    }
  }

  /** Filtering out a player who is there removes exactly one record when ids are distinct. */
  lemma {:induction false} WithoutPresent(players: seq<Player>, id: string)
    requires DistinctIds(players) && HasPlayer(players, id)
    ensures |Without(players, id)| == |players| - 1
    decreases |players|
  {
    var t := players[1..];
    if players[0].id == id {
      assert !HasPlayer(t, id) by {
        forall k | 0 <= k < |t| ensures t[k].id != id { assert t[k] == players[k + 1]; }
      }
      WithoutAbsent(t, id);
    } else {
      assert DistinctIds(t) by {
        forall i, j | 0 <= i < j < |t| ensures t[i].id != t[j].id { assert t[i] == players[i + 1] && t[j] == players[j + 1]; }
      }
      var k :| 0 <= k < |players| && players[k].id == id;
      assert t[k - 1].id == id;
      WithoutPresent(t, id);
    }
  }

  /** The three tables of the server. */
  datatype Server = Server(rooms: map<string, Room>, userRooms: map<string, string>, roomHosts: map<string, HostInfo>)

  const EmptyServer := Server(map[], map[], map[])

  /** The effect of one handler: the new tables, the socket's new `socket.data.roomId`, and the messages. */
  datatype Step = Step(server: Server, socketRoom: Option<string>, out: seq<Emit>)

  /** A room is well formed: one or two players with distinct ids, `"ready"` when two, `"waiting"` only when one. */
  predicate RoomOk(r: Room)
  {
    1 <= |r.players| <= 2 && DistinctIds(r.players) &&
    (r.status == Waiting ==> |r.players| == 1) &&
    (|r.players| == 2 ==> r.status == Ready)
  }

  /**
   * The invariant of the tables: `roomHosts` has exactly the rooms' ids and
   * records each room's host, every id is a generated one, and every room is
   * well formed.
   */
  predicate Inv(s: Server)
  {
    s.roomHosts.Keys == s.rooms.Keys &&
    forall id :: id in s.rooms ==>
      GeneratedId(id) && RoomOk(s.rooms[id]) &&
      s.roomHosts[id].hostId == s.rooms[id].hostId && s.roomHosts[id].hostName == s.rooms[id].hostName
  }

  /** `createRoom` with `generateRoomId()` returning `roomId`; an existing room of that id is overwritten. */
  function CreateRoomStep(s: Server, u: User, socketRoom: Option<string>, roomId: string): Step
  {
    Step(
      Server(
        s.rooms[roomId := Room(u.id, u.name, [PlayerOf(u)], Waiting)],
        s.userRooms[u.id := roomId],
        s.roomHosts[roomId := HostInfo(u.id, u.name, u.email)]),
      Some(roomId),
      [Emit(Caller, RoomCreated(roomId))])
  }

  /**
   * The error `joinRoom` answers with, if any, checked in the handler's order.
   * A key inherited from `Object.prototype` reads as a truthy non-room, and
   * reading its `players.length` throws into the generic failure.
   */
  function JoinError(s: Server, u: User, roomId: string): Option<string>
  {
    if roomId !in s.rooms then
      if roomId in InheritedKeys then Some(JoinFailed) else Some(RoomNotFound)
    else if |s.rooms[roomId].players| >= 2 then Some(RoomIsFull)
    else if HasPlayer(s.rooms[roomId].players, u.id) then Some(AlreadyInRoom)
    else None
  }

  /** `joinRoom({ roomId })`. */
  function JoinRoomStep(s: Server, u: User, socketRoom: Option<string>, roomId: string): Step
  {
    match JoinError(s, u, roomId)
    case Some(message) => Step(s, socketRoom, [Emit(Caller, JoinRoomError(message))])
    case None =>
      var room := s.rooms[roomId];
      var players := room.players + [PlayerOf(u)];
      var ready := |players| == 2;
      var room' := room.(players := players, status := if ready then Ready else room.status);
      Step(
        Server(s.rooms[roomId := room'], s.userRooms[u.id := roomId], s.roomHosts),
        Some(roomId),
        [Emit(RoomExceptCaller(roomId), PlayerJoined(u.id, u.name, u.email)), Emit(Caller, JoinedRoom(roomId))] +
        (if ready then [Emit(WholeRoom(roomId), RoomReady(players, true, room.hostId))] else []))
  }

  /** `isHostDisconnected`: the room exists and the caller is its host. */
  predicate IsHostOf(s: Server, u: User, roomId: string)
  {
    roomId in s.rooms && s.rooms[roomId].hostId == u.id
  }

  /** The first cleanup of `disconnect`: filter the caller out and delete the room (and its host entry) once empty. */
  function RemoveFromRoom(s: Server, u: User, roomId: string): Server
  {
    if roomId !in s.rooms then s
    else
      var players := Without(s.rooms[roomId].players, u.id);
      if |players| == 0 then Server(s.rooms - {roomId}, s.userRooms, s.roomHosts - {roomId})
      else Server(s.rooms[roomId := s.rooms[roomId].(players := players)], s.userRooms, s.roomHosts)
  }

  /** The second cleanup of `disconnect`: drop the host entry when the host left a room that is gone or empty. */
  function DropHostEntry(s: Server, isHost: bool, roomId: string): Server
  {
    if isHost && (roomId !in s.rooms || |s.rooms[roomId].players| == 0) then s.(roomHosts := s.roomHosts - {roomId})
    else s
  }

  /**
   * `disconnect`, looking the room up through the socket's own `roomId`. A
   * falsy `roomId` makes it a no-op; an inherited key makes the filter throw,
   * and the handler swallows the error before emitting or cleaning up.
   */
  function DisconnectStep(s: Server, u: User, socketRoom: Option<string>): Step
  {
    if !Truthy(socketRoom) then Step(s, socketRoom, [])
    else
      var roomId := socketRoom.value;
      if roomId !in s.rooms && roomId in InheritedKeys then Step(s, socketRoom, [])
      else
        var isHost := IsHostOf(s, u, roomId);
        var s1 := DropHostEntry(RemoveFromRoom(s, u, roomId), isHost, roomId);
        Step(
          s1.(userRooms := s1.userRooms - {u.id}),
          socketRoom,
          [Emit(RoomExceptCaller(roomId), PlayerDisconnected(u.id, u.name, isHost))])
  }

  /** `playerReady(roomId)`: tell the rest of the room. */
  function PlayerReady(u: User, roomId: string): (out: seq<Emit>)
    ensures |out| == 1 && !ReachesCaller(out[0])
    ensures out[0].to == RoomExceptCaller(roomId)
    ensures out[0].event == OpponentReady(u.id, u.name)
  {
    [Emit(RoomExceptCaller(roomId), OpponentReady(u.id, u.name))]
  }

  /** `gameStart(roomId)`: tell the whole room, the sender included. */
  function GameStart(roomId: string): (out: seq<Emit>)
    ensures |out| == 1 && ReachesCaller(out[0]) && out[0].to == WholeRoom(roomId)
    ensures out[0].event == HostStartTheGame
  {
    [Emit(WholeRoom(roomId), HostStartTheGame)]
  }

  /** The `score` of a `scoreUpdate` payload: a number, or a value of another type. */
  datatype ScoreArg = Numeric(n: int) | NonNumeric

  /** `scoreUpdate({ roomId, score })`. */
  function ScoreUpdate(u: User, roomId: Option<string>, score: ScoreArg): (out: seq<Emit>)
    ensures out == [] <==> !Truthy(roomId) || score.NonNumeric?
    ensures forall e :: e in out ==> !ReachesCaller(e)
    ensures out != [] ==>
              out == [Emit(RoomExceptCaller(roomId.value), OpponentScoreUpdate(u.id, u.name, score.n))]
  {
    if !Truthy(roomId) || score.NonNumeric? then []
    else [Emit(RoomExceptCaller(roomId.value), OpponentScoreUpdate(u.id, u.name, score.n))]
  }

  /** `gameEnd({ roomId })`. */
  function GameEnd(u: User, roomId: Option<string>): (out: seq<Emit>)
    ensures out == [] <==> !Truthy(roomId)
    ensures forall e :: e in out ==> !ReachesCaller(e)
    ensures Truthy(roomId) ==> out == [Emit(RoomExceptCaller(roomId.value), OpponentGameEnd(u.id, u.name))]
  {
    if !Truthy(roomId) then [] else [Emit(RoomExceptCaller(roomId.value), OpponentGameEnd(u.id, u.name))]
  }

  /** A join answered with an error leaves every table and the socket's room as they were. */
  lemma JoinErrorChangesNothing(s: Server, u: User, socketRoom: Option<string>, roomId: string)
    requires JoinError(s, u, roomId).Some?
    ensures JoinRoomStep(s, u, socketRoom, roomId) ==
              Step(s, socketRoom, [Emit(Caller, JoinRoomError(JoinError(s, u, roomId).value))])
  {
  }

  /** A full room refuses even a player who is already in it: the size check comes first. */
  lemma FullRoomRefusesMember(s: Server, u: User, roomId: string)
    requires roomId in s.rooms && |s.rooms[roomId].players| == 2 && HasPlayer(s.rooms[roomId].players, u.id)
    ensures JoinError(s, u, roomId) == Some(RoomIsFull)
  {
  }

  /** Appending a player whose id is new keeps ids distinct. */
  lemma AppendDistinct(players: seq<Player>, p: Player)
    requires DistinctIds(players) && !HasPlayer(players, p.id)
    ensures DistinctIds(players + [p])
  {
    var r := players + [p];
    forall i, j | 0 <= i < j < |r| ensures r[i].id != r[j].id {
      if j == |players| {
        assert r[i] == players[i];
      } else {
        assert r[i] == players[i] && r[j] == players[j];
      }
    }
  }

  /**
   * On well-formed tables a join either fails and changes nothing, or
   * succeeds: the caller is appended to a room that had one player, the room
   * becomes `"ready"`, the caller is recorded in `userRooms`, and three
   * messages go out in order: `playerJoined` to the others, `joinedRoom` to
   * the caller, `roomReady` with `canStart` set to the whole room. No other
   * room changes.
   */
  lemma JoinOutcome(s: Server, u: User, socketRoom: Option<string>, roomId: string)
    requires Inv(s)
    ensures var r := JoinRoomStep(s, u, socketRoom, roomId);
            (r.server == s <==> JoinError(s, u, roomId).Some?) &&
            (JoinError(s, u, roomId).None? ==>
               var players := s.rooms[roomId].players + [PlayerOf(u)];
               |s.rooms[roomId].players| == 1 &&
               r.server.rooms == s.rooms[roomId := Room(s.rooms[roomId].hostId, s.rooms[roomId].hostName, players, Ready)] &&
               r.server.userRooms == s.userRooms[u.id := roomId] &&
               r.server.roomHosts == s.roomHosts &&
               r.socketRoom == Some(roomId) &&
               r.out == [Emit(RoomExceptCaller(roomId), PlayerJoined(u.id, u.name, u.email)),
                         Emit(Caller, JoinedRoom(roomId)),
                         Emit(WholeRoom(roomId), RoomReady(players, true, s.rooms[roomId].hostId))])
  {
    var r := JoinRoomStep(s, u, socketRoom, roomId);
    if JoinError(s, u, roomId).None? {
      assert |r.server.rooms[roomId].players| == |s.rooms[roomId].players| + 1;
    }
  }

  /** `createRoom` keeps the tables well formed when the id is a generated one. */
  lemma CreatePreservesInv(s: Server, u: User, socketRoom: Option<string>, roomId: string)
    requires Inv(s) && GeneratedId(roomId)
    ensures Inv(CreateRoomStep(s, u, socketRoom, roomId).server)
  {
  }

  /** `joinRoom` keeps the tables well formed: never a third player, never a player twice. */
  lemma JoinPreservesInv(s: Server, u: User, socketRoom: Option<string>, roomId: string)
    requires Inv(s)
    ensures Inv(JoinRoomStep(s, u, socketRoom, roomId).server)
  {
    if JoinError(s, u, roomId).None? {
      AppendDistinct(s.rooms[roomId].players, PlayerOf(u));
    }
  }

  /**
   * The second `delete roomHosts[roomId]` of `disconnect` never removes
   * anything the first cleanup left: when the host's room is gone, its host
   * entry went with it, and a room that stays has players.
   */
  lemma SecondHostDeleteRedundant(s: Server, u: User, roomId: string)
    ensures DropHostEntry(RemoveFromRoom(s, u, roomId), IsHostOf(s, u, roomId), roomId) == RemoveFromRoom(s, u, roomId)
  {
    var s1 := RemoveFromRoom(s, u, roomId);
    if IsHostOf(s, u, roomId) && roomId !in s1.rooms {
      assert roomId !in s1.roomHosts;
      assert s1.roomHosts - {roomId} == s1.roomHosts;
    }
  }

  /** `disconnect` keeps the tables well formed. */
  lemma DisconnectPreservesInv(s: Server, u: User, socketRoom: Option<string>)
    requires Inv(s)
    ensures Inv(DisconnectStep(s, u, socketRoom).server)
  {
    if Truthy(socketRoom) && !(socketRoom.value !in s.rooms && socketRoom.value in InheritedKeys) {
      var roomId := socketRoom.value;
      SecondHostDeleteRedundant(s, u, roomId);
      if roomId in s.rooms {
        WithoutDistinct(s.rooms[roomId].players, u.id);
      }
    }
  }

  /**
   * On well-formed tables, `disconnect` from a room with a non-empty id removes the caller from
   * it and from `userRooms`; the room is deleted, with its host entry,
   * exactly when the caller was its only player; it keeps its host id
   * otherwise, even when the host is the one who left. No other room, host
   * entry or user's room entry changes.
   */
  lemma DisconnectOutcome(s: Server, u: User, roomId: string)
    requires Inv(s) && roomId in s.rooms && roomId != ""
    ensures var r := DisconnectStep(s, u, Some(roomId));
            var players := s.rooms[roomId].players;
            u.id !in r.server.userRooms &&
            (roomId !in r.server.rooms <==> forall i :: 0 <= i < |players| ==> players[i].id == u.id) &&
            (roomId !in r.server.rooms <==> roomId !in r.server.roomHosts) &&
            (roomId in r.server.rooms ==>
               r.server.rooms[roomId] == s.rooms[roomId].(players := Without(players, u.id)) &&
               !HasPlayer(r.server.rooms[roomId].players, u.id)) &&
            r.out == [Emit(RoomExceptCaller(roomId), PlayerDisconnected(u.id, u.name, s.rooms[roomId].hostId == u.id))]
    ensures var r := DisconnectStep(s, u, Some(roomId));
            r.server.userRooms == s.userRooms - {u.id} &&
            r.server.rooms - {roomId} == s.rooms - {roomId} &&
            r.server.roomHosts - {roomId} == s.roomHosts - {roomId} &&
            (roomId in r.server.roomHosts ==> r.server.roomHosts[roomId] == s.roomHosts[roomId]) &&
            r.socketRoom == Some(roomId)
  {
    GeneratedIdNotInherited(roomId);
    SecondHostDeleteRedundant(s, u, roomId);
    var players := s.rooms[roomId].players;
    var w := Without(players, u.id);
    var s1 := RemoveFromRoom(s, u, roomId);
    assert DisconnectStep(s, u, Some(roomId)).server == s1.(userRooms := s1.userRooms - {u.id});
    if |w| == 0 {
      assert s1 == Server(s.rooms - {roomId}, s.userRooms, s.roomHosts - {roomId});
    } else {
      assert s1 == Server(s.rooms[roomId := s.rooms[roomId].(players := w)], s.userRooms, s.roomHosts);
      assert w[0] in players && w[0].id != u.id;
      var k :| 0 <= k < |players| && players[k] == w[0];
      assert !HasPlayer(w, u.id) by {
        forall i | 0 <= i < |w| ensures w[i].id != u.id { assert w[i] in w; }
      }
    }
  }

  /** A socket that never got a room id (or holds the empty one) disconnects without touching anything. */
  lemma DisconnectWithoutRoom(s: Server, u: User, socketRoom: Option<string>)
    requires !Truthy(socketRoom)
    ensures DisconnectStep(s, u, socketRoom) == Step(s, socketRoom, [])
  {
  }

  /**
   * A socket whose room is already gone: the caller is still dropped from
   * `userRooms` and the room is still told, with `isHostDisconnected` false.
   * Under an inherited property name the lookup is truthy, the filter throws,
   * and the handler stops before any cleanup or message.
   */
  lemma DisconnectRoomGone(s: Server, u: User, roomId: string)
    requires roomId != "" && roomId !in s.rooms
    ensures roomId !in InheritedKeys ==>
              DisconnectStep(s, u, Some(roomId)) ==
                Step(s.(userRooms := s.userRooms - {u.id}), Some(roomId),
                     [Emit(RoomExceptCaller(roomId), PlayerDisconnected(u.id, u.name, false))])
    ensures roomId in InheritedKeys ==> DisconnectStep(s, u, Some(roomId)) == Step(s, Some(roomId), [])
  {
  }

  /** No handler other than `createRoom` changes the host id of a room that exists before and after. */
  lemma HostNeverReassigned(s: Server, u: User, socketRoom: Option<string>, roomId: string, id: string)
    requires id in s.rooms
    ensures var r := JoinRoomStep(s, u, socketRoom, roomId).server;
            id in r.rooms ==> r.rooms[id].hostId == s.rooms[id].hostId
    ensures var r := DisconnectStep(s, u, socketRoom).server;
            id in r.rooms ==> r.rooms[id].hostId == s.rooms[id].hostId
    ensures var r := CreateRoomStep(s, u, socketRoom, roomId).server;
            id != roomId ==> r.rooms[id] == s.rooms[id]
  {
  }

  /**
   * Creating a room under a fresh id and disconnecting right away gives the
   * rooms and host tables back unchanged and forgets the caller; under the
   * empty id, which `disconnect` treats as no room, the room stays behind.
   */
  lemma CreateThenDisconnect(s: Server, u: User, socketRoom: Option<string>, roomId: string)
    requires Inv(s) && GeneratedId(roomId) && roomId !in s.rooms
    ensures var s1 := CreateRoomStep(s, u, socketRoom, roomId);
            var s2 := DisconnectStep(s1.server, u, s1.socketRoom).server;
            (roomId != "" ==> s2 == Server(s.rooms, s.userRooms - {u.id}, s.roomHosts)) &&
            (roomId == "" ==> s2 == s1.server && roomId in s2.rooms)
  {
    var s1 := CreateRoomStep(s, u, socketRoom, roomId);
    if roomId != "" {
      GeneratedIdNotInherited(roomId);
      assert Without([PlayerOf(u)], u.id) == [];
      assert s1.server.rooms - {roomId} == s.rooms;
      assert s1.server.roomHosts - {roomId} == s.roomHosts;
      assert s1.server.userRooms - {u.id} == s.userRooms - {u.id};
    }
  }

  /** Filtering distributes over concatenation. */
  lemma {:induction false} WithoutAppend(a: seq<Player>, b: seq<Player>, id: string)
    ensures Without(a + b, id) == Without(a, id) + Without(b, id)
    decreases |a|
  {
    if a != [] {
      assert (a + b)[1..] == a[1..] + b;
      WithoutAppend(a[1..], b, id);
    } else {
      assert a + b == b;
    }
  }

  /**
   * A guest who joins and then disconnects gives the room its players back,
   * but the room stays `"ready"`: nothing resets its status to `"waiting"`.
   */
  lemma JoinThenDisconnect(s: Server, u: User, socketRoom: Option<string>, roomId: string)
    requires Inv(s) && JoinError(s, u, roomId).None? && roomId != ""
    ensures var s1 := JoinRoomStep(s, u, socketRoom, roomId);
            var s2 := DisconnectStep(s1.server, u, s1.socketRoom).server;
            s2 == Server(s.rooms[roomId := s.rooms[roomId].(status := Ready)], s.userRooms - {u.id}, s.roomHosts)
  {
    var players := s.rooms[roomId].players;
    GeneratedIdNotInherited(roomId);
    WithoutAppend(players, [PlayerOf(u)], u.id);
    WithoutAbsent(players, u.id);
    assert Without([PlayerOf(u)], u.id) == [];
    assert Without(players + [PlayerOf(u)], u.id) == players;
    var room := s.rooms[roomId];
    var s1 := JoinRoomStep(s, u, socketRoom, roomId);
    var joined := Room(room.hostId, room.hostName, players + [PlayerOf(u)], Ready);
    assert s1.server == Server(s.rooms[roomId := joined], s.userRooms[u.id := roomId], s.roomHosts);
    SecondHostDeleteRedundant(s1.server, u, roomId);
    var s2 := RemoveFromRoom(s1.server, u, roomId);
    assert s2 == Server(s.rooms[roomId := joined][roomId := joined.(players := players)], s.userRooms[u.id := roomId], s.roomHosts);
    assert s.rooms[roomId := joined][roomId := joined.(players := players)] == s.rooms[roomId := room.(status := Ready)];
    assert s1.server.userRooms - {u.id} == s.userRooms - {u.id};
  }

  /** One request to the server, with the id `generateRoomId` returned for `createRoom`. */
  datatype Request =
    | CreateRequest(user: User, roomId: string)
    | JoinRequest(user: User, roomId: string)
    | DisconnectRequest(user: User, socketRoom: Option<string>)

  function Apply(s: Server, req: Request): Server
  {
    match req
    case CreateRequest(u, roomId) => CreateRoomStep(s, u, None, roomId).server
    case JoinRequest(u, roomId) => JoinRoomStep(s, u, None, roomId).server
    case DisconnectRequest(u, socketRoom) => DisconnectStep(s, u, socketRoom).server
  }

  /** The tables after handling `reqs` in order. */
  function Run(s: Server, reqs: seq<Request>): Server
    decreases |reqs|
  {
    if reqs == [] then s else Run(Apply(s, reqs[0]), reqs[1..])
  }

  /** Every `createRoom` request uses an id `generateRoomId` can produce. */
  predicate GeneratedRequests(reqs: seq<Request>)
  {
    forall i :: 0 <= i < |reqs| && reqs[i].CreateRequest? ==> GeneratedId(reqs[i].roomId)
  }

  /** Any sequence of requests keeps the tables well formed. */
  lemma {:induction false} RunPreservesInv(s: Server, reqs: seq<Request>)
    requires Inv(s) && GeneratedRequests(reqs)
    ensures Inv(Run(s, reqs))
    decreases |reqs|
  {
    if reqs != [] {
      match reqs[0] {
        case CreateRequest(u, roomId) => CreatePreservesInv(s, u, None, roomId);
        case JoinRequest(u, roomId) => JoinPreservesInv(s, u, None, roomId);
        case DisconnectRequest(u, socketRoom) => DisconnectPreservesInv(s, u, socketRoom);
      }
      assert GeneratedRequests(reqs[1..]) by {
        forall i | 0 <= i < |reqs[1..]| && reqs[1..][i].CreateRequest? ensures GeneratedId(reqs[1..][i].roomId) {
          assert reqs[1..][i] == reqs[i + 1];
        }
      }
      RunPreservesInv(Apply(s, reqs[0]), reqs[1..]);
    }
  }

  /**
   * From a fresh server, whatever the requests, every room has one or two
   * players with distinct ids and a host entry naming its host.
   */
  lemma RoomsStayWellFormed(reqs: seq<Request>)
    requires GeneratedRequests(reqs)
    ensures var s := Run(EmptyServer, reqs);
            forall id :: id in s.rooms ==>
              1 <= |s.rooms[id].players| <= 2 && DistinctIds(s.rooms[id].players) &&
              id in s.roomHosts && s.roomHosts[id].hostId == s.rooms[id].hostId
  {
    RunPreservesInv(EmptyServer, reqs);
  }

  /** `players.find(p => p.id === id)`. */
  method FindPlayer(players: seq<Player>, id: string) returns (found: Option<Player>)
    ensures found.Some? <==> HasPlayer(players, id)
    ensures found.Some? ==> found.value in players && found.value.id == id
    ensures found.Some? ==> exists k :: 0 <= k < |players| && players[k] == found.value &&
                              forall j :: 0 <= j < k ==> players[j].id != id
  {
    var i := 0;
    while i < |players|
      invariant 0 <= i <= |players|
      invariant forall j :: 0 <= j < i ==> players[j].id != id
    {
      if players[i].id == id {
        return Some(players[i]);
      }
      i := i + 1;
    }
    return None;
  }

  /** A connected socket: its authenticated user and its `socket.data.roomId`. */
  class Connection {
    const user: User
    var roomId: Option<string>

    /** A socket the authentication middleware let through: its user is the one built from the handshake. */
    constructor(h: Handshake)
      requires Authenticate(h).Ok?
      ensures user == Authenticate(h).value && user.id != "" && roomId == None
    {
      user := Authenticate(h).value;
      roomId := None;
    }
  }

  /** The server process: the three tables the handlers update in place. */
  class Coordinator {
    var rooms: map<string, Room>
    var userRooms: map<string, string>
    var roomHosts: map<string, HostInfo>

    function State(): Server
      reads this
    {
      Server(rooms, userRooms, roomHosts)
    }

    predicate Valid()
      reads this
    {
      Inv(State())
    }

    constructor()
      ensures State() == EmptyServer && Valid()
    {
      rooms := map[];
      userRooms := map[];
      roomHosts := map[];
    }

    /** `createRoom`, with `roomId` the value `generateRoomId()` returned. */
    method CreateRoom(c: Connection, roomId: string) returns (out: seq<Emit>)
      requires Valid() && GeneratedId(roomId)
      modifies this, c
      ensures Valid()
      ensures var r := CreateRoomStep(old(State()), c.user, old(c.roomId), roomId);
              State() == r.server && c.roomId == r.socketRoom && out == r.out
    {
      CreatePreservesInv(State(), c.user, c.roomId, roomId);
      rooms := rooms[roomId := Room(c.user.id, c.user.name, [PlayerOf(c.user)], Waiting)];
      c.roomId := Some(roomId);
      userRooms := userRooms[c.user.id := roomId];
      roomHosts := roomHosts[roomId := HostInfo(c.user.id, c.user.name, c.user.email)];
      out := [Emit(Caller, RoomCreated(roomId))];
    }

    /** `joinRoom({ roomId })`. */
    method JoinRoom(c: Connection, roomId: string) returns (out: seq<Emit>)
      requires Valid()
      modifies this, c
      ensures Valid()
      ensures var r := JoinRoomStep(old(State()), c.user, old(c.roomId), roomId);
              State() == r.server && c.roomId == r.socketRoom && out == r.out
    {
      JoinPreservesInv(State(), c.user, c.roomId, roomId);
      if roomId !in rooms {
        out := [Emit(Caller, JoinRoomError(if roomId in InheritedKeys then JoinFailed else RoomNotFound))];
        return;
      }
      if |rooms[roomId].players| >= 2 {
        out := [Emit(Caller, JoinRoomError(RoomIsFull))];
        return;
      }
      var existing := FindPlayer(rooms[roomId].players, c.user.id);
      if existing.Some? {
        out := [Emit(Caller, JoinRoomError(AlreadyInRoom))];
        return;
      }
      assert JoinError(old(State()), c.user, roomId).None?;
      ghost var room := rooms[roomId];
      rooms := rooms[roomId := rooms[roomId].(players := rooms[roomId].players + [PlayerOf(c.user)])];
      c.roomId := Some(roomId);
      userRooms := userRooms[c.user.id := roomId];
      out := [Emit(RoomExceptCaller(roomId), PlayerJoined(c.user.id, c.user.name, c.user.email)), Emit(Caller, JoinedRoom(roomId))];
      if |rooms[roomId].players| == 2 {
        rooms := rooms[roomId := rooms[roomId].(status := Ready)];
        assert rooms == old(rooms)[roomId := room.(players := room.players + [PlayerOf(c.user)], status := Ready)];
        out := out + [Emit(WholeRoom(roomId), RoomReady(rooms[roomId].players, true, rooms[roomId].hostId))];
      }
    }

    /** `disconnect`: clean up the room the socket last created or joined. */
    method Disconnect(c: Connection) returns (out: seq<Emit>)
      requires Valid()
      modifies this
      ensures Valid()
      ensures var r := DisconnectStep(old(State()), c.user, c.roomId);
              State() == r.server && out == r.out
    {
      DisconnectPreservesInv(State(), c.user, c.roomId);
      ghost var r := DisconnectStep(State(), c.user, c.roomId);
      if !Truthy(c.roomId) {
        return [];
      }
      var roomId := c.roomId.value;
      if roomId !in rooms && roomId in InheritedKeys {
        return [];
      }
      ghost var s0 := State();
      var isHost := roomId in rooms && rooms[roomId].hostId == c.user.id;
      if roomId in rooms {
        rooms := rooms[roomId := rooms[roomId].(players := Without(rooms[roomId].players, c.user.id))];
        if |rooms[roomId].players| == 0 {
          rooms := rooms - {roomId};
          roomHosts := roomHosts - {roomId};
          assert rooms == s0.rooms - {roomId};
        }
      }
      assert State() == RemoveFromRoom(s0, c.user, roomId);
      SecondHostDeleteRedundant(s0, c.user, roomId);
      if isHost && (roomId !in rooms || |rooms[roomId].players| == 0) {
        roomHosts := roomHosts - {roomId};
      }
      out := [Emit(RoomExceptCaller(roomId), PlayerDisconnected(c.user.id, c.user.name, isHost))];
      userRooms := userRooms - {c.user.id};
      assert State() == r.server;
    }
  }
}
