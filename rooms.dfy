/**
 * The room coordinator of the game server (server/server.js): an in-memory table of
 * rooms, the user <-> socket maps, and the socket handlers that create, join, leave and
 * start rooms, assign attack targets, relay garbage and game states, detect the winner
 * and restart a match once every player has acknowledged.
 *
 * Every handler is a method of Coordinator that updates its fields like the handler
 * updates the server's maps; what the handler emits is appended to `events`, with its
 * audience. Randomness is passed in: the room id, the target picks for three or more
 * players and the 30% chance of garbage for a single line.
 */
module Rooms {
  import opened Wrappers

  type UserId = string
  type SocketId = string
  type RoomId = string

  /** A room's status. The code sets only 'waiting' and 'playing'. */
  datatype Status = Waiting | Playing

  /** An entry of a room's players map. */
  datatype Player = Player(userId: UserId, name: string, socketId: SocketId)

  /** An entry of a room's gameStates map: of the relayed game state only its
      isGameOver flag is kept. */
  datatype Entry = Entry(userId: UserId, isGameOver: bool)

  /** A room. The players and gameStates maps are sequences in insertion order; armed
      says that the room holds a live re-targeting interval. */
  datatype Room = Room(
    id: RoomId, name: string, isPrivate: bool, password: string, maxPlayers: int,
    status: Status, hostId: Option<UserId>, players: seq<Player>, gameStates: seq<Entry>,
    isGameStarted: bool, isGameFinished: bool, movedToTetris: set<UserId>,
    playersRestarted: set<UserId>, targetMap: Option<map<UserId, UserId>>, armed: bool)

  /** An entry of getPublicRoomList. */
  datatype Summary = Summary(id: RoomId, name: string, isPrivate: bool, maxPlayers: int,
                             status: Status, participantCount: nat, hostId: Option<UserId>)

  /** The room as roomCreated and joinRoomSuccess describe it. */
  datatype View = View(id: RoomId, name: string, isPrivate: bool, maxPlayers: int,
                       status: Status, hostId: Option<UserId>, players: seq<Player>)

  /** Who an emit reaches: one socket, a socket.io room, a room but the sender, everyone. */
  datatype Audience = ToSocket(socket: SocketId) | ToRoom(room: RoomId)
                    | ToRoomExcept(room: RoomId, except: SocketId) | ToEveryone

  /** The reasons joinRoom refuses, in the order it checks them. */
  datatype JoinError = NoSuchRoom | NotWaiting | RoomFull | WrongPassword | MissingIdentity

  /** The reasons startGame refuses, in the order it checks them. */
  datatype StartError = NoRoom | NotHost | AlreadyStarted | TooFewPlayers

  /** What the server emits. */
  datatype Message =
    | RoomListResponse(list: seq<Summary>)
    | RoomCreateError
    | RoomCreated(roomId: RoomId, room: View)
    | RoomListUpdated
    | JoinRoomError(reason: JoinError)
    | JoinRoomSuccess(roomId: RoomId, room: View)
    | PlayerJoined(roomId: RoomId, userId: UserId, nickname: string, hostId: Option<UserId>, players: seq<Player>)
    | PlayerLeft(roomId: RoomId, userId: UserId, hostId: Option<UserId>, players: seq<Player>)
    | PlayerDisconnect(userId: UserId)
    | GameStartError(roomId: RoomId, error: StartError)
    | TargetAssigned(targetId: UserId, targetName: Option<string>)
    | MoveToTetrisPage(roomId: RoomId)
    | GameStart
    | GameStartSuccess(roomId: RoomId, participantCount: nat)
    | ReceiveGarbage(lines: nat)
    | GameStateUpdate(playerId: UserId, playerName: Option<string>, isGameOver: bool)
    | PlayerGameOver(playerId: UserId, score: int)
    | GameWin(winner: UserId, winnerName: Option<string>, players: seq<Player>)
    | PlayerRestarted(playerId: UserId, playerName: Option<string>, restartedCount: nat, totalPlayers: nat)
    | GameRestart

  /** One emit. */
  datatype Event = Event(to: Audience, msg: Message)

  // ---------------------------------------------------------------------------
  // The players map
  // ---------------------------------------------------------------------------

  /** The keys of the players map, in insertion order. */
  function Ids(ps: seq<Player>): (ids: seq<UserId>)
    ensures |ids| == |ps| && forall i :: 0 <= i < |ps| ==> ids[i] == ps[i].userId
  {
    if ps == [] then [] else [ps[0].userId] + Ids(ps[1..])
  }

  /** No user id occurs twice: the sequence is a map. */
  predicate Distinct(ps: seq<Player>)
  {
    forall i, j :: 0 <= i < j < |ps| ==> ps[i].userId != ps[j].userId
  }

  /** players.get(u)?.name */
  function NameOf(ps: seq<Player>, u: UserId): (n: Option<string>)
    ensures n.Some? <==> u in Ids(ps)
  {
    if ps == [] then None
    else if ps[0].userId == u then Some(ps[0].name)
    else NameOf(ps[1..], u)
  }

  /** The keys of an entry followed by a map. */
  lemma IdsCons(p: Player, ps: seq<Player>)
    ensures Ids([p] + ps) == [p.userId] + Ids(ps)
  {
    assert ([p] + ps)[1..] == ps;
  }

  /** players.set(p.userId, p): an existing entry is replaced where it stands, a new one
      goes at the end. */
  function Upsert(ps: seq<Player>, p: Player): (r: seq<Player>)
    ensures forall v :: v in Ids(r) <==> v in Ids(ps) || v == p.userId
    ensures |r| == if p.userId in Ids(ps) then |ps| else |ps| + 1
  {
    if ps == [] then [p]
    else if ps[0].userId == p.userId then
      IdsCons(p, ps[1..]);
      [p] + ps[1..]
    else
      IdsCons(ps[0], Upsert(ps[1..], p));
      [ps[0]] + Upsert(ps[1..], p)
  }

  /** players.delete(u). */
  function Without(ps: seq<Player>, u: UserId): (r: seq<Player>)
    ensures forall v :: v in Ids(r) <==> v in Ids(ps) && v != u
    ensures |r| <= |ps|
  {
    if ps == [] then []
    else if ps[0].userId == u then Without(ps[1..], u)
    else
      IdsCons(ps[0], Without(ps[1..], u));
      [ps[0]] + Without(ps[1..], u)
  }

  /** An entry whose key the map lacks, followed by the map, is a map. */
  lemma ConsDistinct(p: Player, ps: seq<Player>)
    requires Distinct(ps) && p.userId !in Ids(ps)
    ensures Distinct([p] + ps)
  {
    var r := [p] + ps;
    forall i, j | 0 <= i < j < |r|
      ensures r[i].userId != r[j].userId
    {
      assert r[j] == ps[j - 1];
      if i > 0 {
        assert r[i] == ps[i - 1];
      }
    }
  }

  /** Setting a player keeps the players map a map. */
  lemma {:induction false} UpsertDistinct(ps: seq<Player>, p: Player)
    requires Distinct(ps)
    ensures Distinct(Upsert(ps, p))
  {
    if ps != [] && ps[0].userId != p.userId {
      var rest := Upsert(ps[1..], p);
      UpsertDistinct(ps[1..], p);
      var r := [ps[0]] + rest;
      assert Upsert(ps, p) == r;
      assert ps[0].userId !in Ids(ps[1..]);
      ConsDistinct(ps[0], rest);
    }
  }

  /** Deleting a player keeps the players map a map, removes exactly one entry of a
      member and keeps the others in order: the first remaining entry is the first entry
      that is not u's. */
  lemma {:induction false} WithoutMember(ps: seq<Player>, u: UserId)
    requires Distinct(ps) && u in Ids(ps)
    ensures var r := Without(ps, u);
      Distinct(r) && |r| == |ps| - 1 &&
      (|r| > 0 ==> r[0] == if ps[0].userId == u then ps[1] else ps[0])
  {
    if ps[0].userId == u {
      WithoutAbsent(ps[1..], u);
    } else {
      var rest := Without(ps[1..], u);
      WithoutMember(ps[1..], u);
      var r := [ps[0]] + rest;
      assert Without(ps, u) == r;
      assert ps[0].userId !in Ids(ps[1..]);
      ConsDistinct(ps[0], rest);
    }
  }

  /** Deleting a user id that is not a key changes nothing. */
  lemma {:induction false} WithoutAbsent(ps: seq<Player>, u: UserId)
    requires Distinct(ps) && u !in Ids(ps)
    ensures Without(ps, u) == ps
  {
    if ps != [] {
      WithoutAbsent(ps[1..], u);
    }
  }

  /** The keys of the players map, as a set. */
  ghost function IdSet(ps: seq<Player>): set<UserId>
  {
    set v | v in Ids(ps)
  }

  /** The number of distinct keys is the number of entries. */
  lemma {:induction false} DistinctCount(ps: seq<Player>)
    requires Distinct(ps)
    ensures |IdSet(ps)| == |ps|
  {
    if ps != [] {
      DistinctCount(ps[1..]);
      assert Ids(ps) == [ps[0].userId] + Ids(ps[1..]);
      assert IdSet(ps) == {ps[0].userId} + IdSet(ps[1..]);
      assert ps[0].userId !in IdSet(ps[1..]) by {
        forall i | 0 <= i < |ps| - 1 ensures Ids(ps[1..])[i] != ps[0].userId {
          assert Ids(ps[1..])[i] == ps[i + 1].userId;
        }
      }
    }
  }

  /** The order list with id removed: rooms.delete(id) on the insertion order. */
  function Dropped(order: seq<RoomId>, id: RoomId): (r: seq<RoomId>)
    ensures forall x :: x in r <==> x in order && x != id
  {
    if order == [] then []
    else if order[0] == id then Dropped(order[1..], id)
    else [order[0]] + Dropped(order[1..], id)
  }

  /** No id occurs twice. */
  predicate NoRepeats(order: seq<string>)
  {
    forall i, j :: 0 <= i < j < |order| ==> order[i] != order[j]
  }

  /** Removing an id keeps the order free of repeats. */
  lemma {:induction false} DroppedUnique(order: seq<RoomId>, id: RoomId)
    requires NoRepeats(order)
    ensures NoRepeats(Dropped(order, id))
  {
    if order != [] {
      var rest := Dropped(order[1..], id);
      DroppedUnique(order[1..], id);
      if order[0] != id {
        var r := [order[0]] + rest;
        assert order[0] !in order[1..] by {
          forall k | 0 <= k < |order[1..]| ensures order[1..][k] != order[0] {
            assert order[1..][k] == order[k + 1];
          }
        }
        forall i, j | 0 <= i < j < |r|
          ensures r[i] != r[j]
        {
          assert r[j] == rest[j - 1] && rest[j - 1] in rest;
          if i > 0 {
            assert r[i] == rest[i - 1];
          }
        }
      }
    }
  }

  // ---------------------------------------------------------------------------
  // The gameStates map
  // ---------------------------------------------------------------------------

  /** gameStates.set(u, state with isGameOver b): an existing entry is replaced where it
      stands, a new one goes at the end. */
  function SetState(es: seq<Entry>, u: UserId, b: bool): (r: seq<Entry>)
    ensures Entry(u, b) in r
  {
    if es == [] then [Entry(u, b)]
    else if es[0].userId == u then [Entry(u, b)] + es[1..]
    else [es[0]] + SetState(es[1..], u, b)
  }

  /** The ids of the entries, in order, that belong to a member and are not over: the
      players gameOver counts as active. */
  function Survivors(es: seq<Entry>, ps: seq<Player>): seq<UserId>
  {
    if es == [] then []
    else
      var e := es[|es| - 1];
      Survivors(es[..|es| - 1], ps) + if e.userId in Ids(ps) && !e.isGameOver then [e.userId] else []
  }

  /** Every survivor is a member whose stored state is not over. */
  lemma {:induction false} SurvivorsSpec(es: seq<Entry>, ps: seq<Player>)
    ensures forall k :: 0 <= k < |Survivors(es, ps)| ==>
      Survivors(es, ps)[k] in Ids(ps) && Entry(Survivors(es, ps)[k], false) in es
  {
    if es != [] {
      var init := es[..|es| - 1];
      SurvivorsSpec(init, ps);
      assert forall k :: 0 <= k < |Survivors(init, ps)| ==> Entry(Survivors(init, ps)[k], false) in init;
      assert forall x :: x in init ==> x in es;
    }
  }

  /** The entries after restartGame's loop: every stored state is no longer over. */
  function Revived(es: seq<Entry>): (r: seq<Entry>)
  {
    seq(|es|, i requires 0 <= i < |es| => es[i].(isGameOver := false))
  }

  // ---------------------------------------------------------------------------
  // The server state and its invariant
  // ---------------------------------------------------------------------------

  /** The server's maps: the room table with its insertion order, the live re-targeting
      intervals (by room), userSocketMap, socketUserMap and the emits so far. */
  datatype Server = Server(rooms: map<RoomId, Room>, order: seq<RoomId>, timers: set<RoomId>,
                           userSocket: map<UserId, SocketId>, socketUser: map<SocketId, UserId>,
                           events: seq<Event>)

  /** No attacker targets itself. */
  predicate NoSelfTarget(m: map<UserId, UserId>)
  {
    forall a :: a in m ==> m[a] != a
  }

  /** Every target in m is one of ids. */
  predicate AimsWithin(m: map<UserId, UserId>, ids: seq<UserId>)
  {
    forall a :: a in m ==> m[a] in ids
  }

  /** A room in the table: stored under its own id, never empty, a map of players with
      non-empty ids, hosted by a member, 'playing' exactly while the game is started and
      exactly then holding a live interval, not started once finished, no self targets,
      and no more players than maxPlayers unless its creator alone. */
  predicate RoomOK(id: RoomId, r: Room)
  {
    r.id == id && |r.players| >= 1 && Distinct(r.players) && "" !in Ids(r.players) &&
    r.hostId.Some? && r.hostId.value in Ids(r.players) &&
    (r.status == Playing <==> r.isGameStarted) && (r.armed <==> r.isGameStarted) &&
    (r.isGameFinished ==> !r.isGameStarted) &&
    (r.targetMap.Some? ==> NoSelfTarget(r.targetMap.value)) &&
    (|r.players| <= r.maxPlayers || |r.players| == 1)
  }

  /** The server invariant: every room is sound, the order lists exactly the rooms once
      each, and the live intervals are exactly those of the armed rooms. */
  ghost predicate Inv(s: Server)
  {
    TableOK(s.rooms, s.order, s.timers)
  }

  /** The room table, its order and the live intervals are sound together. */
  ghost predicate TableOK(rooms: map<RoomId, Room>, order: seq<RoomId>, timers: set<RoomId>)
  {
    (forall id :: id in rooms ==> RoomOK(id, rooms[id])) &&
    (forall id :: id in rooms <==> id in order) &&
    NoRepeats(order) &&
    (forall id :: id in timers <==> id in rooms && rooms[id].armed)
  }

  /** The server at start-up. */
  function Boot(): Server
  {
    Server(map[], [], {}, map[], map[], [])
  }

  /** socketUserMap.get(socket), when it is a (truthy) user id. */
  function Caller(s: Server, socket: SocketId): Option<UserId>
  {
    if socket in s.socketUser && s.socketUser[socket] != "" then Some(s.socketUser[socket]) else None
  }

  /** r differs from s at most in room id and its interval, and only appends emits:
      the table keeps its ids and order, and every other room is unchanged. */
  predicate OnlyRoom(s: Server, r: Server, id: RoomId)
  {
    s.events <= r.events && r.order == s.order && r.rooms.Keys == s.rooms.Keys &&
    r.timers - {id} == s.timers - {id} &&
    forall k :: k in s.rooms && k != id ==> r.rooms[k] == s.rooms[k]
  }

  /** r keeps no room, interval or binding s does not have, only appends emits, and
      leaves every room it keeps, other than id, unchanged. */
  predicate Shrunk(s: Server, r: Server, id: RoomId)
  {
    s.events <= r.events && r.rooms.Keys <= s.rooms.Keys && r.timers <= s.timers &&
    forall k :: k in r.rooms && k != id ==> r.rooms[k] == s.rooms[k]
  }

  /** s with es emitted. */
  function Emitted(s: Server, es: seq<Event>): Server
  {
    s.(events := s.events + es)
  }

  /** s with room r stored under id. */
  function Stored(s: Server, id: RoomId, r: Room): Server
  {
    s.(rooms := s.rooms[id := r])
  }

  // ---------------------------------------------------------------------------
  // The handlers
  // ---------------------------------------------------------------------------

  /** getPublicRoomList: one summary per room, in insertion order. */
  function RoomList(s: Server): seq<Summary>
    requires forall id :: id in s.order ==> id in s.rooms
  {
    seq(|s.order|, i requires 0 <= i < |s.order| => SummaryOf(s.order[i], s.rooms[s.order[i]]))
  }

  /** A room's entry in the list. */
  function SummaryOf(id: RoomId, r: Room): Summary
  {
    Summary(id, r.name, r.isPrivate, r.maxPlayers, r.status, |r.players|, r.hostId)
  }

  /** A room as roomCreated and joinRoomSuccess describe it. */
  function ViewOf(r: Room): View
  {
    View(r.id, r.name, r.isPrivate, r.maxPlayers, r.status, r.hostId, r.players)
  }

  /** The room createRoom makes: the default name is "방-" followed by the id, a public
      room has no password, a maxPlayers of 0 means 6, and the creator is the sole player
      and the host of a waiting room. */
  function NewRoom(roomId: RoomId, roomName: string, maxPlayers: int, isPrivate: bool,
                   password: string, userId: UserId, nickname: string, socket: SocketId): Room
  {
    Room(roomId, if roomName == "" then "방-" + roomId else roomName, isPrivate,
         if isPrivate then password else "", if maxPlayers == 0 then 6 else maxPlayers,
         Waiting, Some(userId), [Player(userId, nickname, socket)], [], false, false, {}, {},
         None, false)
  }

  /** createRoom: without a user id or a nickname only an error goes back; otherwise the
      new room is stored under the generated id, the user is bound to the socket, and the
      creator and then everyone are told. */
  function AfterCreate(s: Server, socket: SocketId, roomId: RoomId, roomName: string, maxPlayers: int,
                       isPrivate: bool, password: string, userId: UserId, nickname: string): (r: Server)
    ensures s.events <= r.events && r.timers == s.timers
    ensures forall k :: k in s.rooms && k != roomId ==> k in r.rooms && r.rooms[k] == s.rooms[k]
    ensures roomId in r.rooms <==> roomId in s.rooms || (userId != "" && nickname != "")
    ensures userId != "" && nickname != "" ==>
      Ids(r.rooms[roomId].players) == [userId] && r.rooms[roomId].hostId == Some(userId) &&
      userId in r.userSocket && r.userSocket[userId] == socket && socket in r.socketUser && r.socketUser[socket] == userId
  {
    if userId == "" || nickname == "" then Emitted(s, [Event(ToSocket(socket), RoomCreateError)])
    else
      var r := NewRoom(roomId, roomName, maxPlayers, isPrivate, password, userId, nickname, socket);
      var t := Bound(s.(rooms := s.rooms[roomId := r], order := s.order + [roomId]), userId, socket);
      Emitted(t, [Event(ToSocket(socket), RoomCreated(roomId, ViewOf(r))), Event(ToEveryone, RoomListUpdated)])
  }

  /** userSocketMap.set(u, socket) and socketUserMap.set(socket, u). */
  function Bound(s: Server, u: UserId, socket: SocketId): Server
  {
    s.(userSocket := s.userSocket[u := socket], socketUser := s.socketUser[socket := u])
  }

  /** The checks of joinRoom, in its order: the room exists, is waiting, is not full,
      the password matches a private room's, and the request names a user. */
  function JoinCheck(s: Server, roomId: RoomId, userId: UserId, nickname: string, password: string): (e: Option<JoinError>)
    ensures e.None? <==>
      roomId in s.rooms && s.rooms[roomId].status == Waiting &&
      |s.rooms[roomId].players| < s.rooms[roomId].maxPlayers &&
      (!s.rooms[roomId].isPrivate || s.rooms[roomId].password == password) && userId != "" && nickname != ""
    ensures e == Some(NoSuchRoom) <==> roomId !in s.rooms
    ensures e == Some(MissingIdentity) ==> userId == "" || nickname == ""
  {
    if roomId !in s.rooms then Some(NoSuchRoom)
    else
      var r := s.rooms[roomId];
      if r.status != Waiting then Some(NotWaiting)
      else if |r.players| >= r.maxPlayers then Some(RoomFull)
      else if r.isPrivate && r.password != password then Some(WrongPassword)
      else if userId == "" || nickname == "" then Some(MissingIdentity)
      else None
  }

  /** The room after a join: the player is set, and becomes host when there is none or
      the host is not a member. */
  function Joined(r: Room, userId: UserId, nickname: string, socket: SocketId): Room
  {
    var ps := Upsert(r.players, Player(userId, nickname, socket));
    r.(players := ps, hostId := if r.hostId.None? || r.hostId.value !in Ids(ps) then Some(userId) else r.hostId)
  }

  /** joinRoom: a refused join only answers the error; otherwise the user is bound to the
      socket and set in the room, the joiner, the others and everyone are told. */
  function AfterJoin(s: Server, socket: SocketId, roomId: RoomId, userId: UserId, nickname: string,
                     password: string): (r: Server)
    ensures OnlyRoom(s, r, roomId) && r.timers == s.timers
  {
    match JoinCheck(s, roomId, userId, nickname, password)
    case Some(e) => Emitted(s, [Event(ToSocket(socket), JoinRoomError(e))])
    case None =>
      var r := Joined(s.rooms[roomId], userId, nickname, socket);
      Emitted(Stored(Bound(s, userId, socket), roomId, r),
              [Event(ToSocket(socket), JoinRoomSuccess(roomId, ViewOf(r))),
               Event(ToRoomExcept(roomId, socket), PlayerJoined(roomId, userId, nickname, r.hostId, r.players)),
               Event(ToEveryone, RoomListUpdated)])
  }

  /** The room after user u leaves: a departing host hands over to the first remaining
      player in insertion order, or to nobody. */
  function Departed(r: Room, u: UserId): Room
  {
    var ps := Without(r.players, u);
    r.(players := ps,
       hostId := if r.hostId == Some(u) then (if |ps| > 0 && ps[0].userId != "" then Some(ps[0].userId) else None)
                 else r.hostId)
  }

  /** A member u leaves room id (leaveRoom and each room of disconnect): the room is told;
      an emptied room has its interval cleared and is deleted, and everyone is told. */
  function AfterDepart(s: Server, id: RoomId, u: UserId): (r: Server)
    requires id in s.rooms
    ensures Shrunk(s, r, id) && r.userSocket == s.userSocket && r.socketUser == s.socketUser
  {
    var r := Departed(s.rooms[id], u);
    var t := Emitted(s, [Event(ToRoom(id), PlayerLeft(id, u, r.hostId, r.players)), Event(ToRoom(id), PlayerDisconnect(u))]);
    if |r.players| == 0 then Closed(t, id, r.armed) else Stored(t, id, r)
  }

  /** An empty room is deleted, its interval cleared first. */
  function Closed(s: Server, id: RoomId, armed: bool): Server
  {
    Emitted(s.(timers := if armed then s.timers - {id} else s.timers, rooms := s.rooms - {id},
               order := Dropped(s.order, id)),
            [Event(ToEveryone, RoomListUpdated)])
  }

  /** leaveRoom: ignored unless the room exists and u is in it; everyone is told of the
      change. */
  function AfterLeave(s: Server, roomId: RoomId, u: UserId): (r: Server)
    ensures Shrunk(s, r, roomId) && r.userSocket == s.userSocket && r.socketUser == s.socketUser
  {
    if roomId !in s.rooms || u !in Ids(s.rooms[roomId].players) then s
    else
      var t := AfterDepart(s, roomId, u);
      if roomId in t.rooms then Emitted(t, [Event(ToEveryone, RoomListUpdated)]) else t
  }

  /** disconnect: the socket's user is unbound (its own socket entry only if it still
      points at this socket) and leaves every room it is in, in insertion order. */
  function AfterDisconnect(s: Server, socket: SocketId): (r: Server)
    ensures s.events <= r.events && r.rooms.Keys <= s.rooms.Keys && r.timers <= s.timers
    ensures Caller(s, socket).Some? ==> socket !in r.socketUser
  {
    match Caller(s, socket)
    case None => s
    case Some(u) =>
      var t := s.(socketUser := s.socketUser - {socket},
                  userSocket := if u in s.userSocket && s.userSocket[u] == socket then s.userSocket - {u} else s.userSocket);
      DepartAll(t, u, s.order)
  }

  /** The loop of disconnect over the rooms in ids. */
  function DepartAll(s: Server, u: UserId, ids: seq<RoomId>): (r: Server)
    ensures s.events <= r.events && r.rooms.Keys <= s.rooms.Keys && r.timers <= s.timers
    ensures r.userSocket == s.userSocket && r.socketUser == s.socketUser
    decreases |ids|
  {
    if ids == [] then s
    else DepartAll(DepartOne(s, u, ids[0]), u, ids[1..])
  }

  /** One round of disconnect's loop: u leaves room id if it is in it. */
  function DepartOne(s: Server, u: UserId, id: RoomId): (r: Server)
    ensures Shrunk(s, r, id) && r.userSocket == s.userSocket && r.socketUser == s.socketUser
  {
    if id in s.rooms && u in Ids(s.rooms[id].players) then AfterDepart(s, id, u) else s
  }

  /** The checks of startGame, in its order: the room exists, the caller hosts it, it has
      not started, and it has at least two players. */
  function StartCheck(s: Server, roomId: RoomId, userId: UserId): (e: Option<StartError>)
    ensures e.None? <==>
      roomId in s.rooms && s.rooms[roomId].hostId == Some(userId) && !s.rooms[roomId].isGameStarted &&
      |s.rooms[roomId].players| >= 2
    ensures e == Some(NoRoom) <==> roomId !in s.rooms
  {
    if roomId !in s.rooms then Some(NoRoom)
    else
      var r := s.rooms[roomId];
      if r.hostId != Some(userId) then Some(NotHost)
      else if r.isGameStarted then Some(AlreadyStarted)
      else if |r.players| < 2 then Some(TooFewPlayers)
      else None
  }

  /** The room as startGame resets it: started, not finished, playing, with no stored
      game states, acknowledgements, loaded pages or targets. */
  function Reset(r: Room): Room
  {
    r.(isGameStarted := true, isGameFinished := false, status := Playing, gameStates := [],
       playersRestarted := {}, movedToTetris := {}, targetMap := None)
  }

  /** The target picks for n players: three or more need, for every attacker i, an index
      of another player (the last draw of the do-while loop). */
  predicate PicksOK(n: nat, picks: seq<nat>)
  {
    n <= 2 || (|picks| >= n && forall i :: 0 <= i < n ==> picks[i] < n && picks[i] != i)
  }

  /** The target of the attacker at index i: with two players the first id that is not
      the attacker's, otherwise the picked player. */
  function TargetOf(ids: seq<UserId>, picks: seq<nat>, i: nat): (t: UserId)
    requires 2 <= |ids| && i < |ids| && PicksOK(|ids|, picks)
    ensures NoRepeats(ids) ==> t in ids && t != ids[i]
  {
    if |ids| == 2 then (if ids[0] != ids[i] then ids[0] else ids[1]) else ids[picks[i]]
  }

  /** The targetMap after the first k attackers of assignTargets' loop. */
  function Targets(ids: seq<UserId>, picks: seq<nat>, k: nat): map<UserId, UserId>
    requires 2 <= |ids| && k <= |ids| && PicksOK(|ids|, picks)
  {
    if k == 0 then map[] else Targets(ids, picks, k - 1)[ids[k - 1] := TargetOf(ids, picks, k - 1)]
  }

  /** The targetAssigned emits of the first k attackers: to the attacker's socket, when
      the attacker has a (non-empty) one. */
  function TargetEvents(us: map<UserId, SocketId>, ps: seq<Player>, picks: seq<nat>, k: nat): seq<Event>
    requires 2 <= |ps| && k <= |ps| && PicksOK(|ps|, picks)
  {
    if k == 0 then []
    else
      var a := ps[k - 1].userId;
      TargetEvents(us, ps, picks, k - 1) + Assignment(us, ps, a, TargetOf(Ids(ps), picks, k - 1))
  }

  /** The room after assignTargets: with two or more players a fresh targetMap with one
      target per player. */
  function Aimed(r: Room, picks: seq<nat>): Room
    requires PicksOK(|r.players|, picks)
  {
    if |r.players| <= 1 then r else r.(targetMap := Some(Targets(Ids(r.players), picks, |r.players|)))
  }

  /** assignTargets on room id: nothing with one player or none; otherwise the room is
      aimed and each attacker told its target. */
  function Assigned(s: Server, id: RoomId, picks: seq<nat>): Server
    requires id in s.rooms && PicksOK(|s.rooms[id].players|, picks)
  {
    var r := s.rooms[id];
    if |r.players| <= 1 then s
    else Emitted(Stored(s, id, Aimed(r, picks)), TargetEvents(s.userSocket, r.players, picks, |r.players|))
  }

  /** s with room r stored under id, and id's interval set when r is armed and cleared
      otherwise. */
  function Replaced(s: Server, id: RoomId, r: Room): Server
  {
    s.(rooms := s.rooms[id := r], timers := if r.armed then s.timers + {id} else s.timers - {id})
  }

  /** The re-targeting interval of room id, replacing any earlier one. */
  function Armed(s: Server, id: RoomId): Server
    requires id in s.rooms
  {
    Replaced(s, id, s.rooms[id].(armed := true))
  }

  /** startGame: a refused start answers the error; otherwise the room is reset, targets
      are assigned, the interval is set, the room is sent to the game page and started,
      and the host is told how many play. */
  function AfterStart(s: Server, socket: SocketId, roomId: RoomId, userId: UserId, picks: seq<nat>): (r: Server)
    requires roomId in s.rooms ==> PicksOK(|s.rooms[roomId].players|, picks)
    ensures OnlyRoom(s, r, roomId)
    ensures StartCheck(s, roomId, userId).None? ==> roomId in r.timers && r.rooms[roomId].isGameStarted
  {
    match StartCheck(s, roomId, userId)
    case Some(e) => Emitted(s, [Event(ToSocket(socket), GameStartError(roomId, e))])
    case None =>
      var t := Armed(Assigned(Stored(s, roomId, Reset(s.rooms[roomId])), roomId, picks), roomId);
      Emitted(t, [Event(ToRoom(roomId), MoveToTetrisPage(roomId)), Event(ToRoom(roomId), GameStart),
                  Event(ToSocket(socket), GameStartSuccess(roomId, |s.rooms[roomId].players|))])
  }

  /** tetrisPageLoaded: the caller is recorded as on the game page and, when it has a
      target, told it again. */
  function AfterPageLoaded(s: Server, socket: SocketId, roomId: RoomId): (r: Server)
    ensures OnlyRoom(s, r, roomId) && r.timers == s.timers && |r.events| <= |s.events| + 1
  {
    if roomId !in s.rooms || Caller(s, socket).None? then s
    else
      var u := Caller(s, socket).value;
      var r := s.rooms[roomId];
      Emitted(Stored(s, roomId, r.(movedToTetris := r.movedToTetris + {u})),
              if r.targetMap.Some? && u in r.targetMap.value
              then [Event(ToSocket(socket), TargetAssigned(r.targetMap.value[u], NameOf(r.players, r.targetMap.value[u])))]
              else [])
  }

  /** The garbage rows for cleared lines: 1 gives 1 row when `lucky` (the 30% draw) and
      0 otherwise, 2 gives 1, 3 gives 2, 4 or more give 4, anything else 0. */
  function GarbageFor(lines: int, lucky: bool): (g: nat)
    ensures g <= 4 && (lines <= 0 ==> g == 0) && (lines > 0 ==> g <= lines)
    ensures lines >= 2 ==> g >= 1
    ensures g == 0 && lines > 0 ==> lines == 1 && !lucky
  {
    if lines == 1 then (if lucky then 1 else 0)
    else if lines == 2 then 1
    else if lines == 3 then 2
    else if lines >= 4 then 4
    else 0
  }

  /** Whether a stored game state says u is over. */
  function IsOver(es: seq<Entry>, u: UserId): bool
  {
    if es == [] then false
    else if es[0].userId == u then es[0].isGameOver
    else IsOver(es[1..], u)
  }

  /** lineCleared: the garbage for the caller's cleared lines goes to the socket of its
      target, unless the caller has no target, the garbage is 0, the target's stored
      state is over or the target has no (non-empty) socket. Nothing else changes. */
  function AfterLineCleared(s: Server, socket: SocketId, roomId: RoomId, lines: int, lucky: bool): (r: Server)
    ensures r == s.(events := r.events) && s.events <= r.events && |r.events| <= |s.events| + 1
  {
    if roomId !in s.rooms || Caller(s, socket).None? then s
    else
      var a := Caller(s, socket).value;
      var r := s.rooms[roomId];
      if r.targetMap.None? || a !in r.targetMap.value then s
      else
        var g := GarbageFor(lines, lucky);
        var t := r.targetMap.value[a];
        if g == 0 || IsOver(r.gameStates, t) || t !in s.userSocket || s.userSocket[t] == "" then s
        else Emitted(s, [Event(ToSocket(s.userSocket[t]), ReceiveGarbage(g))])
  }

  /** updateGameState: the caller's state is stored and relayed to the rest of the room. */
  function AfterUpdateState(s: Server, socket: SocketId, roomId: RoomId, isGameOver: bool): (r: Server)
    ensures OnlyRoom(s, r, roomId) && r.timers == s.timers
  {
    if roomId !in s.rooms || Caller(s, socket).None? then s
    else
      var u := Caller(s, socket).value;
      var r := s.rooms[roomId];
      Emitted(Stored(s, roomId, r.(gameStates := SetState(r.gameStates, u, isGameOver))),
              [Event(ToRoomExcept(roomId, socket), GameStateUpdate(u, NameOf(r.players, u), isGameOver))])
  }

  /** gameOver: ignored once the match is finished; otherwise the caller's state is
      marked over and the rest of the room told; when exactly one member with a stored
      state is still playing and the room has more than one player, that member wins. */
  function AfterGameOver(s: Server, socket: SocketId, roomId: RoomId, score: int): (r: Server)
    ensures OnlyRoom(s, r, roomId) && r.timers <= s.timers
  {
    if roomId !in s.rooms || Caller(s, socket).None? || s.rooms[roomId].isGameFinished then s
    else
      var u := Caller(s, socket).value;
      var r := s.rooms[roomId];
      var t := MarkedOver(s, socket, roomId, u, score);
      var w := Winner(SetState(r.gameStates, u, true), r.players);
      if w.Some? && |r.players| > 1 then Won(t, roomId, w.value) else t
  }

  /** The only member still playing, when there is exactly one. */
  function Winner(es: seq<Entry>, ps: seq<Player>): Option<UserId>
  {
    var alive := Survivors(es, ps);
    if |alive| == 1 then Some(alive[0]) else None
  }

  /** u's stored state in room id marked over, and the rest of the room told. */
  function MarkedOver(s: Server, socket: SocketId, id: RoomId, u: UserId, score: int): Server
    requires id in s.rooms
  {
    var r := s.rooms[id];
    Emitted(Stored(s, id, r.(gameStates := SetState(r.gameStates, u, true))),
            [Event(ToRoomExcept(id, socket), PlayerGameOver(u, score)),
             Event(ToRoomExcept(id, socket), GameStateUpdate(u, NameOf(r.players, u), true))])
  }

  /** The end of a match won by w: finished, stopped, waiting, the interval cleared, the
      room told, the acknowledgements and loaded pages forgotten. */
  function Won(s: Server, id: RoomId, w: UserId): Server
    requires id in s.rooms
  {
    var r := s.rooms[id];
    Emitted(Replaced(s, id, Finish(r)), [Event(ToRoom(id), GameWin(w, NameOf(r.players, w), r.players))])
  }

  /** The room at the end of a match. */
  function Finish(r: Room): Room
  {
    r.(isGameFinished := true, isGameStarted := false, status := Waiting,
       armed := false, playersRestarted := {}, movedToTetris := {})
  }

  /** restartGame: the caller's acknowledgement is recorded and announced; once there are
      as many acknowledgements as players the room is reopened. */
  function AfterRestart(s: Server, socket: SocketId, roomId: RoomId): (r: Server)
    ensures OnlyRoom(s, r, roomId) && r.timers <= s.timers
  {
    if roomId !in s.rooms || Caller(s, socket).None? then s
    else
      var u := Caller(s, socket).value;
      var r := s.rooms[roomId];
      var t := Acknowledged(s, roomId, u);
      if |r.playersRestarted + {u}| == |r.players| then Reopened(t, roomId) else t
  }

  /** u's acknowledgement recorded in room id and announced to the room. */
  function Acknowledged(s: Server, id: RoomId, u: UserId): Server
    requires id in s.rooms
  {
    var r := s.rooms[id];
    var acks := r.playersRestarted + {u};
    Emitted(Stored(s, id, r.(playersRestarted := acks)),
            [Event(ToRoom(id), PlayerRestarted(u, NameOf(r.players, u), |acks|, |r.players|))])
  }

  /** A reopened room: not finished, stopped, waiting, the interval cleared, every stored
      state no longer over, the acknowledgements and loaded pages forgotten. */
  function Reopened(s: Server, id: RoomId): Server
    requires id in s.rooms
  {
    Emitted(Replaced(s, id, Reopen(s.rooms[id])), [Event(ToRoom(id), GameRestart)])
  }

  /** The room reopened for another match. */
  function Reopen(r: Room): Room
  {
    r.(isGameFinished := false, isGameStarted := false, status := Waiting, armed := false,
       gameStates := Revived(r.gameStates), playersRestarted := {}, movedToTetris := {})
  }

  // ---------------------------------------------------------------------------
  // Soundness of the rooms
  // ---------------------------------------------------------------------------

  /** A created room is sound: its creator is its only player and its host, and it is
      waiting, not started and not finished. */
  lemma NewRoomOK(roomId: RoomId, roomName: string, maxPlayers: int, isPrivate: bool,
                  password: string, userId: UserId, nickname: string, socket: SocketId)
    requires userId != ""
    ensures var r := NewRoom(roomId, roomName, maxPlayers, isPrivate, password, userId, nickname, socket);
      RoomOK(roomId, r) && Ids(r.players) == [userId] && r.hostId == Some(userId) &&
      r.status == Waiting && !r.isGameStarted && !r.isGameFinished
  {
    var r := NewRoom(roomId, roomName, maxPlayers, isPrivate, password, userId, nickname, socket);
    assert Ids(r.players) == [userId];
  }

  /** An accepted join keeps the room sound; the joiner is then a player, and since the
      host is always a player, the host does not change. */
  lemma JoinedOK(id: RoomId, r: Room, userId: UserId, nickname: string, socket: SocketId)
    requires RoomOK(id, r) && r.status == Waiting && |r.players| < r.maxPlayers && userId != ""
    ensures var j := Joined(r, userId, nickname, socket);
      RoomOK(id, j) && userId in Ids(j.players) && j.hostId == r.hostId &&
      (forall v :: v in Ids(j.players) <==> v in Ids(r.players) || v == userId)
  {
    UpsertDistinct(r.players, Player(userId, nickname, socket));
  }

  /** A member leaving a room it does not empty keeps the room sound, removes exactly that
      member, and a departing host hands over to the first other player in insertion
      order; any other departure keeps the host. */
  lemma DepartedOK(id: RoomId, r: Room, u: UserId)
    requires RoomOK(id, r) && u in Ids(r.players) && |r.players| > 1
    ensures var d := Departed(r, u);
      RoomOK(id, d) && |d.players| == |r.players| - 1 &&
      (forall v :: v in Ids(d.players) <==> v in Ids(r.players) && v != u) &&
      d.hostId == if r.hostId == Some(u)
                  then Some(if r.players[0].userId == u then r.players[1].userId else r.players[0].userId)
                  else r.hostId
  {
    WithoutMember(r.players, u);
    var ps := Without(r.players, u);
    assert ps[0].userId in Ids(ps);
  }

  /** Only its last member leaving empties a room. */
  lemma DepartEmpties(r: Room, u: UserId)
    requires Distinct(r.players) && u in Ids(r.players)
    ensures |Departed(r, u).players| == 0 <==> |r.players| == 1
  {
    WithoutMember(r.players, u);
  }

  /** The target of an attacker is another player of the room. */
  lemma TargetIsOther(ids: seq<UserId>, picks: seq<nat>, i: nat)
    requires NoRepeats(ids) && 2 <= |ids| && i < |ids| && PicksOK(|ids|, picks)
    ensures TargetOf(ids, picks, i) != ids[i] && TargetOf(ids, picks, i) in ids
  {
  }

  /** After k rounds of assignTargets' loop exactly the first k players have a target. */
  lemma {:induction false} TargetsKeys(ids: seq<UserId>, picks: seq<nat>, k: nat)
    requires 2 <= |ids| && k <= |ids| && PicksOK(|ids|, picks)
    ensures forall a :: a in Targets(ids, picks, k) <==> a in ids[..k]
  {
    if k > 0 {
      TargetsKeys(ids, picks, k - 1);
      assert ids[..k] == ids[..k - 1] + [ids[k - 1]];
    }
  }

  /** Each of the first k players has the target its round of the loop chose: no later
      round overwrites it. */
  lemma {:induction false} TargetsAt(ids: seq<UserId>, picks: seq<nat>, k: nat, i: nat)
    requires NoRepeats(ids) && 2 <= |ids| && i < k <= |ids| && PicksOK(|ids|, picks)
    ensures ids[i] in Targets(ids, picks, k) && Targets(ids, picks, k)[ids[i]] == TargetOf(ids, picks, i)
  {
    if i < k - 1 {
      TargetsAt(ids, picks, k - 1, i);
    }
  }

  /** Every target is another player of the room. */
  lemma {:induction false} TargetsNoSelf(ids: seq<UserId>, picks: seq<nat>, k: nat)
    requires NoRepeats(ids) && 2 <= |ids| && k <= |ids| && PicksOK(|ids|, picks)
    ensures NoSelfTarget(Targets(ids, picks, k)) && AimsWithin(Targets(ids, picks, k), ids)
  {
    if k > 0 {
      TargetsNoSelf(ids, picks, k - 1);
      TargetIsOther(ids, picks, k - 1);
      var prev := Targets(ids, picks, k - 1);
      var m := Targets(ids, picks, k);
      forall a | a in m ensures m[a] != a && m[a] in ids {
        if a != ids[k - 1] {
          assert a in prev && m[a] == prev[a];
        }
      }
    }
  }

  /** The keys of a map of players have no repeats. */
  lemma DistinctIds(ps: seq<Player>)
    requires Distinct(ps)
    ensures NoRepeats(Ids(ps))
  {
  }

  /** With two players each targets the other. */
  lemma TwoPlayersTargetEachOther(ids: seq<UserId>, picks: seq<nat>)
    requires NoRepeats(ids) && |ids| == 2
    ensures var m := Targets(ids, picks, 2);
      m.Keys == {ids[0], ids[1]} && m[ids[0]] == ids[1] && m[ids[1]] == ids[0]
  {
    TargetsKeys(ids, picks, 2);
    TargetsAt(ids, picks, 2, 0);
    TargetsAt(ids, picks, 2, 1);
    assert ids[..2] == ids;
  }

  // ---------------------------------------------------------------------------
  // The handlers keep the invariant
  // ---------------------------------------------------------------------------

  /** The server starts sound. */
  lemma BootKeepsInv()
    ensures Inv(Boot())
  {
  }

  /** Emits do not touch the state the invariant is about. */
  lemma EmittedKeepsInv(s: Server, es: seq<Event>)
    requires Inv(s)
    ensures Inv(Emitted(s, es))
  {
  }

  /** Binding a user to a socket does not touch the rooms. */
  lemma BoundKeepsInv(s: Server, u: UserId, socket: SocketId)
    requires Inv(s)
    ensures Inv(Bound(s, u, socket))
  {
  }

  /** A room id that is not yet taken, appended to the order, keeps it free of repeats. */
  lemma AppendUnique(order: seq<RoomId>, id: RoomId)
    requires NoRepeats(order) && id !in order
    ensures NoRepeats(order + [id])
  {
    var r := order + [id];
    forall i, j | 0 <= i < j < |r| ensures r[i] != r[j] {
      assert r[i] == order[i];
      if j < |order| {
        assert r[j] == order[j];
      }
    }
  }

  /** createRoom keeps the server sound, given that the generated id is not taken. */
  lemma CreateKeepsInv(s: Server, socket: SocketId, roomId: RoomId, roomName: string, maxPlayers: int,
                       isPrivate: bool, password: string, userId: UserId, nickname: string)
    requires Inv(s) && roomId !in s.rooms
    ensures Inv(AfterCreate(s, socket, roomId, roomName, maxPlayers, isPrivate, password, userId, nickname))
  {
    if userId != "" && nickname != "" {
      NewRoomOK(roomId, roomName, maxPlayers, isPrivate, password, userId, nickname, socket);
      AppendUnique(s.order, roomId);
    }
  }

  /** joinRoom keeps the server sound. */
  lemma JoinKeepsInv(s: Server, socket: SocketId, roomId: RoomId, userId: UserId, nickname: string, password: string)
    requires Inv(s)
    ensures Inv(AfterJoin(s, socket, roomId, userId, nickname, password))
  {
    if JoinCheck(s, roomId, userId, nickname, password).None? {
      var r := s.rooms[roomId];
      JoinedOK(roomId, r, userId, nickname, socket);
      var b := Bound(s, userId, socket);
      assert Inv(b) by { BoundKeepsInv(s, userId, socket); }
      var j := Joined(r, userId, nickname, socket);
      StoredKeepsInv(b, roomId, j);
      EmittedKeepsInv(Stored(b, roomId, j), AfterJoin(s, socket, roomId, userId, nickname, password).events[|s.events|..]);
    }
  }

  /** Storing a sound room under a taken id, with its interval left as it was, keeps the
      server sound. */
  lemma StoredKeepsInv(s: Server, id: RoomId, r: Room)
    requires Inv(s) && id in s.rooms && RoomOK(id, r) && r.armed == s.rooms[id].armed
    ensures Inv(Stored(s, id, r))
  {
    var m := s.rooms[id := r];
    forall x | x in m ensures RoomOK(x, m[x]) && (x in s.timers <==> m[x].armed) {
      if x != id { assert m[x] == s.rooms[x]; }
    }
    assert m.Keys == s.rooms.Keys;
  }

  /** Storing a sound room under a taken id, its interval set or cleared with it, keeps
      the server sound. */
  lemma ReplacedKeepsInv(s: Server, id: RoomId, r: Room)
    requires Inv(s) && id in s.rooms && RoomOK(id, r)
    ensures Inv(Replaced(s, id, r))
  {
    TableReplaced(s.rooms, s.order, s.timers, id, r);
  }

  /** The table part of ReplacedKeepsInv. */
  lemma TableReplaced(rooms: map<RoomId, Room>, order: seq<RoomId>, timers: set<RoomId>, id: RoomId, r: Room)
    requires TableOK(rooms, order, timers) && id in rooms && RoomOK(id, r)
    ensures TableOK(rooms[id := r], order, if r.armed then timers + {id} else timers - {id})
  {
  }

  /** Deleting a room with its interval keeps the server sound. */
  lemma ClosedKeepsInv(s: Server, id: RoomId)
    requires Inv(s) && id in s.rooms
    ensures Inv(Closed(s, id, s.rooms[id].armed))
  {
    DroppedUnique(s.order, id);
  }

  /** A member leaving a room keeps the server sound. */
  lemma DepartKeepsInv(s: Server, id: RoomId, u: UserId)
    requires Inv(s) && id in s.rooms && u in Ids(s.rooms[id].players)
    ensures Inv(AfterDepart(s, id, u))
  {
    var r := s.rooms[id];
    var d := Departed(r, u);
    var t := Emitted(s, [Event(ToRoom(id), PlayerLeft(id, u, d.hostId, d.players)), Event(ToRoom(id), PlayerDisconnect(u))]);
    EmittedKeepsInv(s, t.events[|s.events|..]);
    assert t.rooms == s.rooms;
    DepartEmpties(r, u);
    if |r.players| == 1 {
      ClosedKeepsInv(t, id);
    } else {
      DepartedOK(id, r, u);
      StoredKeepsInv(t, id, d);
    }
  }

  /** leaveRoom keeps the server sound. */
  lemma LeaveKeepsInv(s: Server, roomId: RoomId, u: UserId)
    requires Inv(s)
    ensures Inv(AfterLeave(s, roomId, u))
  {
    if roomId in s.rooms && u in Ids(s.rooms[roomId].players) {
      DepartKeepsInv(s, roomId, u);
    }
  }

  /** One round of disconnect's loop keeps the server sound. */
  lemma DepartOneKeepsInv(s: Server, u: UserId, id: RoomId)
    requires Inv(s)
    ensures Inv(DepartOne(s, u, id))
  {
    if id in s.rooms && u in Ids(s.rooms[id].players) {
      DepartKeepsInv(s, id, u);
    }
  }

  /** disconnect's loop keeps the server sound. */
  lemma {:induction false} DepartAllKeepsInv(s: Server, u: UserId, ids: seq<RoomId>)
    requires Inv(s)
    ensures Inv(DepartAll(s, u, ids))
    decreases |ids|
  {
    if ids != [] {
      DepartOneKeepsInv(s, u, ids[0]);
      DepartAllKeepsInv(DepartOne(s, u, ids[0]), u, ids[1..]);
    }
  }

  /** disconnect keeps the server sound. */
  lemma DisconnectKeepsInv(s: Server, socket: SocketId)
    requires Inv(s)
    ensures Inv(AfterDisconnect(s, socket))
  {
    if Caller(s, socket).Some? {
      var u := Caller(s, socket).value;
      var t := s.(socketUser := s.socketUser - {socket},
                  userSocket := if u in s.userSocket && s.userSocket[u] == socket then s.userSocket - {u} else s.userSocket);
      DepartAllKeepsInv(t, u, s.order);
    }
  }

  /** Aiming a sound room keeps it sound: the targets are other players. */
  lemma AimedOK(id: RoomId, r: Room, picks: seq<nat>)
    requires RoomOK(id, r) && PicksOK(|r.players|, picks)
    ensures RoomOK(id, Aimed(r, picks))
  {
    if |r.players| > 1 {
      DistinctIds(r.players);
      TargetsNoSelf(Ids(r.players), picks, |r.players|);
    }
  }

  /** assignTargets on a room of one player or none changes nothing: no targetMap is
      made and nobody is told a target, at the start or at a later interval tick. */
  lemma AssignedIdle(s: Server, id: RoomId, picks: seq<nat>)
    requires id in s.rooms && |s.rooms[id].players| <= 1
    ensures Assigned(s, id, picks) == s
  {
  }

  /** assignTargets (at the start and on every tick of the interval) keeps the server sound. */
  lemma AssignedKeepsInv(s: Server, id: RoomId, picks: seq<nat>)
    requires Inv(s) && id in s.rooms && PicksOK(|s.rooms[id].players|, picks)
    ensures Inv(Assigned(s, id, picks))
  {
    var r := s.rooms[id];
    if |r.players| > 1 {
      AimedOK(id, r, picks);
      StoredKeepsInv(s, id, Aimed(r, picks));
      EmittedKeepsInv(Stored(s, id, Aimed(r, picks)), TargetEvents(s.userSocket, r.players, picks, |r.players|));
    }
  }

  /** The room startGame leaves behind: reset, aimed and holding an interval. */
  function Started(r: Room, picks: seq<nat>): Room
    requires PicksOK(|r.players|, picks)
  {
    Aimed(Reset(r), picks).(armed := true)
  }

  /** An accepted start leaves the room started, aimed and armed, and adds its interval;
      nothing else of the table changes. */
  lemma StartStores(s: Server, socket: SocketId, roomId: RoomId, userId: UserId, picks: seq<nat>)
    requires roomId in s.rooms && PicksOK(|s.rooms[roomId].players|, picks)
    requires StartCheck(s, roomId, userId).None?
    ensures var t := AfterStart(s, socket, roomId, userId, picks);
      t.rooms == s.rooms[roomId := Started(s.rooms[roomId], picks)] &&
      t.timers == s.timers + {roomId} && t.order == s.order
  {
    var r := s.rooms[roomId];
    var a := Assigned(Stored(s, roomId, Reset(r)), roomId, picks);
    assert a.rooms == s.rooms[roomId := Aimed(Reset(r), picks)];
  }

  /** startGame keeps the server sound. */
  lemma StartKeepsInv(s: Server, socket: SocketId, roomId: RoomId, userId: UserId, picks: seq<nat>)
    requires Inv(s) && (roomId in s.rooms ==> PicksOK(|s.rooms[roomId].players|, picks))
    ensures Inv(AfterStart(s, socket, roomId, userId, picks))
  {
    if StartCheck(s, roomId, userId).None? {
      var r := s.rooms[roomId];
      var z := Reset(r).(armed := true);
      assert Aimed(z, picks) == Started(r, picks);
      StartStores(s, socket, roomId, userId, picks);
      assert RoomOK(roomId, z);
      AimedOK(roomId, z, picks);
      ReplacedKeepsInv(s, roomId, Started(r, picks));
    }
  }

  /** tetrisPageLoaded keeps the server sound. */
  lemma PageLoadedKeepsInv(s: Server, socket: SocketId, roomId: RoomId)
    requires Inv(s)
    ensures Inv(AfterPageLoaded(s, socket, roomId))
  {
    if roomId in s.rooms && Caller(s, socket).Some? {
      var r := s.rooms[roomId];
      var u := Caller(s, socket).value;
      StoredKeepsInv(s, roomId, r.(movedToTetris := r.movedToTetris + {u}));
    }
  }

  /** lineCleared keeps the server sound. */
  lemma LineClearedKeepsInv(s: Server, socket: SocketId, roomId: RoomId, lines: int, lucky: bool)
    requires Inv(s)
    ensures Inv(AfterLineCleared(s, socket, roomId, lines, lucky))
  {
  }

  /** updateGameState keeps the server sound. */
  lemma UpdateStateKeepsInv(s: Server, socket: SocketId, roomId: RoomId, isGameOver: bool)
    requires Inv(s)
    ensures Inv(AfterUpdateState(s, socket, roomId, isGameOver))
  {
    if roomId in s.rooms && Caller(s, socket).Some? {
      var r := s.rooms[roomId];
      var u := Caller(s, socket).value;
      StoredKeepsInv(s, roomId, r.(gameStates := SetState(r.gameStates, u, isGameOver)));
    }
  }

  /** The end of a match keeps the server sound. */
  lemma WonKeepsInv(s: Server, id: RoomId, w: UserId)
    requires Inv(s) && id in s.rooms
    ensures Inv(Won(s, id, w))
  {
    var r := s.rooms[id];
    ReplacedKeepsInv(s, id, Finish(r));
    EmittedKeepsInv(Replaced(s, id, Finish(r)), [Event(ToRoom(id), GameWin(w, NameOf(r.players, w), r.players))]);
  }

  /** Marking a player over keeps the server sound. */
  lemma MarkedOverKeepsInv(s: Server, socket: SocketId, id: RoomId, u: UserId, score: int)
    requires Inv(s) && id in s.rooms
    ensures Inv(MarkedOver(s, socket, id, u, score))
  {
    var r := s.rooms[id];
    var r1 := r.(gameStates := SetState(r.gameStates, u, true));
    StoredKeepsInv(s, id, r1);
    EmittedKeepsInv(Stored(s, id, r1), MarkedOver(s, socket, id, u, score).events[|s.events|..]);
  }

  /** gameOver keeps the server sound. */
  lemma GameOverKeepsInv(s: Server, socket: SocketId, roomId: RoomId, score: int)
    requires Inv(s)
    ensures Inv(AfterGameOver(s, socket, roomId, score))
  {
    if roomId in s.rooms && Caller(s, socket).Some? && !s.rooms[roomId].isGameFinished {
      var u := Caller(s, socket).value;
      var t := MarkedOver(s, socket, roomId, u, score);
      var w := Winner(SetState(s.rooms[roomId].gameStates, u, true), s.rooms[roomId].players);
      if w.Some? && |s.rooms[roomId].players| > 1 {
        assert AfterGameOver(s, socket, roomId, score) == Won(t, roomId, w.value);
        MarkedOverKeepsInv(s, socket, roomId, u, score);
        WonKeepsInv(t, roomId, w.value);
      } else {
        assert AfterGameOver(s, socket, roomId, score) == t;
        MarkedOverKeepsInv(s, socket, roomId, u, score);
      }
    }
  }

  /** Reopening a room keeps the server sound. */
  lemma ReopenedKeepsInv(s: Server, id: RoomId)
    requires Inv(s) && id in s.rooms
    ensures Inv(Reopened(s, id))
  {
    ReplacedKeepsInv(s, id, Reopen(s.rooms[id]));
    EmittedKeepsInv(Replaced(s, id, Reopen(s.rooms[id])), [Event(ToRoom(id), GameRestart)]);
  }

  /** Recording an acknowledgement keeps the server sound. */
  lemma AcknowledgedKeepsInv(s: Server, id: RoomId, u: UserId)
    requires Inv(s) && id in s.rooms
    ensures Inv(Acknowledged(s, id, u))
  {
    var r := s.rooms[id];
    var r1 := r.(playersRestarted := r.playersRestarted + {u});
    StoredKeepsInv(s, id, r1);
    EmittedKeepsInv(Stored(s, id, r1), Acknowledged(s, id, u).events[|s.events|..]);
  }

  /** restartGame keeps the server sound. */
  lemma RestartKeepsInv(s: Server, socket: SocketId, roomId: RoomId)
    requires Inv(s)
    ensures Inv(AfterRestart(s, socket, roomId))
  {
    if roomId in s.rooms && Caller(s, socket).Some? {
      var u := Caller(s, socket).value;
      var t := Acknowledged(s, roomId, u);
      if |s.rooms[roomId].playersRestarted + {u}| == |s.rooms[roomId].players| {
        assert AfterRestart(s, socket, roomId) == Reopened(t, roomId);
        AcknowledgedKeepsInv(s, roomId, u);
        ReopenedKeepsInv(t, roomId);
      } else {
        assert AfterRestart(s, socket, roomId) == t;
        AcknowledgedKeepsInv(s, roomId, u);
      }
    }
  }

  // ---------------------------------------------------------------------------
  // What the handlers do
  // ---------------------------------------------------------------------------

  /** The room ids of a room list, in order. */
  function ListedIds(l: seq<Summary>): (ids: seq<RoomId>)
    ensures |ids| == |l| && forall i :: 0 <= i < |l| ==> ids[i] == l[i].id
  {
    seq(|l|, i requires 0 <= i < |l| => l[i].id)
  }

  /** getPublicRoomList lists every room exactly once, in insertion order, each with its
      own name, status, host and number of players. */
  lemma RoomListSpec(s: Server)
    requires Inv(s)
    ensures ListedIds(RoomList(s)) == s.order
    ensures NoRepeats(ListedIds(RoomList(s))) && forall id :: id in ListedIds(RoomList(s)) <==> id in s.rooms
    ensures forall i :: 0 <= i < |RoomList(s)| ==>
      RoomList(s)[i].id in s.rooms &&
      RoomList(s)[i].participantCount == |s.rooms[RoomList(s)[i].id].players| &&
      RoomList(s)[i].hostId == s.rooms[RoomList(s)[i].id].hostId
  {
  }

  /** createRoom: without a user id or nickname nothing but the error emit happens;
      otherwise the new room is the only change to the table, appended to the order, with
      the creator as its sole player and host, waiting, and the creator bound to the
      socket both ways. */
  lemma CreateSpec(s: Server, socket: SocketId, roomId: RoomId, roomName: string, maxPlayers: int,
                   isPrivate: bool, password: string, userId: UserId, nickname: string)
    requires Inv(s) && roomId !in s.rooms
    ensures var t := AfterCreate(s, socket, roomId, roomName, maxPlayers, isPrivate, password, userId, nickname);
      (userId == "" || nickname == "" ==>
         t.rooms == s.rooms && t.order == s.order && t.userSocket == s.userSocket && t.socketUser == s.socketUser &&
         t.events == s.events + [Event(ToSocket(socket), RoomCreateError)]) &&
      (userId != "" && nickname != "" ==>
         t.rooms.Keys == s.rooms.Keys + {roomId} && t.order == s.order + [roomId] &&
         (forall id :: id in s.rooms ==> t.rooms[id] == s.rooms[id]) &&
         Ids(t.rooms[roomId].players) == [userId] && t.rooms[roomId].hostId == Some(userId) &&
         t.rooms[roomId].status == Waiting && !t.rooms[roomId].isGameStarted &&
         t.userSocket[userId] == socket && t.socketUser[socket] == userId &&
         t.events[|s.events|..] == [Event(ToSocket(socket), RoomCreated(roomId, ViewOf(t.rooms[roomId]))),
                                    Event(ToEveryone, RoomListUpdated)])
  {
    if userId != "" && nickname != "" {
      NewRoomOK(roomId, roomName, maxPlayers, isPrivate, password, userId, nickname, socket);
    }
  }

  /** joinRoom refuses a started room, then a full one, then a wrong password, then a
      request without identity. */
  lemma JoinRefusals(s: Server, roomId: RoomId, userId: UserId, nickname: string, password: string)
    requires Inv(s) && roomId in s.rooms
    ensures var r := s.rooms[roomId];
      (r.isGameStarted ==> JoinCheck(s, roomId, userId, nickname, password) == Some(NotWaiting)) &&
      (!r.isGameStarted && |r.players| >= r.maxPlayers ==> JoinCheck(s, roomId, userId, nickname, password) == Some(RoomFull)) &&
      (!r.isGameStarted && |r.players| < r.maxPlayers && r.isPrivate && r.password != password ==>
         JoinCheck(s, roomId, userId, nickname, password) == Some(WrongPassword)) &&
      (JoinCheck(s, roomId, userId, nickname, password).None? <==>
         !r.isGameStarted && |r.players| < r.maxPlayers && (!r.isPrivate || r.password == password) &&
         userId != "" && nickname != "")
  {
  }

  /** A refused joinRoom changes nothing but the error emit. */
  lemma JoinRefusedSpec(s: Server, socket: SocketId, roomId: RoomId, userId: UserId, nickname: string, password: string)
    requires JoinCheck(s, roomId, userId, nickname, password).Some?
    ensures AfterJoin(s, socket, roomId, userId, nickname, password) ==
      s.(events := s.events + [Event(ToSocket(socket), JoinRoomError(JoinCheck(s, roomId, userId, nickname, password).value))])
  {
  }

  /** An accepted joinRoom makes the user a player of the room, binds it to the socket,
      keeps the host and never overfills the room; every other room is unchanged. */
  lemma JoinSpec(s: Server, socket: SocketId, roomId: RoomId, userId: UserId, nickname: string, password: string)
    requires Inv(s) && JoinCheck(s, roomId, userId, nickname, password).None?
    ensures var t := AfterJoin(s, socket, roomId, userId, nickname, password);
      t.rooms.Keys == s.rooms.Keys && (forall id :: id in s.rooms && id != roomId ==> t.rooms[id] == s.rooms[id]) &&
      (forall v :: v in Ids(t.rooms[roomId].players) <==> v in Ids(s.rooms[roomId].players) || v == userId) &&
      t.rooms[roomId].hostId == s.rooms[roomId].hostId &&
      |t.rooms[roomId].players| <= t.rooms[roomId].maxPlayers &&
      t.userSocket[userId] == socket && t.socketUser[socket] == userId
  {
    JoinedOK(roomId, s.rooms[roomId], userId, nickname, socket);
  }

  /** leaveRoom by a member: the room is deleted, with its interval and from the order,
      exactly when the member was its only player; otherwise the member is gone, the
      others stay, and a departing host hands over to the first other player in insertion
      order. No other room changes. */
  lemma LeaveSpec(s: Server, roomId: RoomId, u: UserId)
    requires Inv(s) && roomId in s.rooms && u in Ids(s.rooms[roomId].players)
    ensures var t := AfterLeave(s, roomId, u); var r := s.rooms[roomId];
      (roomId in t.rooms <==> |r.players| > 1) &&
      (roomId !in t.rooms ==> roomId !in t.timers && roomId !in t.order) &&
      (roomId in t.rooms ==>
         (forall v :: v in Ids(t.rooms[roomId].players) <==> v in Ids(r.players) && v != u) &&
         t.rooms[roomId].hostId == (if r.hostId == Some(u)
                                    then Some(if r.players[0].userId == u then r.players[1].userId else r.players[0].userId)
                                    else r.hostId))
  {
    var r := s.rooms[roomId];
    var d := Departed(r, u);
    var t := Emitted(s, [Event(ToRoom(roomId), PlayerLeft(roomId, u, d.hostId, d.players)), Event(ToRoom(roomId), PlayerDisconnect(u))]);
    assert RoomOK(roomId, r) && (r.armed <==> roomId in s.timers);
    DepartEmpties(r, u);
    if |r.players| > 1 {
      DepartedOK(roomId, r, u);
      assert AfterLeave(s, roomId, u) == Emitted(Stored(t, roomId, d), [Event(ToEveryone, RoomListUpdated)]);
    } else {
      assert AfterLeave(s, roomId, u) == Closed(t, roomId, d.armed);
    }
  }

  /** leaveRoom changes no room but its own. */
  lemma LeaveKeepsOthers(s: Server, roomId: RoomId, u: UserId, id: RoomId)
    requires id != roomId
    ensures var t := AfterLeave(s, roomId, u);
      (id in t.rooms <==> id in s.rooms) && (id in s.rooms ==> t.rooms[id] == s.rooms[id])
  {
    if roomId in s.rooms && u in Ids(s.rooms[roomId].players) {
      var d := Departed(s.rooms[roomId], u);
      var t := Emitted(s, [Event(ToRoom(roomId), PlayerLeft(roomId, u, d.hostId, d.players)), Event(ToRoom(roomId), PlayerDisconnect(u))]);
      if |d.players| == 0 {
        assert AfterLeave(s, roomId, u) == Closed(t, roomId, d.armed);
      } else {
        assert AfterLeave(s, roomId, u) == Emitted(Stored(t, roomId, d), [Event(ToEveryone, RoomListUpdated)]);
      }
    }
  }

  /** leaveRoom by a non-member, or for a missing room, does nothing at all. */
  lemma LeaveIgnored(s: Server, roomId: RoomId, u: UserId)
    requires roomId !in s.rooms || u !in Ids(s.rooms[roomId].players)
    ensures AfterLeave(s, roomId, u) == s
  {
  }

  /** What disconnect's loop has done after the rooms in ids: the table only lost rooms,
      u is in none of the visited rooms that remain, the unvisited rooms and the rooms
      without u are as they were, and the socket maps are untouched. */
  ghost predicate Departs(s: Server, t: Server, u: UserId, ids: seq<RoomId>)
  {
    t.rooms.Keys <= s.rooms.Keys && t.userSocket == s.userSocket && t.socketUser == s.socketUser &&
    (forall id :: id in t.rooms && id in ids ==> u !in Ids(t.rooms[id].players)) &&
    (forall id :: id in t.rooms && id !in ids ==> t.rooms[id] == s.rooms[id]) &&
    (forall id :: id in s.rooms && u !in Ids(s.rooms[id].players) ==> id in t.rooms && t.rooms[id] == s.rooms[id])
  }

  /** One round of disconnect's loop. */
  lemma DepartOneSpec(s: Server, u: UserId, id: RoomId)
    ensures Departs(s, DepartOne(s, u, id), u, [id])
  {
  }

  /** disconnect's loop: afterwards u is in no visited room. */
  lemma {:induction false} DepartAllSpec(s: Server, u: UserId, ids: seq<RoomId>)
    ensures Departs(s, DepartAll(s, u, ids), u, ids)
    decreases |ids|
  {
    if ids != [] {
      var m := DepartOne(s, u, ids[0]);
      DepartOneSpec(s, u, ids[0]);
      DepartAllSpec(m, u, ids[1..]);
      var t := DepartAll(m, u, ids[1..]);
      forall id | id in t.rooms && id in ids ensures u !in Ids(t.rooms[id].players) {
        if id !in ids[1..] {
          assert id == ids[0] && t.rooms[id] == m.rooms[id];
        }
      }
      forall id | id in t.rooms && id !in ids ensures t.rooms[id] == s.rooms[id] {
        assert id !in ids[1..] && id != ids[0];
      }
      forall id | id in s.rooms && u !in Ids(s.rooms[id].players) ensures id in t.rooms && t.rooms[id] == s.rooms[id] {
        assert id in m.rooms && m.rooms[id] == s.rooms[id];
      }
    }
  }

  /** disconnect: the socket is unbound, and its user's own socket entry too when it
      still points at this socket; the user is in no room afterwards, and every room it
      was not in is unchanged. */
  lemma DisconnectSpec(s: Server, socket: SocketId, u: UserId)
    requires Inv(s) && Caller(s, socket) == Some(u)
    ensures var t := AfterDisconnect(s, socket);
      socket !in t.socketUser && (u in s.userSocket && s.userSocket[u] == socket ==> u !in t.userSocket) &&
      (forall id :: id in t.rooms ==> u !in Ids(t.rooms[id].players)) &&
      (forall id :: id in s.rooms && u !in Ids(s.rooms[id].players) ==> id in t.rooms && t.rooms[id] == s.rooms[id])
  {
    var t0 := s.(socketUser := s.socketUser - {socket},
                 userSocket := if u in s.userSocket && s.userSocket[u] == socket then s.userSocket - {u} else s.userSocket);
    DepartAllSpec(t0, u, s.order);
  }

  /** assignTargets with two or more players: every player, and only a player, gets a
      target, and every target is another player of the room. */
  lemma AimedSpec(r: Room, picks: seq<nat>)
    requires Distinct(r.players) && |r.players| >= 2 && PicksOK(|r.players|, picks)
    ensures Aimed(r, picks).targetMap.Some?
    ensures var m := Aimed(r, picks).targetMap.value;
      (forall a :: a in m <==> a in Ids(r.players)) &&
      (forall a :: a in m ==> m[a] != a && m[a] in Ids(r.players))
  {
    var ids := Ids(r.players);
    var m := Targets(ids, picks, |ids|);
    assert Aimed(r, picks).targetMap == Some(m);
    DistinctIds(r.players);
    TargetsKeys(ids, picks, |ids|);
    assert ids[..|ids|] == ids;
    TargetsNoSelf(ids, picks, |ids|);
    assert NoSelfTarget(m) && AimsWithin(m, ids);
  }

  /** startGame refuses unless the caller hosts a room of two or more players that has
      not started, and a refused start changes nothing but the error emit. */
  lemma StartRefusals(s: Server, socket: SocketId, roomId: RoomId, userId: UserId, picks: seq<nat>)
    requires roomId in s.rooms ==> PicksOK(|s.rooms[roomId].players|, picks)
    ensures StartCheck(s, roomId, userId).None? <==>
      roomId in s.rooms && s.rooms[roomId].hostId == Some(userId) && !s.rooms[roomId].isGameStarted &&
      |s.rooms[roomId].players| >= 2
    ensures StartCheck(s, roomId, userId).Some? ==>
      AfterStart(s, socket, roomId, userId, picks) ==
      s.(events := s.events + [Event(ToSocket(socket), GameStartError(roomId, StartCheck(s, roomId, userId).value))])
  {
  }

  /** The room an accepted start leaves behind is playing with the same players, no
      stored game states and a live interval, and every player is aimed at another. */
  lemma StartedSpec(r: Room, picks: seq<nat>)
    requires Distinct(r.players) && |r.players| >= 2 && PicksOK(|r.players|, picks)
    ensures var z := Started(r, picks);
      z.isGameStarted && z.status == Playing && !z.isGameFinished && z.armed &&
      z.players == r.players && z.gameStates == [] && z.playersRestarted == {} && z.movedToTetris == {} &&
      z.targetMap.Some? &&
      (forall a :: a in z.targetMap.value <==> a in Ids(r.players)) &&
      (forall a :: a in z.targetMap.value ==> z.targetMap.value[a] != a && z.targetMap.value[a] in Ids(r.players))
  {
    AimedSpec(Reset(r), picks);
  }

  /** An accepted startGame changes only the started room, which becomes the room of
      StartedSpec, and adds its interval. */
  lemma StartSpec(s: Server, socket: SocketId, roomId: RoomId, userId: UserId, picks: seq<nat>)
    requires Inv(s) && roomId in s.rooms && PicksOK(|s.rooms[roomId].players|, picks)
    requires StartCheck(s, roomId, userId).None?
    ensures var t := AfterStart(s, socket, roomId, userId, picks);
      t.rooms == s.rooms[roomId := Started(s.rooms[roomId], picks)] && roomId in t.timers &&
      Distinct(s.rooms[roomId].players) && |s.rooms[roomId].players| >= 2
  {
    StartStores(s, socket, roomId, userId, picks);
  }

  /** The garbage for cleared lines never exceeds the lines cleared and grows with them. */
  lemma GarbageBounds(lines: int, more: int, lucky: bool)
    requires lines <= more
    ensures GarbageFor(lines, lucky) <= (if lines > 0 then lines else 0)
    ensures GarbageFor(lines, lucky) <= GarbageFor(more, lucky)
    ensures lines >= 2 ==> GarbageFor(lines, lucky) >= 1
  {
  }

  /** The target lineCleared looks up: the caller's entry in the room's targetMap. */
  function CurrentTarget(s: Server, socket: SocketId, roomId: RoomId): Option<UserId>
  {
    if roomId in s.rooms && Caller(s, socket).Some? && s.rooms[roomId].targetMap.Some? &&
       Caller(s, socket).value in s.rooms[roomId].targetMap.value
    then Some(s.rooms[roomId].targetMap.value[Caller(s, socket).value])
    else None
  }

  /** Garbage g is due to target tg of room roomId: it is at least one row, tg's stored
      state is not over and tg has a (non-empty) socket. */
  predicate Due(s: Server, roomId: RoomId, tg: UserId, g: nat)
  {
    g >= 1 && roomId in s.rooms && !IsOver(s.rooms[roomId].gameStates, tg) &&
    tg in s.userSocket && s.userSocket[tg] != ""
  }

  /** lineCleared only emits: it sends at most one receiveGarbage, of at least one line,
      and none when the attacker has no target or its target is over. When the attacker
      has a target to which garbage is due, exactly that garbage goes to the target's
      socket; otherwise nothing happens. */
  lemma LineClearedSpec(s: Server, socket: SocketId, roomId: RoomId, lines: int, lucky: bool)
    ensures var t := AfterLineCleared(s, socket, roomId, lines, lucky);
      t == s.(events := t.events) && |s.events| <= |t.events| <= |s.events| + 1 && t.events[..|s.events|] == s.events &&
      (|t.events| > |s.events| ==>
         t.events[|s.events|].msg.ReceiveGarbage? && 1 <= t.events[|s.events|].msg.lines == GarbageFor(lines, lucky)) &&
      ((roomId in s.rooms && Caller(s, socket).Some? && s.rooms[roomId].targetMap.Some? &&
        Caller(s, socket).value in s.rooms[roomId].targetMap.value &&
        IsOver(s.rooms[roomId].gameStates, s.rooms[roomId].targetMap.value[Caller(s, socket).value])) ==> t == s) &&
      ((roomId in s.rooms && Caller(s, socket).Some? &&
        (s.rooms[roomId].targetMap.None? || Caller(s, socket).value !in s.rooms[roomId].targetMap.value)) ==> t == s)
    ensures var t := AfterLineCleared(s, socket, roomId, lines, lucky);
      var tg := CurrentTarget(s, socket, roomId); var g := GarbageFor(lines, lucky);
      (tg.Some? && Due(s, roomId, tg.value, g) ==>
         t.events == s.events + [Event(ToSocket(s.userSocket[tg.value]), ReceiveGarbage(g))]) &&
      (!(tg.Some? && Due(s, roomId, tg.value, g)) ==> t == s)
  {
  }

  /** Storing a game state for u sets what IsOver says about u and nothing else. */
  lemma {:induction false} SetStateIsOver(es: seq<Entry>, u: UserId, b: bool, v: UserId)
    ensures IsOver(SetState(es, u, b), v) == if v == u then b else IsOver(es, v)
  {
    if es != [] && es[0].userId != u {
      SetStateIsOver(es[1..], u, b, v);
      assert SetState(es, u, b)[1..] == SetState(es[1..], u, b);
    }
  }

  /** After restartGame's loop no stored state is over, and the same players have one. */
  lemma {:induction false} RevivedSpec(es: seq<Entry>, v: UserId)
    ensures !IsOver(Revived(es), v)
    ensures |Revived(es)| == |es| && forall i :: 0 <= i < |es| ==> Revived(es)[i].userId == es[i].userId
  {
    if es != [] {
      RevivedSpec(es[1..], v);
      assert Revived(es)[1..] == Revived(es[1..]);
    }
  }

  /** updateGameState: the caller's stored state says what it sent, the states of the
      others are unchanged, and the rest of the room is told. */
  lemma UpdateStateSpec(s: Server, socket: SocketId, roomId: RoomId, isGameOver: bool, v: UserId)
    requires roomId in s.rooms && Caller(s, socket).Some?
    ensures var t := AfterUpdateState(s, socket, roomId, isGameOver); var u := Caller(s, socket).value;
      t.rooms.Keys == s.rooms.Keys && t.rooms[roomId].players == s.rooms[roomId].players &&
      IsOver(t.rooms[roomId].gameStates, v) == (if v == u then isGameOver else IsOver(s.rooms[roomId].gameStates, v)) &&
      t.events == s.events + [Event(ToRoomExcept(roomId, socket), GameStateUpdate(u, NameOf(s.rooms[roomId].players, u), isGameOver))]
  {
    SetStateIsOver(s.rooms[roomId].gameStates, Caller(s, socket).value, isGameOver, v);
  }

  /** tetrisPageLoaded: the caller is recorded as on the game page of the room and, when
      it has a target, told it again; nothing else changes. */
  lemma PageLoadedSpec(s: Server, socket: SocketId, roomId: RoomId)
    requires roomId in s.rooms && Caller(s, socket).Some?
    ensures var t := AfterPageLoaded(s, socket, roomId); var u := Caller(s, socket).value; var r := s.rooms[roomId];
      t.rooms == s.rooms[roomId := r.(movedToTetris := r.movedToTetris + {u})] &&
      u in t.rooms[roomId].movedToTetris &&
      (r.targetMap.Some? && u in r.targetMap.value <==> |t.events| == |s.events| + 1) &&
      (|t.events| == |s.events| + 1 ==>
         t.events[|s.events|] == Event(ToSocket(socket), TargetAssigned(r.targetMap.value[u], NameOf(r.players, r.targetMap.value[u]))))
  {
  }

  /** gameOver once the match is finished, or from an unbound socket, changes nothing. */
  lemma GameOverIgnored(s: Server, socket: SocketId, roomId: RoomId, score: int)
    requires roomId !in s.rooms || Caller(s, socket).None? || s.rooms[roomId].isGameFinished
    ensures AfterGameOver(s, socket, roomId, score) == s
  {
  }

  /** The winner is the one member whose stored state is not over. */
  lemma WinnerSpec(es: seq<Entry>, ps: seq<Player>)
    ensures Winner(es, ps).Some? ==> Winner(es, ps).value in Ids(ps) && Entry(Winner(es, ps).value, false) in es
    ensures Winner(es, ps).Some? <==> |Survivors(es, ps)| == 1
  {
    SurvivorsSpec(es, ps);
  }

  /** A gameOver that ends the match: the room, with the caller marked over, is
      finished, its interval cleared, and the winner announced last. */
  lemma GameOverWins(s: Server, socket: SocketId, roomId: RoomId, score: int, u: UserId)
    requires roomId in s.rooms && Caller(s, socket) == Some(u) && !s.rooms[roomId].isGameFinished
    requires Winner(SetState(s.rooms[roomId].gameStates, u, true), s.rooms[roomId].players).Some?
    requires |s.rooms[roomId].players| > 1
    ensures var t := AfterGameOver(s, socket, roomId, score); var r := s.rooms[roomId];
      var w := Winner(SetState(r.gameStates, u, true), r.players).value;
      t.rooms == s.rooms[roomId := Finish(r.(gameStates := SetState(r.gameStates, u, true)))] &&
      roomId !in t.timers &&
      t.events[|t.events| - 1] == Event(ToRoom(roomId), GameWin(w, NameOf(r.players, w), r.players))
  {
    var r := s.rooms[roomId];
    var w := Winner(SetState(r.gameStates, u, true), r.players);
    var t := MarkedOver(s, socket, roomId, u, score);
    assert AfterGameOver(s, socket, roomId, score) == Won(t, roomId, w.value);
  }

  /** A gameOver that does not end the match only marks the caller over. */
  lemma GameOverContinues(s: Server, socket: SocketId, roomId: RoomId, score: int, u: UserId)
    requires roomId in s.rooms && Caller(s, socket) == Some(u) && !s.rooms[roomId].isGameFinished
    requires Winner(SetState(s.rooms[roomId].gameStates, u, true), s.rooms[roomId].players).None? ||
             |s.rooms[roomId].players| <= 1
    ensures var t := AfterGameOver(s, socket, roomId, score); var r := s.rooms[roomId];
      t.rooms == s.rooms[roomId := r.(gameStates := SetState(r.gameStates, u, true))] && t.timers == s.timers
  {
    assert AfterGameOver(s, socket, roomId, score) == MarkedOver(s, socket, roomId, u, score);
  }

  /** gameOver: the caller's stored state is over afterwards; the match ends exactly when
      one member with a stored state is still playing and the room has more than one
      player, and then the room is finished, stopped and waiting, and that member, a
      player whose stored state is not over, is announced as the winner. Otherwise the
      room stays started or stopped as it was. */
  lemma GameOverSpec(s: Server, socket: SocketId, roomId: RoomId, score: int, u: UserId)
    requires Inv(s) && roomId in s.rooms && Caller(s, socket) == Some(u) && !s.rooms[roomId].isGameFinished
    ensures var t := AfterGameOver(s, socket, roomId, score); var r := s.rooms[roomId];
      var w := Winner(SetState(r.gameStates, u, true), r.players);
      roomId in t.rooms && t.rooms[roomId].players == r.players && IsOver(t.rooms[roomId].gameStates, u) &&
      (t.rooms[roomId].isGameFinished <==> w.Some? && |r.players| > 1) &&
      (t.rooms[roomId].isGameFinished ==>
         !t.rooms[roomId].isGameStarted && t.rooms[roomId].status == Waiting &&
         w.value in Ids(r.players) && Entry(w.value, false) in t.rooms[roomId].gameStates) &&
      (!t.rooms[roomId].isGameFinished ==> t.rooms[roomId].isGameStarted == r.isGameStarted)
  {
    var r := s.rooms[roomId];
    SetStateIsOver(r.gameStates, u, true, u);
    WinnerSpec(SetState(r.gameStates, u, true), r.players);
    if Winner(SetState(r.gameStates, u, true), r.players).Some? && |r.players| > 1 {
      GameOverWins(s, socket, roomId, score, u);
    } else {
      GameOverContinues(s, socket, roomId, score, u);
    }
  }

  /** A subset is no larger than its superset, and a proper subset is smaller. */
  lemma {:induction false} SubsetCard<T>(a: set<T>, b: set<T>)
    requires a <= b
    ensures |a| <= |b| && (a != b ==> |a| < |b|)
    decreases |a|
  {
    if a != {} {
      var x :| x in a;
      SubsetCard(a - {x}, b - {x});
      assert |a - {x}| == |a| - 1 && |b - {x}| == |b| - 1;
      assert a != b ==> a - {x} != b - {x} by {
        if a - {x} == b - {x} {
          assert a == (a - {x}) + {x} && b == (b - {x}) + {x};
        }
      }
    } else if b != {} {
      var y :| y in b;
      assert |b| >= 1 by { assert y in b; }
    }
  }

  /** With acknowledgements from members only, there are as many acknowledgements as
      players exactly when every player has acknowledged. */
  lemma AllAcknowledged(ps: seq<Player>, acks: set<UserId>)
    requires Distinct(ps) && forall v :: v in acks ==> v in Ids(ps)
    ensures |acks| == |ps| <==> forall v :: v in Ids(ps) ==> v in acks
  {
    DistinctCount(ps);
    var all := IdSet(ps);
    assert acks <= all;
    SubsetCard(acks, all);
    if |acks| == |ps| {
      assert acks == all;
      forall v | v in Ids(ps) ensures v in acks { assert v in all; }
    }
    if forall v :: v in Ids(ps) ==> v in acks {
      assert all <= acks;
    }
  }

  /** restartGame by a member, when every earlier acknowledgement came from a member:
      once every player has acknowledged, the room is reopened and its interval is gone;
      until then only the acknowledgement is recorded. */
  lemma RestartSpec(s: Server, socket: SocketId, roomId: RoomId, u: UserId)
    requires Inv(s) && roomId in s.rooms && Caller(s, socket) == Some(u) && u in Ids(s.rooms[roomId].players)
    requires forall v :: v in s.rooms[roomId].playersRestarted ==> v in Ids(s.rooms[roomId].players)
    ensures var t := AfterRestart(s, socket, roomId); var r := s.rooms[roomId];
      var acks := r.playersRestarted + {u};
      roomId in t.rooms &&
      ((forall v :: v in Ids(r.players) ==> v in acks) ==> t.rooms[roomId] == Reopen(r) && roomId !in t.timers) &&
      (!(forall v :: v in Ids(r.players) ==> v in acks) ==> t.rooms[roomId] == r.(playersRestarted := acks))
  {
    var r := s.rooms[roomId];
    var acks := r.playersRestarted + {u};
    var t := Acknowledged(s, roomId, u);
    assert t.rooms[roomId] == r.(playersRestarted := acks);
    AllAcknowledged(r.players, acks);
    if |acks| == |r.players| {
      assert AfterRestart(s, socket, roomId) == Reopened(t, roomId);
    } else {
      assert AfterRestart(s, socket, roomId) == t;
    }
  }

  /** A reopened room keeps its players and is not finished, stopped, waiting, without an
      interval, with no stored state over and no acknowledgements left. */
  lemma ReopenSpec(r: Room)
    ensures var o := Reopen(r);
      o.players == r.players && !o.isGameFinished && !o.isGameStarted && o.status == Waiting &&
      !o.armed && o.playersRestarted == {} && forall v :: !IsOver(o.gameStates, v)
  {
    forall v ensures !IsOver(Revived(r.gameStates), v) {
      RevivedSpec(r.gameStates, v);
    }
  }

  // ---------------------------------------------------------------------------
  // The loops of the handlers
  // ---------------------------------------------------------------------------

  /** One attacker of assignTargets' loop: its entry and its emit. */
  lemma TargetStep(us: map<UserId, SocketId>, ps: seq<Player>, picks: seq<nat>, i: nat)
    requires 2 <= |ps| && i < |ps| && PicksOK(|ps|, picks)
    ensures TargetOf(Ids(ps), picks, i) ==
      if |ps| == 2 then (if ps[0].userId != ps[i].userId then ps[0].userId else ps[1].userId) else ps[picks[i]].userId
    ensures Targets(Ids(ps), picks, i + 1) == Targets(Ids(ps), picks, i)[ps[i].userId := TargetOf(Ids(ps), picks, i)]
    ensures TargetEvents(us, ps, picks, i + 1) == TargetEvents(us, ps, picks, i) + Assignment(us, ps, ps[i].userId, TargetOf(Ids(ps), picks, i))
  {
  }

  /** The targetAssigned emit to attacker a, when it has a (non-empty) socket. */
  function Assignment(us: map<UserId, SocketId>, ps: seq<Player>, a: UserId, t: UserId): seq<Event>
  {
    if a in us && us[a] != "" then [Event(ToSocket(us[a]), TargetAssigned(t, NameOf(ps, t)))] else []
  }

  /** assignTargets' forEach over the players: the targetMap it builds and the
      targetAssigned emits it makes. */
  method TargetLoop(us: map<UserId, SocketId>, ps: seq<Player>, picks: seq<nat>)
    returns (m: map<UserId, UserId>, es: seq<Event>)
    requires 2 <= |ps| && PicksOK(|ps|, picks)
    ensures m == Targets(Ids(ps), picks, |ps|) && es == TargetEvents(us, ps, picks, |ps|)
  {
    m, es := map[], [];
    var i := 0;
    while i < |ps|
      invariant 0 <= i <= |ps|
      invariant m == Targets(Ids(ps), picks, i)
      invariant es == TargetEvents(us, ps, picks, i)
    {
      var attacker := ps[i].userId;
      var target := if |ps| == 2 then (if ps[0].userId != attacker then ps[0].userId else ps[1].userId)
                    else ps[picks[i]].userId;
      TargetStep(us, ps, picks, i);
      m := m[attacker := target];
      if attacker in us && us[attacker] != "" {
        es := es + [Event(ToSocket(us[attacker]), TargetAssigned(target, NameOf(ps, target)))];
      }
      i := i + 1;
    }
  }

  /** gameOver's count of the members still playing, with the last of them. */
  method CountSurvivors(es: seq<Entry>, ps: seq<Player>) returns (count: nat, last: Option<UserId>)
    ensures count == |Survivors(es, ps)|
    ensures count > 0 ==> last == Some(Survivors(es, ps)[count - 1])
    ensures count == 1 <==> Winner(es, ps).Some?
    ensures count == 1 ==> last == Winner(es, ps)
  {
    count, last := 0, None;
    var i := 0;
    while i < |es|
      invariant 0 <= i <= |es|
      invariant count == |Survivors(es[..i], ps)|
      invariant count > 0 ==> last == Some(Survivors(es[..i], ps)[count - 1])
    {
      assert es[..i + 1][..i] == es[..i];
      if es[i].userId in Ids(ps) && !es[i].isGameOver {
        count := count + 1;
        last := Some(es[i].userId);
      }
      i := i + 1;
    }
    assert es[..|es|] == es;
    assert count == 1 ==> Winner(es, ps) == Some(Survivors(es, ps)[0]);
  }

  /** restartGame's loop over the stored states: none is over afterwards. */
  method ReviveAll(es: seq<Entry>) returns (r: seq<Entry>)
    ensures r == Revived(es)
  {
    r := [];
    var i := 0;
    while i < |es|
      invariant 0 <= i <= |es|
      invariant r == Revived(es[..i])
    {
      assert Revived(es[..i + 1]) == Revived(es[..i]) + [es[i].(isGameOver := false)];
      r := r + [es[i].(isGameOver := false)];
      i := i + 1;
    }
    assert es[..|es|] == es;
  }

  // ---------------------------------------------------------------------------
  // The coordinator
  // ---------------------------------------------------------------------------

  /** The server process: its maps as fields, one method per socket handler. */
  class Coordinator {
    var rooms: map<RoomId, Room>
    var order: seq<RoomId>
    var timers: set<RoomId>
    var userSocket: map<UserId, SocketId>
    var socketUser: map<SocketId, UserId>
    var events: seq<Event>

    /** The fields as a value. */
    function Model(): Server
      reads this
    {
      Server(rooms, order, timers, userSocket, socketUser, events)
    }

    ghost predicate Valid()
      reads this
    {
      Inv(Model())
    }

    /** The server at start-up: no rooms, no bindings, nothing emitted. */
    constructor()
      ensures Model() == Boot() && Valid()
    {
      rooms, order, timers := map[], [], {};
      userSocket, socketUser, events := map[], map[], [];
      BootKeepsInv();
    }

    // The steps the handlers are made of.

    method Emit(es: seq<Event>)
      modifies this`events
      ensures Model() == Emitted(old(Model()), es)
    {
      events := events + es;
    }

    method Put(id: RoomId, r: Room)
      modifies this`rooms
      ensures Model() == Stored(old(Model()), id, r)
    {
      rooms := rooms[id := r];
    }

    method Replace(id: RoomId, r: Room)
      modifies this`rooms, this`timers
      ensures Model() == Replaced(old(Model()), id, r)
    {
      rooms := rooms[id := r];
      timers := if r.armed then timers + {id} else timers - {id};
    }

    method Bind(u: UserId, socket: SocketId)
      modifies this`userSocket, this`socketUser
      ensures Model() == Bound(old(Model()), u, socket)
    {
      userSocket := userSocket[u := socket];
      socketUser := socketUser[socket := u];
    }

    method Add(id: RoomId, r: Room)
      modifies this`rooms, this`order
      ensures Model() == old(Model()).(rooms := old(rooms)[id := r], order := old(order) + [id])
    {
      rooms := rooms[id := r];
      order := order + [id];
    }

    method Close(id: RoomId, armed: bool)
      modifies this`rooms, this`order, this`timers, this`events
      ensures Model() == Closed(old(Model()), id, armed)
    {
      if armed {
        timers := timers - {id};
      }
      rooms := rooms - {id};
      order := Dropped(order, id);
      events := events + [Event(ToEveryone, RoomListUpdated)];
    }

    method Unbind(socket: SocketId, u: UserId)
      modifies this`userSocket, this`socketUser
      ensures Model() == old(Model()).(socketUser := old(socketUser) - {socket},
                                       userSocket := if u in old(userSocket) && old(userSocket)[u] == socket
                                                     then old(userSocket) - {u} else old(userSocket))
    {
      socketUser := socketUser - {socket};
      if u in userSocket && userSocket[u] == socket {
        userSocket := userSocket - {u};
      }
    }

    // The handlers.

    /** getPublicRoomList. */
    method GetPublicRoomList() returns (list: seq<Summary>)
      requires Valid()
      ensures list == RoomList(Model())
    {
      list := [];
      var i := 0;
      while i < |order|
        invariant 0 <= i <= |order|
        invariant |list| == i && forall k :: 0 <= k < i ==> list[k] == RoomList(Model())[k]
      {
        list := list + [SummaryOf(order[i], rooms[order[i]])];
        i := i + 1;
      }
    }

    /** getRoomList: the list goes back to the asking socket. */
    method GetRoomList(socket: SocketId)
      requires Valid()
      modifies this`events
      ensures Model() == Emitted(old(Model()), [Event(ToSocket(socket), RoomListResponse(RoomList(old(Model()))))])
      ensures Valid()
    {
      var list := GetPublicRoomList();
      Emit([Event(ToSocket(socket), RoomListResponse(list))]);
    }

    /** createRoom, under the id roomId the generator drew. */
    method CreateRoom(socket: SocketId, roomId: RoomId, roomName: string, maxPlayers: int,
                      isPrivate: bool, password: string, userId: UserId, nickname: string)
      requires Valid() && roomId !in rooms
      modifies this
      ensures Model() == AfterCreate(old(Model()), socket, roomId, roomName, maxPlayers, isPrivate, password, userId, nickname)
      ensures Valid()
    {
      ghost var s0 := Model();
      CreateKeepsInv(s0, socket, roomId, roomName, maxPlayers, isPrivate, password, userId, nickname);
      if userId == "" || nickname == "" {
        Emit([Event(ToSocket(socket), RoomCreateError)]);
        return;
      }
      var r := NewRoom(roomId, roomName, maxPlayers, isPrivate, password, userId, nickname, socket);
      Add(roomId, r);
      Bind(userId, socket);
      Emit([Event(ToSocket(socket), RoomCreated(roomId, ViewOf(r))), Event(ToEveryone, RoomListUpdated)]);
    }

    /** joinRoom. */
    method JoinRoom(socket: SocketId, roomId: RoomId, userId: UserId, nickname: string, password: string)
      requires Valid()
      modifies this
      ensures Model() == AfterJoin(old(Model()), socket, roomId, userId, nickname, password)
      ensures Valid()
    {
      ghost var s0 := Model();
      JoinKeepsInv(s0, socket, roomId, userId, nickname, password);
      var refusal := JoinCheck(Model(), roomId, userId, nickname, password);
      if refusal.Some? {
        Emit([Event(ToSocket(socket), JoinRoomError(refusal.value))]);
        return;
      }
      var r := Joined(rooms[roomId], userId, nickname, socket);
      Bind(userId, socket);
      Put(roomId, r);
      Emit([Event(ToSocket(socket), JoinRoomSuccess(roomId, ViewOf(r))),
            Event(ToRoomExcept(roomId, socket), PlayerJoined(roomId, userId, nickname, r.hostId, r.players)),
            Event(ToEveryone, RoomListUpdated)]);
    }

    /** A member u leaves room id. */
    method Depart(id: RoomId, u: UserId)
      requires id in rooms
      modifies this
      ensures Model() == AfterDepart(old(Model()), id, u)
    {
      var r := Departed(rooms[id], u);
      Emit([Event(ToRoom(id), PlayerLeft(id, u, r.hostId, r.players)), Event(ToRoom(id), PlayerDisconnect(u))]);
      if |r.players| == 0 {
        Close(id, r.armed);
      } else {
        Put(id, r);
      }
    }

    /** leaveRoom. */
    method LeaveRoom(roomId: RoomId, u: UserId)
      requires Valid()
      modifies this
      ensures Model() == AfterLeave(old(Model()), roomId, u)
      ensures Valid()
    {
      ghost var s0 := Model();
      LeaveKeepsInv(s0, roomId, u);
      if roomId !in rooms || u !in Ids(rooms[roomId].players) {
        return;
      }
      Depart(roomId, u);
      if roomId in rooms {
        Emit([Event(ToEveryone, RoomListUpdated)]);
      }
    }

    /** assignTargets on room id. */
    method AssignTargets(id: RoomId, picks: seq<nat>)
      requires id in rooms && PicksOK(|rooms[id].players|, picks)
      modifies this
      ensures Model() == Assigned(old(Model()), id, picks)
    {
      var r := rooms[id];
      if |r.players| <= 1 {
        return;
      }
      var m, es := TargetLoop(userSocket, r.players, picks);
      Put(id, r.(targetMap := Some(m)));
      Emit(es);
    }

    /** startGame, with the draws of the first assignTargets. */
    method StartGame(socket: SocketId, roomId: RoomId, userId: UserId, picks: seq<nat>)
      requires Valid() && (roomId in rooms ==> PicksOK(|rooms[roomId].players|, picks))
      modifies this
      ensures Model() == AfterStart(old(Model()), socket, roomId, userId, picks)
      ensures Valid()
    {
      ghost var s0 := Model();
      StartKeepsInv(s0, socket, roomId, userId, picks);
      var refusal := StartCheck(Model(), roomId, userId);
      if refusal.Some? {
        Emit([Event(ToSocket(socket), GameStartError(roomId, refusal.value))]);
        return;
      }
      var count := |rooms[roomId].players|;
      Put(roomId, Reset(rooms[roomId]));
      AssignTargets(roomId, picks);
      Replace(roomId, rooms[roomId].(armed := true));
      Emit([Event(ToRoom(roomId), MoveToTetrisPage(roomId)), Event(ToRoom(roomId), GameStart),
            Event(ToSocket(socket), GameStartSuccess(roomId, count))]);
    }

    /** A tick of room id's re-targeting interval. */
    method Retarget(id: RoomId, picks: seq<nat>)
      requires Valid() && id in timers && PicksOK(|rooms[id].players|, picks)
      modifies this
      ensures Model() == Assigned(old(Model()), id, picks)
      ensures Valid()
    {
      AssignedKeepsInv(Model(), id, picks);
      AssignTargets(id, picks);
    }

    /** tetrisPageLoaded. */
    method TetrisPageLoaded(socket: SocketId, roomId: RoomId)
      requires Valid()
      modifies this
      ensures Model() == AfterPageLoaded(old(Model()), socket, roomId)
      ensures Valid()
    {
      ghost var s0 := Model();
      PageLoadedKeepsInv(s0, socket, roomId);
      if roomId !in rooms || socket !in socketUser || socketUser[socket] == "" {
        return;
      }
      var u := socketUser[socket];
      var r := rooms[roomId];
      Put(roomId, r.(movedToTetris := r.movedToTetris + {u}));
      if r.targetMap.Some? && u in r.targetMap.value {
        var t := r.targetMap.value[u];
        Emit([Event(ToSocket(socket), TargetAssigned(t, NameOf(r.players, t)))]);
      } else {
        Emit([]);
      }
    }

    /** lineCleared, with the 30% draw for a single line as lucky. */
    method LineCleared(socket: SocketId, roomId: RoomId, lines: int, lucky: bool)
      requires Valid()
      modifies this`events
      ensures Model() == AfterLineCleared(old(Model()), socket, roomId, lines, lucky)
      ensures Valid()
    {
      if roomId !in rooms || socket !in socketUser || socketUser[socket] == "" {
        return;
      }
      var attacker := socketUser[socket];
      var r := rooms[roomId];
      if r.targetMap.None? || attacker !in r.targetMap.value {
        return;
      }
      var garbage := GarbageFor(lines, lucky);
      if garbage == 0 {
        return;
      }
      var target := r.targetMap.value[attacker];
      if IsOver(r.gameStates, target) {
        return;
      }
      if target in userSocket && userSocket[target] != "" {
        Emit([Event(ToSocket(userSocket[target]), ReceiveGarbage(garbage))]);
      }
    }

    /** updateGameState, of which only the isGameOver flag is kept. */
    method UpdateGameState(socket: SocketId, roomId: RoomId, isGameOver: bool)
      requires Valid()
      modifies this
      ensures Model() == AfterUpdateState(old(Model()), socket, roomId, isGameOver)
      ensures Valid()
    {
      ghost var s0 := Model();
      UpdateStateKeepsInv(s0, socket, roomId, isGameOver);
      if roomId !in rooms || socket !in socketUser || socketUser[socket] == "" {
        return;
      }
      var u := socketUser[socket];
      var r := rooms[roomId];
      Put(roomId, r.(gameStates := SetState(r.gameStates, u, isGameOver)));
      Emit([Event(ToRoomExcept(roomId, socket), GameStateUpdate(u, NameOf(r.players, u), isGameOver))]);
    }

    /** The end of the match in room id, won by w. */
    method Win(id: RoomId, w: UserId)
      requires id in rooms
      modifies this
      ensures Model() == Won(old(Model()), id, w)
    {
      var r := rooms[id];
      Replace(id, Finish(r));
      Emit([Event(ToRoom(id), GameWin(w, NameOf(r.players, w), r.players))]);
    }

    /** gameOver. */
    method GameOver(socket: SocketId, roomId: RoomId, score: int)
      requires Valid()
      modifies this
      ensures Model() == AfterGameOver(old(Model()), socket, roomId, score)
      ensures Valid()
    {
      ghost var s0 := Model();
      GameOverKeepsInv(s0, socket, roomId, score);
      if roomId !in rooms || socket !in socketUser || socketUser[socket] == "" || rooms[roomId].isGameFinished {
        return;
      }
      var u := socketUser[socket];
      var r := rooms[roomId];
      var states := SetState(r.gameStates, u, true);
      Put(roomId, r.(gameStates := states));
      Emit([Event(ToRoomExcept(roomId, socket), PlayerGameOver(u, score)),
            Event(ToRoomExcept(roomId, socket), GameStateUpdate(u, NameOf(r.players, u), true))]);
      ghost var t := Model();
      assert t == MarkedOver(s0, socket, roomId, u, score);
      var count, last := CountSurvivors(states, r.players);
      assert Caller(s0, socket) == Some(u) && s0.rooms[roomId] == r;
      if count == 1 && |r.players| > 1 {
        assert AfterGameOver(s0, socket, roomId, score) == Won(t, roomId, last.value);
        Win(roomId, last.value);
      } else {
        assert AfterGameOver(s0, socket, roomId, score) == t;
      }
    }

    /** The room id reopened for another match. */
    method Reopen(id: RoomId)
      requires id in rooms
      modifies this
      ensures Model() == Reopened(old(Model()), id)
    {
      var r := rooms[id];
      var states := ReviveAll(r.gameStates);
      Replace(id, r.(isGameFinished := false, isGameStarted := false, status := Waiting, armed := false,
                     gameStates := states, playersRestarted := {}, movedToTetris := {}));
      Emit([Event(ToRoom(id), GameRestart)]);
    }

    /** restartGame. */
    method RestartGame(socket: SocketId, roomId: RoomId)
      requires Valid()
      modifies this
      ensures Model() == AfterRestart(old(Model()), socket, roomId)
      ensures Valid()
    {
      ghost var s0 := Model();
      RestartKeepsInv(s0, socket, roomId);
      if roomId !in rooms || socket !in socketUser || socketUser[socket] == "" {
        return;
      }
      var u := socketUser[socket];
      var r := rooms[roomId];
      var acks := r.playersRestarted + {u};
      Put(roomId, r.(playersRestarted := acks));
      Emit([Event(ToRoom(roomId), PlayerRestarted(u, NameOf(r.players, u), |acks|, |r.players|))]);
      assert Model() == Acknowledged(s0, roomId, u);
      if |acks| == |r.players| {
        Reopen(roomId);
      }
    }

    /** One round of disconnect's loop. */
    method LeaveIfMember(id: RoomId, u: UserId)
      modifies this
      ensures Model() == DepartOne(old(Model()), u, id)
    {
      if id in rooms && u in Ids(rooms[id].players) {
        Depart(id, u);
      }
    }

    /** disconnect. */
    method Disconnect(socket: SocketId)
      requires Valid()
      modifies this
      ensures Model() == AfterDisconnect(old(Model()), socket)
      ensures Valid()
    {
      ghost var s0 := Model();
      DisconnectKeepsInv(s0, socket);
      if socket !in socketUser || socketUser[socket] == "" {
        return;
      }
      var u := socketUser[socket];
      Unbind(socket, u);
      var ids := order;
      assert DepartAll(Model(), u, ids) == AfterDisconnect(s0, socket);
      var i := 0;
      while i < |ids|
        invariant 0 <= i <= |ids|
        invariant DepartAll(Model(), u, ids[i..]) == AfterDisconnect(s0, socket)
      {
        assert ids[i..][1..] == ids[i + 1..];
        LeaveIfMember(ids[i], u);
        i := i + 1;
      }
      assert ids[i..] == [];
    }
  }
}
