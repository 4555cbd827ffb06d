/**
 * The room bookkeeping of lobby_manager.py as values. A `LobbyState` holds the four
 * dictionaries and the room counter of a `LobbyManager`; each operation is a function from
 * state to state, `Consistent` is the invariant tying players to rooms, and every
 * operation is proved to keep it. The class in lobby.dfy follows these functions.
 *
 * Room ids `room_<n>` are represented by `n`, and player ids `player_<k>_<t>` by the pair
 * `(k, t)`; both string forms are one-to-one in these numbers. Clock readings are
 * parameters.
 */
module LobbyRules {
  import opened Common

  datatype RoomStatus = Waiting | Playing | Finished

  /** `player_<ordinal>_<stamp>`: the ordinal is `len(players) + 1`, the stamp whole seconds. */
  datatype PlayerId = PlayerId(ordinal: nat, stamp: int)

  datatype PlayerInfo = PlayerInfo(id: PlayerId, name: string, connectedTime: int, isReady: bool)

  datatype Room = Room(
    roomId: nat,
    roomName: string,
    host: PlayerInfo,
    guest: Option<PlayerInfo>,
    status: RoomStatus,
    createdTime: int,
    maxPlayers: int,
    isPrivate: bool,
    password: string)

  /** `GameRoom.is_full`. */
  predicate IsFull(r: Room) {
    r.guest.Some?
  }

  /** `GameRoom.get_player_count`: the host, plus the guest if there is one. */
  function PlayerCount(r: Room): int {
    if r.guest.Some? then 2 else 1
  }

  /** `GameRoom.can_join`. */
  predicate CanJoin(r: Room) {
    r.status == Waiting && !IsFull(r)
  }

  /** A room counts one or two players, two exactly when it is full, and only a waiting room with a free seat is joinable. */
  lemma RoomPredicates(r: Room)
    ensures PlayerCount(r) == 1 || PlayerCount(r) == 2
    ensures PlayerCount(r) == 2 <==> IsFull(r)
    ensures CanJoin(r) <==> r.status == Waiting && PlayerCount(r) == 1
  {
  }

  /** `GameRoom.to_dict`. */
  datatype RoomSummary = RoomSummary(
    roomId: nat,
    roomName: string,
    hostName: string,
    playerCount: int,
    maxPlayers: int,
    status: RoomStatus,
    isPrivate: bool,
    createdTime: int)

  function Summary(r: Room): RoomSummary {
    RoomSummary(r.roomId, r.roomName, r.host.name, PlayerCount(r), r.maxPlayers, r.status, r.isPrivate, r.createdTime)
  }

  datatype LobbyState = LobbyState(
    rooms: map<nat, Room>,
    players: map<PlayerId, PlayerInfo>,
    clientToPlayer: map<string, PlayerId>,
    playerToRoom: map<PlayerId, nat>,
    nextRoomId: nat)

  /** A player seated in a room: its host or its guest. */
  predicate Seated(r: Room, p: PlayerId) {
    r.host.id == p || (r.guest.Some? && r.guest.value.id == p)
  }

  /**
   * Players are stored under their own id. Every `player_to_room` entry names an existing room in which the player is seated, and
   * every seated player has an entry naming that room. Rooms are stored under their own
   * id, which lies below the next id to hand out.
   */
  ghost predicate Consistent(l: LobbyState) {
    l.nextRoomId >= 1 &&
    (forall p :: p in l.players ==> l.players[p].id == p) &&
    (forall p :: p in l.playerToRoom ==> l.playerToRoom[p] in l.rooms && Seated(l.rooms[l.playerToRoom[p]], p)) &&
    (forall id :: id in l.rooms ==>
      l.rooms[id].roomId == id && id < l.nextRoomId &&
      l.rooms[id].host.id in l.playerToRoom && l.playerToRoom[l.rooms[id].host.id] == id &&
      (l.rooms[id].guest.Some? ==>
        l.rooms[id].guest.value.id in l.playerToRoom && l.playerToRoom[l.rooms[id].guest.value.id] == id))
  }

  /** `LobbyManager()`. */
  const EmptyLobby := LobbyState(map[], map[], map[], map[], 1)

  lemma EmptyLobbyConsistent()
    ensures Consistent(EmptyLobby)
  {
  }

  /** `add_player`: a new `PlayerInfo` under the id built from the player count and the clock. */
  function AddPlayer(l: LobbyState, client: string, name: string, now: int): (res: (LobbyState, PlayerInfo))
  {
    var p := PlayerInfo(PlayerId(|l.players| + 1, now), name, now, false);
    (l.(players := l.players[p.id := p], clientToPlayer := l.clientToPlayer[client := p.id]), p)
  }

  /**
   * Adding a player touches only `players` and `client_to_player`. Two players added within the
   * same second after a removal can share an id; the second then replaces the first, and the
   * invariant still holds.
   */
  lemma AddPlayerKeeps(l: LobbyState, client: string, name: string, now: int)
    requires Consistent(l)
    ensures var (l', p) := AddPlayer(l, client, name, now);
      Consistent(l') && l'.clientToPlayer[client] == p.id && l'.players[p.id] == p &&
      l'.rooms == l.rooms && l'.playerToRoom == l.playerToRoom && l'.nextRoomId == l.nextRoomId
  {
  }

  /** `create_room` at time `now`: `None` with no change for an unknown client or a seated player. */
  function CreateRoom(l: LobbyState, client: string, name: string, isPrivate: bool, password: string, now: int)
    : (res: (LobbyState, Option<Room>))
  {
    if client !in l.clientToPlayer then (l, None)
    else
      var pid := l.clientToPlayer[client];
      if pid !in l.players || pid in l.playerToRoom then (l, None)
      else
        var room := Room(l.nextRoomId, name, l.players[pid], None, Waiting, now, 2, isPrivate, password);
        (l.(rooms := l.rooms[room.roomId := room], playerToRoom := l.playerToRoom[pid := room.roomId],
            nextRoomId := l.nextRoomId + 1), Some(room))
  }

  /**
   * A room is created exactly for a known, unseated player: it gets the next id, the player as
   * host and no guest, the counter moves on, and the host is mapped to it; no existing room
   * changes.
   */
  lemma CreateRoomSpec(l: LobbyState, client: string, name: string, isPrivate: bool, password: string, now: int)
    requires Consistent(l)
    ensures var (l', r) := CreateRoom(l, client, name, isPrivate, password, now);
      Consistent(l') &&
      (r.Some? <==> client in l.clientToPlayer && l.clientToPlayer[client] in l.players &&
                    l.clientToPlayer[client] !in l.playerToRoom) &&
      (r.None? ==> l' == l) &&
      (r.Some? ==>
        var pid := l.clientToPlayer[client];
        r.value.roomId == l.nextRoomId && l.nextRoomId !in l.rooms && r.value.host == l.players[pid] &&
        r.value.guest == None && r.value.status == Waiting &&
        l'.rooms == l.rooms[l.nextRoomId := r.value] && l'.nextRoomId == l.nextRoomId + 1 &&
        l'.playerToRoom == l.playerToRoom[pid := l.nextRoomId] &&
        l'.players == l.players && l'.clientToPlayer == l.clientToPlayer)
  {
    var (l', r) := CreateRoom(l, client, name, isPrivate, password, now);
    if r.Some? {
      var pid := l.clientToPlayer[client];
      var rid := l.nextRoomId;
      assert rid !in l.rooms;
      forall p | p in l'.playerToRoom
        ensures l'.playerToRoom[p] in l'.rooms && Seated(l'.rooms[l'.playerToRoom[p]], p)
      {
        if p != pid {
          assert l.playerToRoom[p] in l.rooms;
        }
      }
      forall id | id in l'.rooms && id != rid
        ensures l'.rooms[id] == l.rooms[id] && l.rooms[id].host.id != pid
        ensures l.rooms[id].guest.Some? ==> l.rooms[id].guest.value.id != pid
      {
      }
    }
  }

  /** `join_room`: `None` with no change unless the client's player is free and the room takes it. */
  function JoinRoom(l: LobbyState, client: string, roomId: nat, password: string): (res: (LobbyState, Option<Room>))
  {
    if client !in l.clientToPlayer then (l, None)
    else
      var pid := l.clientToPlayer[client];
      if pid !in l.players || roomId !in l.rooms then (l, None)
      else if pid in l.playerToRoom then (l, None)
      else
        var room := l.rooms[roomId];
        if !CanJoin(room) then (l, None)
        else if room.isPrivate && room.password != password then (l, None)
        else
          var room' := room.(guest := Some(l.players[pid]));
          (l.(rooms := l.rooms[roomId := room'], playerToRoom := l.playerToRoom[pid := roomId]), Some(room'))
  }

  /**
   * A join succeeds exactly for a known, unseated player, an existing joinable room and, if
   * the room is private, the right password; it seats the player as guest and maps it to
   * the room. A refused join changes nothing.
   */
  lemma JoinRoomSpec(l: LobbyState, client: string, roomId: nat, password: string)
    requires Consistent(l)
    ensures var (l', r) := JoinRoom(l, client, roomId, password);
      Consistent(l') &&
      (r.Some? <==>
        client in l.clientToPlayer && l.clientToPlayer[client] in l.players &&
        l.clientToPlayer[client] !in l.playerToRoom && roomId in l.rooms && CanJoin(l.rooms[roomId]) &&
        (l.rooms[roomId].isPrivate ==> l.rooms[roomId].password == password)) &&
      (r.None? ==> l' == l) &&
      (r.Some? ==>
        var pid := l.clientToPlayer[client];
        r.value == l.rooms[roomId].(guest := Some(l.players[pid])) &&
        l'.rooms == l.rooms[roomId := r.value] && l'.playerToRoom == l.playerToRoom[pid := roomId] &&
        l'.players == l.players && l'.clientToPlayer == l.clientToPlayer && l'.nextRoomId == l.nextRoomId)
  {
    var (l', r) := JoinRoom(l, client, roomId, password);
    if r.Some? {
      var pid := l.clientToPlayer[client];
      forall p | p in l'.playerToRoom
        ensures l'.playerToRoom[p] in l'.rooms && Seated(l'.rooms[l'.playerToRoom[p]], p)
      {
        if p != pid {
          assert l.playerToRoom[p] in l.rooms && Seated(l.rooms[l.playerToRoom[p]], p);
        }
      }
      forall id | id in l'.rooms && id != roomId
        ensures l'.rooms[id] == l.rooms[id] && l.rooms[id].host.id != pid
        ensures l.rooms[id].guest.Some? ==> l.rooms[id].guest.value.id != pid
      {
      }
      assert l.rooms[roomId].host.id != pid;
    }
  }

  /** `leave_room`: the host closes the room and unseats its guest; a guest frees its seat. */
  function LeaveRoom(l: LobbyState, pid: PlayerId): (res: (LobbyState, bool))
  {
    if pid !in l.playerToRoom then (l, false)
    else
      var roomId := l.playerToRoom[pid];
      if roomId !in l.rooms then (l, false)
      else
        var room := l.rooms[roomId];
        if room.host.id == pid then
          var ptr := if room.guest.Some? && room.guest.value.id in l.playerToRoom
            then l.playerToRoom - {room.guest.value.id} else l.playerToRoom;
          (l.(rooms := l.rooms - {roomId}, playerToRoom := ptr - {pid}), true)
        else
          (l.(rooms := l.rooms[roomId := room.(guest := None, status := Waiting)],
              playerToRoom := l.playerToRoom - {pid}), true)
  }

  /**
   * Leaving fails, changing nothing, for an unseated player. A host leaving deletes the room
   * and the entries of host and guest; a guest leaving empties the guest seat and sets the
   * room back to waiting. Nothing else changes.
   */
  lemma LeaveRoomSpec(l: LobbyState, pid: PlayerId)
    requires Consistent(l)
    ensures var (l', ok) := LeaveRoom(l, pid);
      Consistent(l') &&
      (ok <==> pid in l.playerToRoom) &&
      (!ok ==> l' == l) &&
      (ok ==>
        var roomId := l.playerToRoom[pid];
        var room := l.rooms[roomId];
        pid !in l'.playerToRoom && l'.players == l.players && l'.clientToPlayer == l.clientToPlayer &&
        l'.nextRoomId == l.nextRoomId &&
        (room.host.id == pid ==>
          l'.rooms == l.rooms - {roomId} &&
          l'.playerToRoom == l.playerToRoom - {pid} - (if room.guest.Some? then {room.guest.value.id} else {})) &&
        (room.host.id != pid ==>
          room.guest.Some? && room.guest.value.id == pid &&
          l'.rooms == l.rooms[roomId := room.(guest := None, status := Waiting)] &&
          l'.playerToRoom == l.playerToRoom - {pid}))
  {
    if pid in l.playerToRoom {
      if l.rooms[l.playerToRoom[pid]].host.id == pid {
        HostLeaves(l, pid);
      } else {
        GuestLeaves(l, pid);
      }
    }
  }

  /** A host leaving keeps the lobby consistent: no one else was seated in the closed room but its guest. */
  lemma HostLeaves(l: LobbyState, pid: PlayerId)
    requires Consistent(l) && pid in l.playerToRoom && l.rooms[l.playerToRoom[pid]].host.id == pid
    ensures Consistent(LeaveRoom(l, pid).0)
  {
    var roomId := l.playerToRoom[pid];
    var room := l.rooms[roomId];
    var l' := LeaveRoom(l, pid).0;
    forall p | p in l'.playerToRoom
      ensures l'.playerToRoom[p] in l'.rooms && Seated(l'.rooms[l'.playerToRoom[p]], p)
    {
      assert Seated(l.rooms[l.playerToRoom[p]], p);
    }
    forall id | id in l'.rooms
      ensures l'.rooms[id].host.id in l'.playerToRoom && l'.playerToRoom[l'.rooms[id].host.id] == id
      ensures l'.rooms[id].guest.Some? ==>
        l'.rooms[id].guest.value.id in l'.playerToRoom && l'.playerToRoom[l'.rooms[id].guest.value.id] == id
    {
      assert l'.rooms[id] == l.rooms[id];
    }
  }

  /** A guest leaving keeps the lobby consistent: its room keeps its host and loses only the guest. */
  lemma GuestLeaves(l: LobbyState, pid: PlayerId)
    requires Consistent(l) && pid in l.playerToRoom && l.rooms[l.playerToRoom[pid]].host.id != pid
    ensures Consistent(LeaveRoom(l, pid).0)
  {
    var roomId := l.playerToRoom[pid];
    var l' := LeaveRoom(l, pid).0;
    forall p | p in l'.playerToRoom
      ensures l'.playerToRoom[p] in l'.rooms && Seated(l'.rooms[l'.playerToRoom[p]], p)
    {
      assert Seated(l.rooms[l.playerToRoom[p]], p);
    }
    forall id | id in l'.rooms && id != roomId
      ensures l'.rooms[id].host.id in l'.playerToRoom && l'.playerToRoom[l'.rooms[id].host.id] == id
      ensures l'.rooms[id].guest.Some? ==>
        l'.rooms[id].guest.value.id in l'.playerToRoom && l'.playerToRoom[l'.rooms[id].guest.value.id] == id
    {
      assert l'.rooms[id] == l.rooms[id];
    }
  }

  /** `remove_player`: leave the room if seated, then forget the player and the client. */
  function RemovePlayer(l: LobbyState, client: string): (res: (LobbyState, bool))
  {
    if client !in l.clientToPlayer then (l, false)
    else
      var pid := l.clientToPlayer[client];
      if pid !in l.players then (l, false)
      else
        var l1 := if pid in l.playerToRoom then LeaveRoom(l, pid).0 else l;
        (l1.(players := l1.players - {pid}, clientToPlayer := l1.clientToPlayer - {client}), true)
  }

  /**
   * Removing fails for an unknown client (or one whose player entry is gone), changing nothing;
   * otherwise the player is out of every room and the player and client entries are deleted.
   */
  lemma RemovePlayerSpec(l: LobbyState, client: string)
    requires Consistent(l)
    ensures var (l', ok) := RemovePlayer(l, client);
      Consistent(l') &&
      (ok <==> client in l.clientToPlayer && l.clientToPlayer[client] in l.players) &&
      (!ok ==> l' == l) &&
      (ok ==>
        var pid := l.clientToPlayer[client];
        pid !in l'.playerToRoom && pid !in l'.players && client !in l'.clientToPlayer &&
        l'.players == l.players - {pid} && l'.clientToPlayer == l.clientToPlayer - {client} &&
        forall id :: id in l'.rooms ==> !Seated(l'.rooms[id], pid))
  {
    if client in l.clientToPlayer && l.clientToPlayer[client] in l.players {
      var pid := l.clientToPlayer[client];
      if pid in l.playerToRoom {
        LeaveRoomSpec(l, pid);
      }
    }
  }

  /** `start_game`: only an existing full room starts. */
  function StartGame(l: LobbyState, roomId: nat): (res: (LobbyState, bool))
  {
    if roomId !in l.rooms || !IsFull(l.rooms[roomId]) then (l, false)
    else (l.(rooms := l.rooms[roomId := l.rooms[roomId].(status := Playing)]), true)
  }

  /** Starting succeeds exactly for an existing full room and changes nothing but its status. */
  lemma StartGameSpec(l: LobbyState, roomId: nat)
    requires Consistent(l)
    ensures var (l', ok) := StartGame(l, roomId);
      Consistent(l') &&
      (ok <==> roomId in l.rooms && IsFull(l.rooms[roomId])) &&
      (!ok ==> l' == l) &&
      (ok ==> l'.rooms == l.rooms[roomId := l.rooms[roomId].(status := Playing)] &&
              l'.playerToRoom == l.playerToRoom && l'.players == l.players)
  {
  }

  // ---------------------------------------------------------------------------------
  // Public room listing

  /** A room `get_public_rooms` lists. */
  predicate IsPublic(r: Room) {
    !r.isPrivate && CanJoin(r)
  }

  /**
   * `a` is listed before `b`: it is newer, or as new and created earlier. Room ids count up
   * and a room is never stored twice, so `self.rooms` yields the rooms by ascending id, and
   * the stable `sort(reverse=True)` keeps that order among rooms with the same creation time.
   */
  predicate ListedBefore(a: RoomSummary, b: RoomSummary) {
    a.createdTime > b.createdTime || (a.createdTime == b.createdTime && a.roomId < b.roomId)
  }

  /** Newest first; rooms with the same creation time by ascending room id. */
  predicate NewestFirst(s: seq<RoomSummary>) {
    forall i, j :: 0 <= i < j < |s| ==> ListedBefore(s[i], s[j])
  }

  /** The summaries of exactly the public rooms, each once, in listing order. */
  predicate PublicListing(rooms: map<nat, Room>, out: seq<RoomSummary>) {
    Distinct(out) && NewestFirst(out) &&
    (forall x :: x in out ==> x.roomId in rooms && IsPublic(rooms[x.roomId]) && x == Summary(rooms[x.roomId])) &&
    (forall id :: id in rooms && IsPublic(rooms[id]) ==> Summary(rooms[id]) in out)
  }

  /** No summary in `s` is for the room of `x`. */
  predicate NewRoom(s: seq<RoomSummary>, x: RoomSummary) {
    forall y :: y in s ==> y.roomId != x.roomId
  }

  /** Inserts `x` in front of the first entry that is listed after it. */
  function InsertNewest(s: seq<RoomSummary>, x: RoomSummary): (r: seq<RoomSummary>)
  {
    if s == [] || ListedBefore(x, s[0]) then [x] + s
    else [s[0]] + InsertNewest(s[1..], x)
  }

  /** Inserting a new room keeps the listing in order and duplicate-free, and adds `x` to it and nothing else. */
  lemma InsertNewestSpec(s: seq<RoomSummary>, x: RoomSummary)
    requires NewestFirst(s) && NewRoom(s, x)
    ensures NewestFirst(InsertNewest(s, x)) && Distinct(InsertNewest(s, x))
    ensures forall y :: y in InsertNewest(s, x) <==> y in s || y == x
  {
    InsertNewestMembers(s, x);
    InsertNewestOrder(s, x);
  }

  lemma {:induction false} InsertNewestMembers(s: seq<RoomSummary>, x: RoomSummary)
    ensures forall y :: y in InsertNewest(s, x) <==> y in s || y == x
  {
    if s != [] && !ListedBefore(x, s[0]) {
      InsertNewestMembers(s[1..], x);
      assert s == [s[0]] + s[1..];
    }
  }

  lemma {:induction false} InsertNewestOrder(s: seq<RoomSummary>, x: RoomSummary)
    requires NewestFirst(s) && NewRoom(s, x)
    ensures NewestFirst(InsertNewest(s, x))
  {
    if s != [] && !ListedBefore(x, s[0]) {
      assert s[0] in s;
      assert ListedBefore(s[0], x);
      InsertNewestOrder(s[1..], x);
      InsertNewestMembers(s[1..], x);
      var r := InsertNewest(s[1..], x);
      forall y | y in r ensures ListedBefore(s[0], y) {
        if y != x {
          var k :| 0 <= k < |s[1..]| && s[1..][k] == y;
          assert s[k + 1] == y;
        }
      }
      assert forall i :: 0 < i <= |r| ==> ([s[0]] + r)[i] == r[i - 1];
    }
  }

  /** Of two rooms with the same creation time, the one created first is listed first, and only that order is allowed. */
  lemma EqualTimesByCreation(a: RoomSummary, b: RoomSummary)
    requires a.createdTime == b.createdTime && a.roomId < b.roomId
    ensures NewestFirst([a, b]) && !NewestFirst([b, a])
  {
    assert [b, a][0] == b && [b, a][1] == a;
  }

  /** Two lists in listing order with the same summaries are the same list. */
  lemma {:induction false} NewestFirstUnique(s: seq<RoomSummary>, t: seq<RoomSummary>)
    requires NewestFirst(s) && NewestFirst(t)
    requires forall x :: x in s <==> x in t
    ensures s == t
    decreases |s|
  {
    if s == [] {
      assert forall k :: 0 <= k < |t| ==> t[k] in t;
    } else {
      assert s[0] in s && s[0] in t;
      assert t[0] in t && t[0] in s;
      assert s[0] == t[0];
      forall x ensures x in s[1..] <==> x in t[1..] {
        if x in s[1..] {
          var i :| 1 <= i < |s| && s[i] == x;
          assert ListedBefore(s[0], s[i]) && x in s && x in t;
          var j :| 0 <= j < |t| && t[j] == x;
          assert t[1..][j - 1] == x;
        }
        if x in t[1..] {
          var j :| 1 <= j < |t| && t[j] == x;
          assert ListedBefore(t[0], t[j]) && x in t && x in s;
          var i :| 0 <= i < |s| && s[i] == x;
          assert s[1..][i - 1] == x;
        }
      }
      NewestFirstUnique(s[1..], t[1..]);
      assert s == [s[0]] + s[1..] && t == [t[0]] + t[1..];
    }
  }

  /**
   * The public listing is determined by the rooms: there is exactly one list of their
   * summaries in listing order, so `get_public_rooms` answers the same list however the
   * rooms are visited.
   */
  lemma PublicListingUnique(rooms: map<nat, Room>, a: seq<RoomSummary>, b: seq<RoomSummary>)
    requires PublicListing(rooms, a) && PublicListing(rooms, b)
    ensures a == b
  {
    NewestFirstUnique(a, b);
  }
}
