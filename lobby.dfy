/**
 * `LobbyManager` of lobby_manager.py: the four dictionaries and the room counter are
 * fields updated in place, and each method is proved to produce the state the matching
 * function of lobby_rules.dfy gives, so it keeps `Consistent`.
 */
module Lobby {
  import opened Common
  import opened LobbyRules

  class LobbyManager {
    var rooms: map<nat, Room>
    var players: map<PlayerId, PlayerInfo>
    var clientToPlayer: map<string, PlayerId>
    var playerToRoom: map<PlayerId, nat>
    var nextRoomId: nat

    function State(): LobbyState
      reads this
    {
      LobbyState(rooms, players, clientToPlayer, playerToRoom, nextRoomId)
    }

    ghost predicate Valid()
      reads this
    {
      Consistent(State())
    }

    constructor()
      ensures Valid() && State() == EmptyLobby
    {
      rooms, players, clientToPlayer, playerToRoom, nextRoomId := map[], map[], map[], map[], 1;
    }

    /** `add_player` at time `now`. */
    method AddPlayer(client: string, name: string, now: int) returns (p: PlayerInfo)
      requires Valid()
      modifies this
      ensures Valid() && (State(), p) == LobbyRules.AddPlayer(old(State()), client, name, now)
    {
      AddPlayerKeeps(State(), client, name, now);
      p := PlayerInfo(PlayerId(|players| + 1, now), name, now, false);
      players := players[p.id := p];
      clientToPlayer := clientToPlayer[client := p.id];
    }

    /** `create_room` at time `now`. */
    method CreateRoom(client: string, name: string, isPrivate: bool, password: string, now: int)
      returns (r: Option<Room>)
      requires Valid()
      modifies this
      ensures Valid() && (State(), r) == LobbyRules.CreateRoom(old(State()), client, name, isPrivate, password, now)
    {
      CreateRoomSpec(State(), client, name, isPrivate, password, now);
      if client !in clientToPlayer {
        return None;
      }
      var pid := clientToPlayer[client];
      if pid !in players {
        return None;
      }
      if pid in playerToRoom {
        return None;
      }
      var roomId := nextRoomId;
      nextRoomId := nextRoomId + 1;
      var room := Room(roomId, name, players[pid], None, Waiting, now, 2, isPrivate, password);
      rooms := rooms[roomId := room];
      playerToRoom := playerToRoom[pid := roomId];
      return Some(room);
    }

    /** `join_room`. */
    method JoinRoom(client: string, roomId: nat, password: string) returns (r: Option<Room>)
      requires Valid()
      modifies this
      ensures Valid() && (State(), r) == LobbyRules.JoinRoom(old(State()), client, roomId, password)
    {
      JoinRoomSpec(State(), client, roomId, password);
      if client !in clientToPlayer {
        return None;
      }
      var pid := clientToPlayer[client];
      if pid !in players || roomId !in rooms {
        return None;
      }
      if pid in playerToRoom {
        return None;
      }
      var room := rooms[roomId];
      if !CanJoin(room) {
        return None;
      }
      if room.isPrivate && room.password != password {
        return None;
      }
      room := room.(guest := Some(players[pid]));
      rooms := rooms[roomId := room];
      playerToRoom := playerToRoom[pid := roomId];
      return Some(room);
    }

    /** `leave_room`. */
    method LeaveRoom(pid: PlayerId) returns (ok: bool)
      requires Valid()
      modifies this
      ensures Valid() && (State(), ok) == LobbyRules.LeaveRoom(old(State()), pid)
    {
      LeaveRoomSpec(State(), pid);
      if pid !in playerToRoom {
        return false;
      }
      var roomId := playerToRoom[pid];
      if roomId !in rooms {
        return false;
      }
      var room := rooms[roomId];
      if room.host.id == pid {
        if room.guest.Some? {
          var guestId := room.guest.value.id;
          if guestId in playerToRoom {
            playerToRoom := playerToRoom - {guestId};
          }
        }
        rooms := rooms - {roomId};
      } else {
        rooms := rooms[roomId := room.(guest := None, status := Waiting)];
      }
      playerToRoom := playerToRoom - {pid};
      return true;
    }

    /** `remove_player`. */
    method RemovePlayer(client: string) returns (ok: bool)
      requires Valid()
      modifies this
      ensures Valid() && (State(), ok) == LobbyRules.RemovePlayer(old(State()), client)
    {
      RemovePlayerSpec(State(), client);
      if client !in clientToPlayer {
        return false;
      }
      var pid := clientToPlayer[client];
      if pid !in players {
        return false;
      }
      if pid in playerToRoom {
        var _ := LeaveRoom(pid);
      }
      players := players - {pid};
      clientToPlayer := clientToPlayer - {client};
      return true;
    }

    /** `start_game`. */
    method StartGame(roomId: nat) returns (ok: bool)
      requires Valid()
      modifies this
      ensures Valid() && (State(), ok) == LobbyRules.StartGame(old(State()), roomId)
    {
      StartGameSpec(State(), roomId);
      if roomId !in rooms || !IsFull(rooms[roomId]) {
        return false;
      }
      rooms := rooms[roomId := rooms[roomId].(status := Playing)];
      return true;
    }

    /** `get_public_rooms`: visits the rooms, keeps the public joinable ones, in listing order. */
    method GetPublicRooms() returns (out: seq<RoomSummary>)
      requires Valid()
      ensures PublicListing(rooms, out)
    {
      out := [];
      var left := rooms.Keys;
      while left != {}
        invariant left <= rooms.Keys
        invariant Distinct(out) && NewestFirst(out)
        invariant forall x :: x in out ==>
          x.roomId in rooms && x.roomId !in left && IsPublic(rooms[x.roomId]) && x == Summary(rooms[x.roomId])
        invariant forall id :: id in rooms && id !in left && IsPublic(rooms[id]) ==> Summary(rooms[id]) in out
        decreases left
      {
        var id :| id in left;
        var room := rooms[id];
        if IsPublic(room) {
          var s := Summary(room);
          assert NewRoom(out, s);
          InsertNewestSpec(out, s);
          out := InsertNewest(out, s);
        }
        left := left - {id};
      }
    }
  }
}
