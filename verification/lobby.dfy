/**
 * The lobby (lobby.go): registered clients, the rooms they created, and the
 * commands that move clients between rooms or reach a room's game.  Each
 * handler returns the new lobby together with the events it emits, in order:
 * broadcasts to every client, messages to one client, and actions handed to a
 * room's game or to the room itself.
 *
 * The source keys its room table by owning client; here rooms are keyed by
 * room id, and "the client owns a room" is the existence of a room with that
 * owner.  LobbyOk states the bookkeeping that makes the two agree.
 */
module Lobbies {
  import opened Wrappers
  import opened Cards
  import GameState
  import GameTurns
  import opened Rooms
  import opened Strings

  datatype Lobby = Lobby(clients: map<nat, Client>, rooms: map<nat, Room>, lastClientId: nat, lastRoomId: nat)

  datatype ClientInList = ClientInList(id: nat, nickname: string)

  /** Errors a lobby command can report to its sender. */
  datatype LobbyError = YouCanCreateOneRoomOnly | RoomDoesNotExist

  datatype Event =
    | ClientBroadcastJoined(id: nat, nickname: string)
    | ClientJoined(yourId: nat, yourNickname: string, clientList: set<ClientInList>, roomList: set<RoomInList>)
    | ClientLeft(leftId: nat)
    | ClientCreatedRoom(created: RoomInList)
    | RoomInListRemoved(roomId: nat)
    | RoomInListUpdated(updated: RoomInList)
    | RoomJoined(joinedId: nat)
    | CommandError(error: LobbyError)

  /** The data of a client command once decoded from its JSON text. */
  datatype Payload =
    | NoPayload
    | TextPayload(text: string)
    | NumberPayload(number: int)
    | AttackPayload(card: Card)
    | DefendPayload(attackingCard: Card, defendingCard: Card)
    | Malformed

  datatype ClientCommand = ClientCommand(kind: string, subType: string, data: Payload, clientId: nat)

  datatype Output =
    | Broadcast(event: Event)
    | SendTo(to: nat, event: Event)
    | ToGame(gameRoom: nat, action: GameTurns.PlayerAction)
    | ToRoom(room: nat, command: ClientCommand)

  datatype LobbyStep = LobbyStep(lobby: Lobby, out: seq<Output>)

  const CommandTypeLobby := "lobby"
  const LobbySubTypeJoin := "join"
  const LobbySubTypeCreateRoom := "createRoom"
  const LobbySubTypeJoinRoom := "joinRoom"
  const CommandTypeGame := "game"
  const GameSubTypeAttack := "attack"
  const GameSubTypeDefend := "defend"
  const GameSubTypePickUp := "pickUp"
  const GameSubTypeComplete := "complete"
  const CommandTypeRoom := "room"

  /** The width of the ids on the wire: a room id must fit an unsigned 64-bit integer. */
  const Uint64Limit := 0x1_0000_0000_0000_0000

  function NewLobby(): (l: Lobby)
    ensures l.clients == map[] && l.rooms == map[]
  {
    Lobby(map[], map[], 0, 0)
  }

  // ------------------------------------------------------------- invariant

  predicate ClientsOk(l: Lobby) {
    forall id :: id in l.clients ==> l.clients[id].id == id && id <= l.lastClientId
  }

  predicate RoomsOk(l: Lobby) {
    forall rid :: rid in l.rooms ==>
      l.rooms[rid].id == rid && rid <= l.lastRoomId && RoomOk(l.rooms[rid]) && |l.rooms[rid].clients| > 0
  }

  /** Every member of a room is a registered client that knows it is in that room. */
  predicate MembersRegistered(l: Lobby) {
    forall rid, m :: rid in l.rooms && m in l.rooms[rid].clients ==>
      m.id in l.clients && l.clients[m.id].room == Some(rid)
  }

  /** A client that believes it is in a room is a member of an existing room. */
  predicate RoomsOfClientsExist(l: Lobby) {
    forall id :: id in l.clients && l.clients[id].room.Some? ==>
      l.clients[id].room.value in l.rooms && IsMember(l.rooms[l.clients[id].room.value], id)
  }

  predicate LobbyOk(l: Lobby) {
    ClientsOk(l) && RoomsOk(l) && MembersRegistered(l) && RoomsOfClientsExist(l)
  }

  lemma NewLobbyOk()
    ensures LobbyOk(NewLobby())
  {
  }

  /** Under the invariant each client owns at most one room: the one it is in. */
  lemma OwnerIsInOwnRoom(l: Lobby, rid: nat)
    requires LobbyOk(l) && rid in l.rooms
    ensures l.rooms[rid].owner.id in l.clients && l.clients[l.rooms[rid].owner.id].room == Some(rid)
  {
    assert l.rooms[rid].owner in l.rooms[rid].clients;
  }

  // ------------------------------------------------------------- handlers

  /** register: the new client takes the next id and is in no room. */
  function Register(l: Lobby): (r: LobbyStep)
    ensures var id := l.lastClientId + 1;
      r.lobby == l.(clients := l.clients[id := Client(id, "", None)], lastClientId := id) && r.out == []
    ensures LobbyOk(l) ==> l.lastClientId + 1 !in l.clients && LobbyOk(r.lobby)
  {
    var id := l.lastClientId + 1;
    LobbyStep(l.(clients := l.clients[id := Client(id, "", None)], lastClientId := id), [])
  }

  /** onJoinCommand: the client takes its nickname and is told who and what is in the lobby. */
  function OnJoinCommand(l: Lobby, id: nat, nickname: string): (r: LobbyStep)
    requires id in l.clients
    ensures r.lobby == l.(clients := l.clients[id := l.clients[id].(nickname := nickname)])
    ensures |r.out| == 2 && r.out[0] == Broadcast(ClientBroadcastJoined(id, nickname))
    ensures r.out[1].SendTo? && r.out[1].to == id && r.out[1].event.ClientJoined?
    ensures var ev := r.out[1].event;
      ev.yourId == id && ev.yourNickname == nickname &&
      (forall c :: c in ev.clientList <==> c.id in r.lobby.clients && c.nickname == r.lobby.clients[c.id].nickname) &&
      (forall info :: info in ev.roomList <==> exists rid :: rid in l.rooms && info == ToRoomInList(l.rooms[rid]))
    ensures LobbyOk(l) ==> LobbyOk(r.lobby)
  {
    var lobby := l.(clients := l.clients[id := l.clients[id].(nickname := nickname)]);
    var clientList := set cid | cid in lobby.clients :: ClientInList(cid, lobby.clients[cid].nickname);
    var roomList := set rid | rid in lobby.rooms :: ToRoomInList(lobby.rooms[rid]);
    LobbyStep(lobby, [Broadcast(ClientBroadcastJoined(id, nickname)),
                      SendTo(id, ClientJoined(id, nickname, clientList, roomList))])
  }

  /**
   * onLeftRoom, for the client's current room: the client leaves it; an
   * emptied room is removed from the list, any other change is broadcast.
   * A client in no room is left as it is.
   */
  function LeaveRoom(l: Lobby, id: nat): (r: LobbyStep)
    requires id in l.clients
    ensures id in r.lobby.clients && r.lobby.clients[id] == l.clients[id].(room := None)
    ensures r.lobby.clients == l.clients[id := r.lobby.clients[id]]
    ensures r.lobby.lastClientId == l.lastClientId && r.lobby.lastRoomId == l.lastRoomId
    ensures r.lobby.rooms.Keys <= l.rooms.Keys
    ensures l.clients[id].room == None ==> r == LobbyStep(l, [])
    ensures l.clients[id].room.Some? && l.clients[id].room.value in l.rooms ==>
        var rid := l.clients[id].room.value;
        var removal := RemoveClient(l.rooms[rid], l.clients[id]);
        |r.out| == 1 &&
        (removal.roomBecameEmpty ==>
           r.lobby.rooms == l.rooms - {rid} && r.out[0] == Broadcast(RoomInListRemoved(rid))) &&
        (!removal.roomBecameEmpty ==>
           r.lobby.rooms == l.rooms[rid := removal.room] &&
           r.out[0] == Broadcast(RoomInListUpdated(ToRoomInList(removal.room))))
  {
    var c := l.clients[id];
    if c.room.None? then LobbyStep(l, [])
    else if c.room.value !in l.rooms then LobbyStep(l.(clients := l.clients[id := c.(room := None)]), [])
    else
      var rid := c.room.value;
      var removal := RemoveClient(l.rooms[rid], c);
      var clients := l.clients[id := removal.client];
      if removal.roomBecameEmpty then
        LobbyStep(l.(clients := clients, rooms := l.rooms - {rid}), [Broadcast(RoomInListRemoved(rid))])
      else
        LobbyStep(l.(clients := clients, rooms := l.rooms[rid := removal.room]),
                  [Broadcast(RoomInListUpdated(ToRoomInList(removal.room)))])
  }

  /** The shape of the lobby after client `id` left room `rid`. */
  predicate LeftShape(l: Lobby, id: nat, rid: nat, l': Lobby)
    requires id in l.clients && rid in l.rooms
  {
    var removal := RemoveClient(l.rooms[rid], l.clients[id]);
    l'.clients == l.clients[id := removal.client] &&
    l'.lastClientId == l.lastClientId && l'.lastRoomId == l.lastRoomId &&
    l'.rooms == (if removal.roomBecameEmpty then l.rooms - {rid} else l.rooms[rid := removal.room])
  }

  lemma LeftRoomsOk(l: Lobby, id: nat, rid: nat, l': Lobby)
    requires id in l.clients && rid in l.rooms && LobbyOk(l) && LeftShape(l, id, rid, l')
    ensures ClientsOk(l') && RoomsOk(l')
  {
  }

  lemma LeftMembersRegistered(l: Lobby, id: nat, rid: nat, l': Lobby)
    requires id in l.clients && l.clients[id].room == Some(rid) && rid in l.rooms
    requires ClientsOk(l) && MembersRegistered(l) && LeftShape(l, id, rid, l')
    ensures MembersRegistered(l')
    ensures forall rid2 :: rid2 in l'.rooms ==> !IsMember(l'.rooms[rid2], id)
  {
    forall rid2, m | rid2 in l'.rooms && m in l'.rooms[rid2].clients
      ensures m.id in l'.clients && l'.clients[m.id].room == Some(rid2) && m.id != id
    {
      LeftRoomShrinks(l, id, rid, l', rid2);
      assert m in l.rooms[rid2].clients;
      assert l.clients[m.id].room == Some(rid2);
      assert rid2 != rid ==> m.id != id;
      assert l'.clients[m.id] == l.clients[m.id];
    }
    forall rid2 | rid2 in l'.rooms
      ensures !IsMember(l'.rooms[rid2], id)
    {
      assert forall m :: m in l'.rooms[rid2].clients ==> m.id != id;
    }
  }

  /** After leaving, every room is a room of before with at most the leaver gone. */
  lemma LeftRoomShrinks(l: Lobby, id: nat, rid: nat, l': Lobby, rid2: nat)
    requires id in l.clients && l.clients[id].id == id && rid in l.rooms && LeftShape(l, id, rid, l') && rid2 in l'.rooms
    ensures rid2 in l.rooms
    ensures forall m :: m in l'.rooms[rid2].clients ==> m in l.rooms[rid2].clients
    ensures rid2 == rid ==> forall m :: m in l'.rooms[rid2].clients ==> m.id != id
  {
    var removal := RemoveClient(l.rooms[rid], l.clients[id]);
    if removal.roomBecameEmpty {
      assert l'.rooms == l.rooms - {rid};
      assert l'.rooms[rid2] == l.rooms[rid2];
    } else {
      assert l'.rooms == l.rooms[rid := removal.room];
      assert rid2 == rid ==> l'.rooms[rid2].clients == Without(l.rooms[rid].clients, id);
    }
  }

  lemma LeftRoomsOfClientsExist(l: Lobby, id: nat, rid: nat, l': Lobby)
    requires id in l.clients && l.clients[id].room == Some(rid) && rid in l.rooms
    requires LobbyOk(l) && LeftShape(l, id, rid, l')
    ensures RoomsOfClientsExist(l')
  {
    var removal := RemoveClient(l.rooms[rid], l.clients[id]);
    forall id2 | id2 in l'.clients && l'.clients[id2].room.Some?
      ensures l'.clients[id2].room.value in l'.rooms && IsMember(l'.rooms[l'.clients[id2].room.value], id2)
    {
      var r2 := l.clients[id2].room.value;
      assert IsMember(l.rooms[r2], id2);
      if r2 == rid {
        var m :| m in l.rooms[rid].clients && m.id == id2;
        assert m in removal.room.clients;
      }
    }
  }

  /** Leaving keeps the invariant, and afterwards the client is a member of no room. */
  lemma LeaveRoomOk(l: Lobby, id: nat)
    requires id in l.clients && LobbyOk(l)
    ensures LobbyOk(LeaveRoom(l, id).lobby)
    ensures var l' := LeaveRoom(l, id).lobby;
      forall rid :: rid in l'.rooms ==> !IsMember(l'.rooms[rid], id)
  {
    var l' := LeaveRoom(l, id).lobby;
    var c := l.clients[id];
    if c.room.Some? {
      var rid := c.room.value;
      assert LeftShape(l, id, rid, l');
      LeftRoomsOk(l, id, rid, l');
      LeftMembersRegistered(l, id, rid, l');
      LeftRoomsOfClientsExist(l, id, rid, l');
    } else {
      forall rid2, m | rid2 in l.rooms && m in l.rooms[rid2].clients
        ensures m.id != id
      {
      }
    }
  }

  /** onClientLeft: a client leaves its room, then everybody hears that it left. */
  function OnClientLeft(l: Lobby, id: nat): (r: LobbyStep)
    requires id in l.clients
    ensures r.lobby == LeaveRoom(l, id).lobby
    ensures r.out == LeaveRoom(l, id).out + [Broadcast(ClientLeft(id))]
  {
    var left := LeaveRoom(l, id);
    LobbyStep(left.lobby, left.out + [Broadcast(ClientLeft(id))])
  }

  /** unregister: a registered client leaves and is forgotten; an unknown one changes nothing. */
  function Unregister(l: Lobby, id: nat): (r: LobbyStep)
    ensures id !in r.lobby.clients
    ensures id !in l.clients ==> r == LobbyStep(l, [])
    ensures id in l.clients ==>
      r.out == OnClientLeft(l, id).out && |r.out| >= 1 && r.out[|r.out| - 1] == Broadcast(ClientLeft(id))
    ensures forall other :: other != id ==> (other in r.lobby.clients <==> other in l.clients)
    ensures LobbyOk(l) ==> LobbyOk(r.lobby)
  {
    if id !in l.clients then LobbyStep(l, [])
    else
      var left := OnClientLeft(l, id);
      LeaveRoomOkIfOk(l, id);
      LobbyStep(left.lobby.(clients := left.lobby.clients - {id}), left.out)
  }

  lemma LeaveRoomOkIfOk(l: Lobby, id: nat)
    requires id in l.clients
    ensures LobbyOk(l) ==> var l' := LeaveRoom(l, id).lobby;
      LobbyOk(l'.(clients := l'.clients - {id}))
  {
    if LobbyOk(l) {
      LeaveRoomOk(l, id);
    }
  }

  predicate OwnsRoom(l: Lobby, id: nat) {
    exists rid :: rid in l.rooms && l.rooms[rid].owner.id == id
  }

  /**
   * The lobby indexes rooms by their owner: when the owner of a room with
   * other members leaves, the room stays and is now owned by a remaining
   * member, and the leaver owns no room any more.
   */
  lemma OwnerLeavingHandsOver(l: Lobby, id: nat)
    requires id in l.clients && LobbyOk(l)
    requires l.clients[id].room.Some? && l.clients[id].room.value in l.rooms
    requires var room := l.rooms[l.clients[id].room.value]; room.owner.id == id && |room.clients| >= 2
    ensures var rid := l.clients[id].room.value;
      var l' := LeaveRoom(l, id).lobby;
      rid in l'.rooms && l'.rooms[rid].owner.id != id && IsMember(l.rooms[rid], l'.rooms[rid].owner.id) &&
      OwnsRoom(l', l'.rooms[rid].owner.id) && !OwnsRoom(l', id)
  {
    var rid := l.clients[id].room.value;
    var room := l.rooms[rid];
    var l' := LeaveRoom(l, id).lobby;
    var removal := RemoveClient(room, l.clients[id]);
    assert room.clients[0].id != id || room.clients[1].id != id;
    var k := if room.clients[0].id != id then 0 else 1;
    assert room.clients[k] in removal.room.clients;
    assert !removal.roomBecameEmpty && removal.changedOwner;
    assert l'.rooms[rid].owner.id != id by {
      assert removal.room.owner in removal.room.clients;
    }
    forall rid2 | rid2 in l'.rooms
      ensures l'.rooms[rid2].owner.id != id
    {
      if rid2 != rid {
        OwnerIsInOwnRoom(l, rid2);
      }
    }
  }

  /**
   * onCreateNewRoomCommand: an owner may not create a second room; anybody
   * else leaves the room it is in and becomes owner and only member of a
   * room with the next room id.
   */
  function OnCreateNewRoom(l: Lobby, id: nat): (r: LobbyStep)
    requires id in l.clients
    ensures OwnsRoom(l, id) ==> r == LobbyStep(l, [SendTo(id, CommandError(YouCanCreateOneRoomOnly))])
    ensures !OwnsRoom(l, id) ==>
      var rid := l.lastRoomId + 1;
      var left := LeaveRoom(l, id);
      r.lobby.lastRoomId == rid && rid in r.lobby.rooms &&
      r.lobby.rooms[rid].clients == [Ref(l.clients[id])] && r.lobby.rooms[rid].owner == Ref(l.clients[id]) &&
      r.lobby.rooms[rid].game == None &&
      r.lobby.clients == left.lobby.clients[id := l.clients[id].(room := Some(rid))] &&
      r.out == left.out + [Broadcast(ClientCreatedRoom(ToRoomInList(r.lobby.rooms[rid]))), SendTo(id, RoomJoined(rid))]
    ensures LobbyOk(l) && !OwnsRoom(l, id) ==>
      l.lastRoomId + 1 !in l.rooms && r.lobby.rooms == LeaveRoom(l, id).lobby.rooms[l.lastRoomId + 1 := r.lobby.rooms[l.lastRoomId + 1]]
  {
    if OwnsRoom(l, id) then LobbyStep(l, [SendTo(id, CommandError(YouCanCreateOneRoomOnly))])
    else
      var left := LeaveRoom(l, id);
      var rid := l.lastRoomId + 1;
      var created := NewRoom(rid, left.lobby.clients[id]);
      var lobby := left.lobby.(clients := left.lobby.clients[id := created.client],
                               rooms := left.lobby.rooms[rid := created.room], lastRoomId := rid);
      LobbyStep(lobby, left.out + [Broadcast(ClientCreatedRoom(ToRoomInList(created.room))), SendTo(id, RoomJoined(rid))])
  }

  lemma OnCreateNewRoomOk(l: Lobby, id: nat)
    requires id in l.clients && LobbyOk(l)
    ensures LobbyOk(OnCreateNewRoom(l, id).lobby)
  {
    if !OwnsRoom(l, id) {
      LeaveRoomOk(l, id);
      var left := LeaveRoom(l, id).lobby;
      var rid := l.lastRoomId + 1;
      var created := NewRoom(rid, left.clients[id]);
      CreatedRoomOk(left, id, created.room, OnCreateNewRoom(l, id).lobby);
    }
  }

  /** A client in no room that becomes sole member of a room with the next id keeps the invariant. */
  lemma CreatedRoomOk(left: Lobby, id: nat, room: Room, l': Lobby)
    requires LobbyOk(left) && id in left.clients && left.clients[id].room == None
    requires forall rid :: rid in left.rooms ==> !IsMember(left.rooms[rid], id)
    requires room.id == left.lastRoomId + 1 && room.clients == [Ref(left.clients[id])] && RoomOk(room)
    requires l' == left.(clients := left.clients[id := left.clients[id].(room := Some(room.id))],
                         rooms := left.rooms[room.id := room], lastRoomId := room.id)
    ensures LobbyOk(l')
  {
    var rid := room.id;
    assert rid !in left.rooms;
    assert ClientsOk(l');
    assert RoomsOk(l');
    forall rid2, m | rid2 in l'.rooms && m in l'.rooms[rid2].clients
      ensures m.id in l'.clients && l'.clients[m.id].room == Some(rid2)
    {
      if rid2 != rid {
        assert m in left.rooms[rid2].clients;
        assert m.id != id;
      }
    }
    assert IsMember(room, id) by { assert room.clients[0].id == id; }
    forall cid | cid in l'.clients && l'.clients[cid].room.Some?
      ensures l'.clients[cid].room.value in l'.rooms && IsMember(l'.rooms[l'.clients[cid].room.value], cid)
    {
      if cid != id {
        assert l'.clients[cid] == left.clients[cid];
        assert left.clients[cid].room.value != rid;
      }
    }
  }

  /** A client that just created a room is refused a second one. */
  lemma CreateTwiceRefused(l: Lobby, id: nat)
    requires id in l.clients && LobbyOk(l)
    ensures var once := OnCreateNewRoom(l, id).lobby;
      id in once.clients &&
      OnCreateNewRoom(once, id) == LobbyStep(once, [SendTo(id, CommandError(YouCanCreateOneRoomOnly))])
  {
    var once := OnCreateNewRoom(l, id).lobby;
    if !OwnsRoom(l, id) {
      var rid := l.lastRoomId + 1;
      assert once.rooms[rid].owner.id == id;
    }
  }

  /** getRoomById. */
  function GetRoomById(l: Lobby, roomId: nat): (r: Result<Room, string>)
    ensures r.Ok? <==> roomId in l.rooms
    ensures r.Ok? ==> r.value == l.rooms[roomId]
    ensures r.Err? ==> r.error == "room not found by id = " + NatToString(roomId)
  {
    if roomId in l.rooms then Ok(l.rooms[roomId]) else Err("room not found by id = " + NatToString(roomId))
  }

  /**
   * onJoinRoomCommand: asking for the room one is in changes nothing;
   * otherwise the client leaves its room, then joins the requested one or,
   * when there is none with that id, is told so and stays in no room.
   */
  function OnJoinRoom(l: Lobby, id: nat, roomId: nat): (r: LobbyStep)
    requires id in l.clients
    ensures l.clients[id].room == Some(roomId) ==> r == LobbyStep(l, [])
    ensures l.clients[id].room != Some(roomId) ==>
      var left := LeaveRoom(l, id);
      (roomId in left.lobby.rooms ==>
         var joined := AddClient(left.lobby.rooms[roomId], left.lobby.clients[id]);
         r.lobby == left.lobby.(clients := left.lobby.clients[id := l.clients[id].(room := Some(left.lobby.rooms[roomId].id))],
                                rooms := left.lobby.rooms[roomId := joined.room]) &&
         IsMember(r.lobby.rooms[roomId], l.clients[id].id) &&
         r.out == left.out + [Broadcast(RoomInListUpdated(ToRoomInList(joined.room)))]) &&
      (roomId !in left.lobby.rooms ==>
         r.lobby == left.lobby && r.lobby.clients[id].room == None &&
         r.out == left.out + [SendTo(id, CommandError(RoomDoesNotExist))])
  {
    var c := l.clients[id];
    if c.room == Some(roomId) then LobbyStep(l, [])
    else
      var left := LeaveRoom(l, id);
      match GetRoomById(left.lobby, roomId)
      case Ok(room) =>
        assert left.lobby.clients[id] == c.(room := None);
        var joined := AddClient(room, left.lobby.clients[id]);
        LobbyStep(left.lobby.(clients := left.lobby.clients[id := joined.client], rooms := left.lobby.rooms[roomId := joined.room]),
                  left.out + [Broadcast(RoomInListUpdated(ToRoomInList(joined.room)))])
      case Err(_) =>
        LobbyStep(left.lobby, left.out + [SendTo(id, CommandError(RoomDoesNotExist))])
  }

  /** A client in no room joining an existing room keeps the invariant. */
  lemma JoinExistingOk(l: Lobby, id: nat, roomId: nat)
    requires LobbyOk(l) && id in l.clients && l.clients[id].room == None && roomId in l.rooms
    ensures var joined := AddClient(l.rooms[roomId], l.clients[id]);
      LobbyOk(l.(clients := l.clients[id := joined.client], rooms := l.rooms[roomId := joined.room]))
  {
    var joined := AddClient(l.rooms[roomId], l.clients[id]);
    var l' := l.(clients := l.clients[id := joined.client], rooms := l.rooms[roomId := joined.room]);
    assert ClientsOk(l') && RoomsOk(l');
    JoinedMembersRegistered(l, id, roomId, l');
    JoinedRoomsExist(l, id, roomId, l');
  }

  /** A client in no room that joins an existing one: every member still knows its room. */
  lemma JoinedMembersRegistered(l: Lobby, id: nat, roomId: nat, l': Lobby)
    requires ClientsOk(l) && MembersRegistered(l) && id in l.clients && l.clients[id].room == None
    requires roomId in l.rooms && l.rooms[roomId].id == roomId
    requires var joined := AddClient(l.rooms[roomId], l.clients[id]);
      l' == l.(clients := l.clients[id := joined.client], rooms := l.rooms[roomId := joined.room])
    ensures MembersRegistered(l')
  {
    assert forall rid2, m :: rid2 in l.rooms && m in l.rooms[rid2].clients ==> m.id != id;
    forall rid2, m | rid2 in l'.rooms && m in l'.rooms[rid2].clients
      ensures m.id in l'.clients && l'.clients[m.id].room == Some(rid2)
    {
      if m.id != id {
        assert m in l.rooms[rid2].clients;
      }
    }
  }

  /** A client in no room that joins an existing one: every client's room exists and holds it. */
  lemma JoinedRoomsExist(l: Lobby, id: nat, roomId: nat, l': Lobby)
    requires ClientsOk(l) && RoomsOfClientsExist(l) && id in l.clients && l.clients[id].room == None
    requires roomId in l.rooms && l.rooms[roomId].id == roomId
    requires var joined := AddClient(l.rooms[roomId], l.clients[id]);
      l' == l.(clients := l.clients[id := joined.client], rooms := l.rooms[roomId := joined.room])
    ensures RoomsOfClientsExist(l')
  {
    forall id2 | id2 in l'.clients && l'.clients[id2].room.Some?
      ensures l'.clients[id2].room.value in l'.rooms && IsMember(l'.rooms[l'.clients[id2].room.value], id2)
    {
      if id2 != id {
        var r2 := l.clients[id2].room.value;
        var m :| m in l.rooms[r2].clients && m.id == id2;
        assert m in l'.rooms[r2].clients;
      }
    }
  }

  lemma OnJoinRoomOk(l: Lobby, id: nat, roomId: nat)
    requires id in l.clients && LobbyOk(l)
    ensures LobbyOk(OnJoinRoom(l, id, roomId).lobby)
  {
    if l.clients[id].room != Some(roomId) {
      LeaveRoomOk(l, id);
      var left := LeaveRoom(l, id).lobby;
      if roomId in left.rooms {
        JoinExistingOk(left, id, roomId);
      }
    }
  }

  // ------------------------------------------------------------- commands

  /** findPlayerOfClient: the first seat of the game held by the client, or -1. */
  function FindPlayerOfClient(players: seq<GameState.Player>, clientId: nat): (r: int)
    ensures -1 <= r < |players|
    ensures r >= 0 ==> players[r].clientId == clientId
    ensures r >= 0 ==> forall j :: 0 <= j < r ==> players[j].clientId != clientId
    ensures r == -1 ==> forall j :: 0 <= j < |players| ==> players[j].clientId != clientId
  {
    if |players| == 0 then -1
    else if players[0].clientId == clientId then 0
    else
      var r := FindPlayerOfClient(players[1..], clientId);
      if r == -1 then -1 else r + 1
  }

  /**
   * dispatchGameEvent: a game command of a client seated in its room's
   * running game becomes a player action handed to that game; anything
   * else is dropped.
   */
  function DispatchGameEvent(l: Lobby, cmd: ClientCommand): (out: seq<Output>)
    requires cmd.clientId in l.clients
    ensures |out| <= 1
    ensures |out| == 1 ==>
      var rid := l.clients[cmd.clientId].room;
      rid.Some? && rid.value in l.rooms && l.rooms[rid.value].game.Some? &&
      var g := l.rooms[rid.value].game.value;
      g.status == GameState.Playing &&
      out[0].ToGame? && out[0].gameRoom == rid.value &&
      out[0].action.player == FindPlayerOfClient(g.players, cmd.clientId) && out[0].action.player >= 0 &&
      g.players[out[0].action.player].clientId == cmd.clientId
    ensures |out| == 1 ==>
      (cmd.subType == GameSubTypeAttack && cmd.data.AttackPayload? &&
         out[0].action.name == GameTurns.ActionAttack && out[0].action.data == GameTurns.AttackData(cmd.data.card)) ||
      (cmd.subType == GameSubTypeDefend && cmd.data.DefendPayload? &&
         out[0].action.name == GameTurns.ActionDefend &&
         out[0].action.data == GameTurns.DefendData(cmd.data.attackingCard, cmd.data.defendingCard)) ||
      (cmd.subType == GameSubTypePickUp && out[0].action.name == GameTurns.ActionPickUp && out[0].action.data == GameTurns.NoData) ||
      (cmd.subType == GameSubTypeComplete && out[0].action.name == GameTurns.ActionComplete && out[0].action.data == GameTurns.NoData)
  {
    var room := l.clients[cmd.clientId].room;
    if room.None? || room.value !in l.rooms then []
    else match l.rooms[room.value].game
      case None => []
      case Some(g) =>
        if g.status != GameState.Playing then []
        else
          var pi := FindPlayerOfClient(g.players, cmd.clientId);
          if pi < 0 then []
          else if cmd.subType == GameSubTypeAttack then
            (match cmd.data
             case AttackPayload(card) =>
               [ToGame(room.value, GameTurns.PlayerAction(GameTurns.ActionAttack, GameTurns.AttackData(card), pi))]
             case _ => [])
          else if cmd.subType == GameSubTypeDefend then
            (match cmd.data
             case DefendPayload(a, d) =>
               [ToGame(room.value, GameTurns.PlayerAction(GameTurns.ActionDefend, GameTurns.DefendData(a, d), pi))]
             case _ => [])
          else if cmd.subType == GameSubTypePickUp then
            [ToGame(room.value, GameTurns.PlayerAction(GameTurns.ActionPickUp, GameTurns.NoData, pi))]
          else if cmd.subType == GameSubTypeComplete then
            [ToGame(room.value, GameTurns.PlayerAction(GameTurns.ActionComplete, GameTurns.NoData, pi))]
          else []
  }

  /** A seated client's well-formed game command always reaches the game. */
  lemma GameCommandDelivered(l: Lobby, cmd: ClientCommand)
    requires cmd.clientId in l.clients && cmd.kind == CommandTypeGame
    requires var rid := l.clients[cmd.clientId].room;
      rid.Some? && rid.value in l.rooms && l.rooms[rid.value].game.Some? &&
      l.rooms[rid.value].game.value.status == GameState.Playing &&
      exists j :: 0 <= j < |l.rooms[rid.value].game.value.players| &&
        l.rooms[rid.value].game.value.players[j].clientId == cmd.clientId
    requires cmd.subType in {GameSubTypePickUp, GameSubTypeComplete} ||
      (cmd.subType == GameSubTypeAttack && cmd.data.AttackPayload?) ||
      (cmd.subType == GameSubTypeDefend && cmd.data.DefendPayload?)
    ensures |DispatchGameEvent(l, cmd)| == 1
  {
  }

  /** Decoding a joinRoom payload as an unsigned 64-bit room id. */
  function RoomIdOf(data: Payload): (r: Option<nat>)
    ensures r.Some? <==> data.NumberPayload? && 0 <= data.number < Uint64Limit
    ensures r.Some? ==> r.value == data.number
  {
    match data
    case NumberPayload(n) => if 0 <= n < Uint64Limit then Some(n) else None
    case _ => None
  }

  /**
   * onClientCommand: lobby commands run here, game commands go to the game
   * of the sender's room, room commands to the sender's room; undecodable
   * data and unknown kinds are ignored.
   */
  function OnClientCommand(l: Lobby, cmd: ClientCommand): (r: LobbyStep)
    requires cmd.clientId in l.clients
    ensures cmd.kind == CommandTypeLobby && cmd.subType == LobbySubTypeJoin ==>
      r == (if cmd.data.TextPayload? then OnJoinCommand(l, cmd.clientId, cmd.data.text) else LobbyStep(l, []))
    ensures cmd.kind == CommandTypeLobby && cmd.subType == LobbySubTypeCreateRoom ==>
      r == OnCreateNewRoom(l, cmd.clientId)
    ensures cmd.kind == CommandTypeLobby && cmd.subType == LobbySubTypeJoinRoom ==>
      r == (if RoomIdOf(cmd.data).Some? then OnJoinRoom(l, cmd.clientId, RoomIdOf(cmd.data).value) else LobbyStep(l, []))
    ensures cmd.kind == CommandTypeLobby && cmd.subType !in {LobbySubTypeJoin, LobbySubTypeCreateRoom, LobbySubTypeJoinRoom} ==>
      r == LobbyStep(l, [])
    ensures cmd.kind == CommandTypeGame ==> r.lobby == l && r.out == DispatchGameEvent(l, cmd)
    ensures cmd.kind == CommandTypeRoom ==>
      r.lobby == l &&
      (l.clients[cmd.clientId].room.None? ==> r.out == []) &&
      (l.clients[cmd.clientId].room.Some? ==> r.out == [ToRoom(l.clients[cmd.clientId].room.value, cmd)])
    ensures cmd.kind !in {CommandTypeLobby, CommandTypeGame, CommandTypeRoom} ==> r == LobbyStep(l, [])
  {
    if cmd.kind == CommandTypeLobby then
      if cmd.subType == LobbySubTypeJoin then
        (match cmd.data
         case TextPayload(nickname) => OnJoinCommand(l, cmd.clientId, nickname)
         case _ => LobbyStep(l, []))
      else if cmd.subType == LobbySubTypeCreateRoom then OnCreateNewRoom(l, cmd.clientId)
      else if cmd.subType == LobbySubTypeJoinRoom then
        (match RoomIdOf(cmd.data)
         case Some(roomId) => OnJoinRoom(l, cmd.clientId, roomId)
         case None => LobbyStep(l, []))
      else LobbyStep(l, [])
    else if cmd.kind == CommandTypeGame then LobbyStep(l, DispatchGameEvent(l, cmd))
    else if cmd.kind == CommandTypeRoom then
      (match l.clients[cmd.clientId].room
       case None => LobbyStep(l, [])
       case Some(rid) => LobbyStep(l, [ToRoom(rid, cmd)]))
    else LobbyStep(l, [])
  }

  /** Every client command keeps the lobby's bookkeeping consistent. */
  lemma OnClientCommandOk(l: Lobby, cmd: ClientCommand)
    requires cmd.clientId in l.clients && LobbyOk(l)
    ensures LobbyOk(OnClientCommand(l, cmd).lobby)
  {
    if cmd.kind == CommandTypeLobby {
      if cmd.subType == LobbySubTypeCreateRoom {
        OnCreateNewRoomOk(l, cmd.clientId);
      } else if cmd.subType == LobbySubTypeJoinRoom && RoomIdOf(cmd.data).Some? {
        OnJoinRoomOk(l, cmd.clientId, RoomIdOf(cmd.data).value);
      }
    }
  }
}
