/**
 * A room of the lobby (room.go): the clients gathered to start a game, one of
 * them the owner, and the game once it started.  A client is referred to by
 * its id and nickname; a room never holds two references with the same id.
 */
module Rooms {
  import opened Wrappers
  import GameState

  /** A client of the server: its id, its nickname and the id of the room it is in. */
  datatype Client = Client(id: nat, nickname: string, room: Option<nat>)

  /** What a room keeps of a member. */
  datatype ClientRef = ClientRef(id: nat, nickname: string)

  function Ref(c: Client): ClientRef {
    ClientRef(c.id, c.nickname)
  }

  datatype Room = Room(id: nat, owner: ClientRef, clients: seq<ClientRef>, game: Option<GameState.Game>)

  /** The room's short description in the lobby's room list. */
  datatype RoomInList = RoomInList(id: nat, ownerId: nat, name: string, gameStatus: string, clientsNum: nat)

  /** A room together with the client an operation also updated. */
  datatype RoomAndClient = RoomAndClient(room: Room, client: Client)

  /** The outcome of removeClient. */
  datatype Removal = Removal(room: Room, client: Client, changedOwner: bool, roomBecameEmpty: bool)

  predicate IsMember(r: Room, id: nat) {
    exists m :: m in r.clients && m.id == id
  }

  /** No two references with one id, and the owner is a member while there are members. */
  predicate RoomOk(r: Room) {
    (forall i, j :: 0 <= i < j < |r.clients| ==> r.clients[i].id != r.clients[j].id) &&
    (|r.clients| > 0 ==> r.owner in r.clients)
  }

  /** newRoom: the owner is the only client and is now in the room; there is no game yet. */
  function NewRoom(roomId: nat, owner: Client): (r: RoomAndClient)
    ensures r.room.clients == [Ref(owner)] && r.room.owner == Ref(owner)
    ensures r.client == owner.(room := Some(roomId))
    ensures r.room.id == roomId && r.room.game == None
    ensures RoomOk(r.room)
  {
    RoomAndClient(Room(roomId, Ref(owner), [Ref(owner)], None), owner.(room := Some(roomId)))
  }

  /** Name: the room is called after its owner. */
  function Name(r: Room): (name: string)
    ensures name == r.owner.nickname
  {
    r.owner.nickname
  }

  /** Id. */
  function Id(r: Room): (id: nat)
    ensures id == r.id
  {
    r.id
  }

  /** The members other than the client with id `id`, in their order. */
  function Without(clients: seq<ClientRef>, id: nat): (r: seq<ClientRef>)
    ensures forall c :: c in r <==> c in clients && c.id != id
    ensures |r| <= |clients|
    ensures (exists i :: 0 <= i < |clients| && clients[i].id == id) ==> |r| < |clients|
    ensures (forall i, j :: 0 <= i < j < |clients| ==> clients[i].id != clients[j].id) ==>
      forall i, j :: 0 <= i < j < |r| ==> r[i].id != r[j].id
  {
    if |clients| == 0 then []
    else
      var rest := Without(clients[1..], id);
      if clients[0].id == id then rest
      else
        assert forall c :: c in rest ==> c in clients[1..];
        [clients[0]] + rest
  }

  /**
   * addClient: the client becomes a member, unless it is one already, and is
   * now in the room.
   */
  function AddClient(r: Room, c: Client): (res: RoomAndClient)
    ensures IsMember(res.room, c.id)
    ensures res.client == c.(room := Some(r.id))
    ensures res.room == r.(clients := res.room.clients)
    ensures IsMember(r, c.id) ==> res.room == r
    ensures !IsMember(r, c.id) ==> res.room.clients == r.clients + [Ref(c)]
    ensures RoomOk(r) && |r.clients| > 0 ==> RoomOk(res.room)
  {
    if IsMember(r, c.id) then RoomAndClient(r, c.(room := Some(r.id)))
    else
      var clients := r.clients + [Ref(c)];
      assert clients[|r.clients|] == Ref(c);
      assert forall i :: 0 <= i < |r.clients| ==> clients[i] == r.clients[i] && r.clients[i] in r.clients;
      RoomAndClient(r.(clients := clients), c.(room := Some(r.id)))
  }

  /** Adding a client twice leaves the room as adding it once. */
  lemma AddClientTwice(r: Room, c: Client)
    ensures var once := AddClient(r, c);
      AddClient(once.room, once.client) == once
  {
  }

  /**
   * removeClient: the client leaves and is in no room any more.  The last
   * member leaving empties the room; the owner leaving hands the room to
   * the first remaining member; anybody else leaving changes neither.
   */
  function RemoveClient(r: Room, c: Client): (res: Removal)
    ensures res.client == c.(room := None)
    ensures !IsMember(res.room, c.id)
    ensures res.room.clients == Without(r.clients, c.id)
    ensures res.room == r.(clients := res.room.clients, owner := res.room.owner)
    ensures res.roomBecameEmpty <==> |res.room.clients| == 0
    ensures res.roomBecameEmpty ==> !res.changedOwner && res.room.owner == r.owner
    ensures res.changedOwner <==> !res.roomBecameEmpty && r.owner.id == c.id
    ensures res.changedOwner ==> res.room.owner in res.room.clients && res.room.owner in r.clients
    ensures !res.changedOwner ==> res.room.owner == r.owner
    ensures RoomOk(r) ==> RoomOk(res.room)
  {
    var clients := Without(r.clients, c.id);
    var client := c.(room := None);
    if |clients| == 0 then Removal(r.(clients := clients), client, false, true)
    else if r.owner.id == c.id then
      Removal(r.(clients := clients, owner := clients[0]), client, true, false)
    else
      Removal(r.(clients := clients), client, false, false)
  }

  /** A member other than the owner leaving keeps everybody else and the owner. */
  lemma RemoveRegularClient(r: Room, c: Client)
    requires RoomOk(r) && |r.clients| >= 2 && IsMember(r, c.id) && r.owner.id != c.id
    ensures var res := RemoveClient(r, c);
      !res.changedOwner && !res.roomBecameEmpty && res.room.owner == r.owner &&
      |res.room.clients| == |r.clients| - 1
  {
    var res := RemoveClient(r, c);
    var m :| m in r.clients && m.id == c.id;
    var i :| 0 <= i < |r.clients| && r.clients[i] == m;
    var j := if i == 0 then 1 else 0;
    assert r.clients[j].id != c.id;
    assert r.clients[j] in res.room.clients;
    WithoutRemovesOne(r.clients, c.id);
  }

  /** With distinct ids, removing a member removes exactly one reference. */
  lemma WithoutRemovesOne(clients: seq<ClientRef>, id: nat)
    requires forall i, j :: 0 <= i < j < |clients| ==> clients[i].id != clients[j].id
    requires exists i :: 0 <= i < |clients| && clients[i].id == id
    ensures |Without(clients, id)| == |clients| - 1
  {
    if clients[0].id != id {
      var i :| 0 <= i < |clients| && clients[i].id == id;
      assert clients[1..][i - 1].id == id;
      WithoutRemovesOne(clients[1..], id);
    } else {
      assert forall i :: 0 <= i < |clients[1..]| ==> clients[1..][i].id != id;
      NoneToRemove(clients[1..], id);
    }
  }

  lemma NoneToRemove(clients: seq<ClientRef>, id: nat)
    requires forall i :: 0 <= i < |clients| ==> clients[i].id != id
    ensures Without(clients, id) == clients
  {
    if |clients| > 0 {
      NoneToRemove(clients[1..], id);
    }
  }

  /** toRoomInList: id, owner id, owner's nickname, game status ("" before a game) and member count. */
  function ToRoomInList(r: Room): (info: RoomInList)
    ensures info.id == r.id && info.ownerId == r.owner.id && info.name == r.owner.nickname
    ensures info.clientsNum == |r.clients|
    ensures r.game == None ==> info.gameStatus == ""
    ensures r.game.Some? ==> info.gameStatus == GameState.StatusText(r.game.value.status)
  {
    RoomInList(Id(r), r.owner.id, Name(r), if r.game.Some? then GameState.StatusText(r.game.value.status) else "",
               |r.clients|)
  }
}
