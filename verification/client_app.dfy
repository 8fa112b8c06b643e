/**
 * The client's entry point for server messages (onMessage in
 * html/js/index.js) and what the client's own commands become on the
 * server.
 */
module ClientApp {
  import opened Wrappers
  import opened Strings
  import opened JsValues
  import opened ClientCommands
  import opened ClientState
  import ClientGame
  import ClientLobby
  import Lobbies
  import GameState
  import GameTurns
  import Cards

  /** The names of the App's event handlers, each "on" + an event name. */
  const HandlerNames: set<string> := {
    "onClientJoinedEvent", "onClientBroadCastJoinedEvent", "onClientLeftEvent",
    "onRoomInListUpdatedEvent", "onRoomInListRemovedEvent", "onRoomJoinedEvent", "onRoomUpdatedEvent",
    "onClientCommandError", "onClientCreatedRoomEvent",
    "onRoomMemberChangedStatusEvent", "onRoomMemberChangedPlayerStatusEvent",
    "onGamePlayersEvent", "onGameDealEvent", "onGameFirstAttackerEvent", "onGameAttackEvent",
    "onGameDefendEvent", "onGameStateEvent", "onGameEndEvent", "onGamePlayerLeftEvent"}

  /** Run the handler called `handler` on the event data; other names change nothing. */
  function Handle(v: View, handler: string, data: Json): (r: View)
    ensures handler !in HandlerNames ==> r == v
  {
    match handler
    case "onClientJoinedEvent" => ClientLobby.OnClientJoinedEvent(v, data)
    case "onClientBroadCastJoinedEvent" => ClientLobby.OnClientBroadcastJoinedEvent(v, data)
    case "onClientLeftEvent" => ClientLobby.OnClientLeftEvent(v, data)
    case "onRoomInListUpdatedEvent" => ClientLobby.OnRoomInListUpdatedEvent(v, data)
    case "onRoomInListRemovedEvent" => ClientLobby.OnRoomInListRemovedEvent(v, data)
    case "onRoomJoinedEvent" => ClientLobby.OnRoomJoinedEvent(v, data)
    case "onRoomUpdatedEvent" => ClientLobby.OnRoomUpdatedEvent(v, data)
    case "onClientCommandError" => ClientLobby.OnClientCommandError(v, data)
    case "onClientCreatedRoomEvent" => ClientLobby.OnClientCreatedRoomEvent(v, data)
    case "onRoomMemberChangedStatusEvent" => ClientLobby.OnRoomMemberChangedStatusEvent(v, data)
    case "onRoomMemberChangedPlayerStatusEvent" => ClientLobby.OnRoomMemberChangedPlayerStatusEvent(v, data)
    case "onGamePlayersEvent" => ClientGame.OnGamePlayersEvent(v, data)
    case "onGameDealEvent" => ClientGame.OnGameDealEvent(v, data)
    case "onGameFirstAttackerEvent" => ClientGame.OnGameFirstAttackerEvent(v, data)
    case "onGameAttackEvent" => ClientGame.OnGameMoveEvent(v, data)
    case "onGameDefendEvent" => ClientGame.OnGameMoveEvent(v, data)
    case "onGameStateEvent" => ClientGame.OnGameStateEvent(v, data)
    case "onGameEndEvent" => ClientGame.OnGameEndEvent(v, data)
    case "onGamePlayerLeftEvent" => ClientGame.OnGamePlayerLeftEvent(v, data)
    case _ => v
  }

  /**
   * onMessage: the message `{name, data}` goes to the App property named
   * "on" + name.  onMessage is such a property itself, so a message named
   * "Message" is handled as the message carried in its data.
   */
  function OnMessage(v: View, msg: Json): (r: View)
    ensures Nullish(msg) ==> r == v
    ensures !Nullish(msg) && "on" + JsText(Get(msg, "name")) in HandlerNames ==>
      r == Handle(v, "on" + JsText(Get(msg, "name")), Get(msg, "data"))
    ensures !Nullish(msg) && "on" + JsText(Get(msg, "name")) !in HandlerNames && "on" + JsText(Get(msg, "name")) != "onMessage" ==>
      r == v
    decreases msg
  {
    if Nullish(msg) then v
    else
      var handler := "on" + JsText(Get(msg, "name"));
      var data := Get(msg, "data");
      if handler == "onMessage" then
        if Nullish(data) then v
        else
          assert data < msg by {
            var i :| 0 <= i < |msg.fields| && msg.fields[i] == ("data", data);
            assert msg.fields[i] in msg.fields;
          }
          OnMessage(v, data)
      else Handle(v, handler, data)
  }

  /** A message named "Message" is handled exactly as the message it carries. */
  lemma WrappedMessage(v: View, inner: Json)
    ensures OnMessage(v, Object2("name", JStr("Message"), "data", inner)) == OnMessage(v, inner)
  {
    var msg := Object2("name", JStr("Message"), "data", inner);
    assert !Nullish(msg) && Get(msg, "data") == inner;
    assert "on" + JsText(Get(msg, "name")) == "onMessage";
  }

  /** A message without a handler of its name changes nothing. */
  lemma UnknownMessageIgnored(v: View, name: string, data: Json)
    requires "on" + name !in HandlerNames && "on" + name != "onMessage"
    ensures OnMessage(v, Object2("name", JStr(name), "data", data)) == v
  {
  }

  /** A known event reaches its handler with the message's data. */
  lemma KnownMessageHandled(v: View, name: string, data: Json)
    requires "on" + name in HandlerNames
    ensures OnMessage(v, Object2("name", JStr(name), "data", data)) == Handle(v, "on" + name, data)
  {
    assert "on" + name != "onMessage";
  }

  // ------------------------------------------------------------- end to end

  /**
   * After the page has joined room n and is reloaded with the hash it
   * wrote, arriving in a lobby with several rooms sends one joinRoom, and
   * the server reads room n from it.
   */
  lemma RejoinAfterReload(v: View, joined: Json, arrival: Json, n: nat, clientId: nat)
    requires !Nullish(joined) && Get(Get(joined, "room"), "members").JArr?
    requires Get(Get(joined, "room"), "id") == JNum(n) && n < Lobbies.Uint64Limit
    requires !Nullish(arrival) && Get(arrival, "rooms").JArr? && |Get(arrival, "rooms").items| >= 2
    ensures var reloaded := Initial(ClientLobby.OnRoomJoinedEvent(v, joined).hash);
      var arrived := ClientLobby.OnClientJoinedEvent(reloaded, arrival);
      arrived.sent == [JoinRoom(JStr(NatToString(n)))] &&
      Lobbies.RoomIdOf(Received(arrived.sent[0], clientId).data) == Some(n)
  {
    var hash := ClientLobby.OnRoomJoinedEvent(v, joined).hash;
    ClientLobby.JoinedWritesHash(v, joined, n);
    ClientLobby.HashRoundTrip(n);
    ClientLobby.ArrivalJoinsFromHash(hash, arrival, NatToString(n));
    JoinRoomArrives(n, clientId);
  }

  /**
   * The attacker's picked card, sent with the attack button, reaches the
   * game running in the client's room as that player's attack with that
   * card.
   */
  lemma AttackReachesGame(v: View, l: Lobbies.Lobby, clientId: nat, value: string, suit: string)
    requires AreYouAttacker(v) && v.pickedCard == ClientCommands.CardJson(JStr(value), JStr(suit))
    requires clientId in l.clients
    requires var rid := l.clients[clientId].room;
      rid.Some? && rid.value in l.rooms && l.rooms[rid.value].game.Some? &&
      l.rooms[rid.value].game.value.status == GameState.Playing &&
      exists j :: 0 <= j < |l.rooms[rid.value].game.value.players| &&
        l.rooms[rid.value].game.value.players[j].clientId == clientId
    ensures var after := ClientGame.Attack(v);
      |after.sent| == |v.sent| + 1 &&
      var step := Lobbies.OnClientCommand(l, Received(after.sent[|v.sent|], clientId));
      step.lobby == l && |step.out| == 1 && step.out[0].ToGame? &&
      step.out[0].action.name == GameTurns.ActionAttack &&
      step.out[0].action.data == GameTurns.AttackData(Cards.Card(value, suit))
  {
    var after := ClientGame.Attack(v);
    var cmd := Received(after.sent[|v.sent|], clientId);
    AttackArrives(value, suit, clientId);
    assert cmd.data == Lobbies.AttackPayload(Cards.Card(value, suit));
    Lobbies.GameCommandDelivered(l, cmd);
  }

  /**
   * A room command (wantToPlay, wantToSpectate, setPlayerStatus, startGame,
   * deleteGame) leaves the lobby as it is and goes unchanged to the room the
   * sender is in; from outside any room it is dropped.
   */
  lemma RoomCommandReachesRoom(l: Lobbies.Lobby, clientId: nat, s: Sent)
    requires clientId in l.clients && s.kind == Lobbies.CommandTypeRoom
    ensures var step := Lobbies.OnClientCommand(l, Received(s, clientId));
      step.lobby == l &&
      (l.clients[clientId].room.None? ==> step.out == []) &&
      (l.clients[clientId].room.Some? ==>
        step.out == [Lobbies.ToRoom(l.clients[clientId].room.value, Received(s, clientId))] &&
        Received(s, clientId).subType == s.subType)
  {
  }

  /**
   * The pick-up and complete buttons reach the game running in the
   * client's room as that player's pick-up and complete, whatever the page
   * shows.
   */
  lemma ButtonsReachGame(v: View, l: Lobbies.Lobby, clientId: nat)
    requires clientId in l.clients
    requires var rid := l.clients[clientId].room;
      rid.Some? && rid.value in l.rooms && l.rooms[rid.value].game.Some? &&
      l.rooms[rid.value].game.value.status == GameState.Playing &&
      exists j :: 0 <= j < |l.rooms[rid.value].game.value.players| &&
        l.rooms[rid.value].game.value.players[j].clientId == clientId
    ensures var pickUp := ClientGame.PickUpClicked(v);
      |pickUp.sent| == |v.sent| + 1 &&
      var step := Lobbies.OnClientCommand(l, Received(pickUp.sent[|v.sent|], clientId));
      step.lobby == l && |step.out| == 1 && step.out[0].ToGame? &&
      step.out[0].action.name == GameTurns.ActionPickUp
    ensures var complete := ClientGame.CompleteClicked(v);
      |complete.sent| == |v.sent| + 1 &&
      var step := Lobbies.OnClientCommand(l, Received(complete.sent[|v.sent|], clientId));
      step.lobby == l && |step.out| == 1 && step.out[0].ToGame? &&
      step.out[0].action.name == GameTurns.ActionComplete
  {
    var pickUp := Received(ClientGame.PickUpClicked(v).sent[|v.sent|], clientId);
    Lobbies.GameCommandDelivered(l, pickUp);
    var complete := Received(ClientGame.CompleteClicked(v).sent[|v.sent|], clientId);
    Lobbies.GameCommandDelivered(l, complete);
  }
}
