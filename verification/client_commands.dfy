/**
 * The commands the browser client sends over its websocket
 * (html/js/index.js, sendCommand and the command* helpers), and how the
 * server decodes each one into the lobby's ClientCommand.
 */
module ClientCommands {
  import opened Wrappers
  import opened Cards
  import opened JsValues
  import opened Strings
  import Lobbies

  /**
   * One JSON message `{type, subType, data}` as sent.  `data` is JUndefined
   * when the helper passes none, and JSON.stringify then omits the field.
   */
  datatype Sent = Sent(kind: string, subType: string, data: Json)

  /** A card as the client writes it: `{value, suit}`. */
  function CardJson(value: Json, suit: Json): (r: Json)
    ensures Get(r, "value") == value && Get(r, "suit") == suit
  {
    Object2("value", value, "suit", suit)
  }

  /** commandJoinRoom: the room id passes through parseInt. */
  function JoinRoom(roomId: Json): (r: Sent)
    ensures r.kind == Lobbies.CommandTypeLobby && r.subType == Lobbies.LobbySubTypeJoinRoom
    ensures r.data.JNum? || r.data.JNull?
    ensures roomId.JNum? ==> r.data == roomId
  {
    Sent("lobby", "joinRoom", ParseInt(roomId))
  }

  function CreateRoom(): (r: Sent)
    ensures r.kind == Lobbies.CommandTypeLobby && r.subType == Lobbies.LobbySubTypeCreateRoom && r.data == JNull
  {
    Sent("lobby", "createRoom", JNull)
  }

  function WantToPlay(): (r: Sent)
    ensures r.kind == Lobbies.CommandTypeRoom && r.subType == "wantToPlay" && r.data == JNull
  {
    Sent("room", "wantToPlay", JNull)
  }

  function WantToSpectate(): (r: Sent)
    ensures r.kind == Lobbies.CommandTypeRoom && r.subType == "wantToSpectate" && r.data == JNull
  {
    Sent("room", "wantToSpectate", JNull)
  }

  function SetPlayerStatus(memberId: Json, status: Json): (r: Sent)
    ensures r.kind == Lobbies.CommandTypeRoom && r.subType == "setPlayerStatus"
    ensures Get(r.data, "memberId") == memberId && Get(r.data, "status") == status
  {
    Sent("room", "setPlayerStatus", Object2("memberId", memberId, "status", status))
  }

  function StartGame(): (r: Sent)
    ensures r.kind == Lobbies.CommandTypeRoom && r.subType == "startGame" && r.data == JNull
  {
    Sent("room", "startGame", JNull)
  }

  function DeleteGame(): (r: Sent)
    ensures r.kind == Lobbies.CommandTypeRoom && r.subType == "deleteGame" && r.data == JNull
  {
    Sent("room", "deleteGame", JNull)
  }

  function AttackWith(value: Json, suit: Json): (r: Sent)
    ensures r.kind == Lobbies.CommandTypeGame && r.subType == Lobbies.GameSubTypeAttack
    ensures Get(r.data, "card") == CardJson(value, suit)
  {
    Sent("game", "attack", JObj([("card", CardJson(value, suit))]))
  }

  function DefendWith(attackingValue: Json, attackingSuit: Json, defendingValue: Json, defendingSuit: Json): (r: Sent)
    ensures r.kind == Lobbies.CommandTypeGame && r.subType == Lobbies.GameSubTypeDefend
    ensures Get(r.data, "attackingCard") == CardJson(attackingValue, attackingSuit)
    ensures Get(r.data, "defendingCard") == CardJson(defendingValue, defendingSuit)
  {
    Sent("game", "defend", Object2("attackingCard", CardJson(attackingValue, attackingSuit),
                                   "defendingCard", CardJson(defendingValue, defendingSuit)))
  }

  function PickUp(): (r: Sent)
    ensures r.kind == Lobbies.CommandTypeGame && r.subType == Lobbies.GameSubTypePickUp && r.data == JUndefined
  {
    Sent("game", "pickUp", JUndefined)
  }

  function Complete(): (r: Sent)
    ensures r.kind == Lobbies.CommandTypeGame && r.subType == Lobbies.GameSubTypeComplete && r.data == JUndefined
  {
    Sent("game", "complete", JUndefined)
  }

  // ------------------------------------------------------------- server side

  /**
   * A string field of a Go struct decoded by json.Unmarshal: a string sets
   * it, JSON null or an absent key leaves the empty zero value, and any
   * other value is a decoding error.
   */
  function FieldText(f: Json): (r: Option<string>)
    ensures r.Some? <==> f.JStr? || f.JNull? || f.JUndefined?
    ensures f.JStr? ==> r == Some(f.s)
    ensures f.JNull? || f.JUndefined? ==> r == Some("")
  {
    match f
    case JStr(s) => Some(s)
    case JNull => Some("")
    case JUndefined => Some("")
    case _ => None
  }

  /**
   * A `*Card` decoded by json.Unmarshal: an object gives a card whose value
   * and suit are its `value` and `suit` fields; null, an absent card or a
   * field of the wrong type gives no card.
   */
  function CardOf(v: Json): (r: Option<Card>)
    ensures r.Some? <==> v.JObj? && FieldText(Get(v, "value")).Some? && FieldText(Get(v, "suit")).Some?
    ensures r.Some? ==> r.value == Card(FieldText(Get(v, "value")).value, FieldText(Get(v, "suit")).value)
    ensures v.JObj? && Get(v, "value").JStr? && Get(v, "suit").JStr? ==> r == Some(Card(Get(v, "value").s, Get(v, "suit").s))
  {
    if !v.JObj? then None
    else
      match (FieldText(Get(v, "value")), FieldText(Get(v, "suit")))
      case (Some(value), Some(suit)) => Some(Card(value, suit))
      case _ => None
  }

  /**
   * The server's json.Unmarshal of `data` into what the sub-type expects:
   * a card pair for attack and defend, a number for joinRoom, a string for
   * join (JSON null leaves Go's zero value in place); data the handler never
   * reads is NoPayload; an absent field fails to decode.
   */
  function DecodeData(subType: string, data: Json): (r: Lobbies.Payload)
    ensures data.JUndefined? ==> r == Lobbies.Malformed
    ensures !data.JUndefined? && subType == Lobbies.LobbySubTypeJoinRoom ==>
      (data.JNum? ==> r == Lobbies.NumberPayload(data.n)) && (data.JNull? ==> r == Lobbies.NumberPayload(0))
    ensures !data.JUndefined? && subType == Lobbies.GameSubTypeAttack ==>
      (r.AttackPayload? <==> CardOf(Get(data, "card")).Some?) &&
      (r.AttackPayload? ==> r.card == CardOf(Get(data, "card")).value)
  {
    if data.JUndefined? then Lobbies.Malformed
    else if subType == Lobbies.GameSubTypeAttack then
      match CardOf(Get(data, "card"))
      case Some(c) => Lobbies.AttackPayload(c)
      case None => Lobbies.Malformed
    else if subType == Lobbies.GameSubTypeDefend then
      match (CardOf(Get(data, "attackingCard")), CardOf(Get(data, "defendingCard")))
      case (Some(a), Some(d)) => Lobbies.DefendPayload(a, d)
      case _ => Lobbies.Malformed
    else if subType == Lobbies.LobbySubTypeJoinRoom then
      match data
      case JNum(n) => Lobbies.NumberPayload(n)
      case JNull => Lobbies.NumberPayload(0)
      case _ => Lobbies.Malformed
    else if subType == Lobbies.LobbySubTypeJoin then
      match data
      case JStr(s) => Lobbies.TextPayload(s)
      case JNull => Lobbies.TextPayload("")
      case _ => Lobbies.Malformed
    else Lobbies.NoPayload
  }

  /** The command the server's lobby receives when client `clientId` sends `s`. */
  function Received(s: Sent, clientId: nat): (r: Lobbies.ClientCommand)
    ensures r.kind == s.kind && r.subType == s.subType && r.clientId == clientId
  {
    Lobbies.ClientCommand(s.kind, s.subType, DecodeData(s.subType, s.data), clientId)
  }

  /** An attack with a string-valued card arrives as that card. */
  lemma AttackArrives(value: string, suit: string, clientId: nat)
    ensures Received(AttackWith(JStr(value), JStr(suit)), clientId).data == Lobbies.AttackPayload(Card(value, suit))
  {
  }

  /** A defence with string-valued cards arrives as that pair of cards. */
  lemma DefendArrives(av: string, asuit: string, dv: string, dsuit: string, clientId: nat)
    ensures Received(DefendWith(JStr(av), JStr(asuit), JStr(dv), JStr(dsuit)), clientId).data ==
      Lobbies.DefendPayload(Card(av, asuit), Card(dv, dsuit))
  {
  }

  /** An attack whose card has no suit arrives with the empty suit Go's zero value gives. */
  lemma AttackWithoutSuitArrives(value: string, clientId: nat)
    ensures Received(AttackWith(JStr(value), JUndefined), clientId).data == Lobbies.AttackPayload(Card(value, ""))
  {
  }

  /** An attack whose card value is a number does not decode. */
  lemma AttackWithNumberRejected(n: int, suit: Json, clientId: nat)
    ensures Received(AttackWith(JNum(n), suit), clientId).data == Lobbies.Malformed
  {
  }

  /** A room id given as decimal text arrives as that room id. */
  lemma JoinRoomArrives(roomId: nat, clientId: nat)
    requires roomId < Lobbies.Uint64Limit
    ensures Lobbies.RoomIdOf(Received(JoinRoom(JStr(NatToString(roomId))), clientId).data) == Some(roomId)
  {
    ParseIntOfNat(roomId);
  }
}
