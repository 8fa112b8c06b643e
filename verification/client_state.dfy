/**
 * The browser client's reactive state (the Vue `data` of html/js/index.js)
 * and the values the page derives from it.
 */
module ClientState {
  import opened JsValues
  import opened ClientCommands

  /**
   * The Vue data.  `info` is `gameStateInfo`, keyed by property name;
   * `hash` is the location hash after "#"; `sent` lists the commands sent
   * on the websocket so far, oldest first.
   */
  datatype View = View(
    yourId: Json,
    yourNickname: Json,
    clients: Json,
    commandError: Json,
    infoMessage: Json,
    rooms: Json,
    room: Json,
    wantToPlay: Json,
    playersInRoom: nat,
    players: Json,
    yourPlayerIndex: Json,
    info: map<string, Json>,
    reasonCard: Json,
    pickedCard: Json,
    gameEnd: bool,
    loserIndex: Json,
    hash: string,
    sent: seq<Sent>)

  const EmptyObject := JObj([])

  /** gameStateInfo before any game event. */
  function InitialInfo(): (r: map<string, Json>)
    ensures "attackerIndex" in r && r["attackerIndex"] == JNum(-1)
    ensures "defenderIndex" in r && r["defenderIndex"] == JNum(-1)
    ensures "battleground" in r && r["battleground"] == JArr([])
    ensures "canYouPickUp" in r && r["canYouPickUp"] == JBool(false)
    ensures "canYouComplete" in r && r["canYouComplete"] == JBool(false)
  {
    map[
      "handsSizes" := JArr([]),
      "deckSize" := JNum(0),
      "discardPileSize" := JNum(0),
      "trumpCard" := JNull,
      "trumpCardIsInDeck" := JBool(false),
      "trumpCardIsOwnedByPlayerIndex" := JNum(-1),
      "attackerIndex" := JNum(-1),
      "defenderIndex" := JNum(-1),
      "yourHand" := JArr([]),
      "canYouPickUp" := JBool(false),
      "canYouComplete" := JBool(false),
      "battleground" := JArr([]),
      "defendingCards" := EmptyObject,
      "completedPlayers" := EmptyObject,
      "defenderPickUp" := JBool(false)]
  }

  /** The page as it loads, with the location hash it was opened with. */
  function Initial(hash: string): (v: View)
    ensures v.sent == [] && v.hash == hash && v.pickedCard == JNull && !v.gameEnd
    ensures v.yourPlayerIndex == JNull && v.info == InitialInfo()
  {
    View(JStr(""), JStr(""), JArr([]), EmptyObject, EmptyObject, JArr([]), EmptyObject, JBool(true), 0,
         JArr([]), JNull, InitialInfo(), JNull, JNull, false, JNum(-1), hash, [])
  }

  /** `gameStateInfo[key]`. */
  function Info(v: View, key: string): (r: Json)
    ensures key in v.info ==> r == v.info[key]
    ensures key !in v.info ==> r == JUndefined
  {
    if key in v.info then v.info[key] else JUndefined
  }

  /** `data` as a handler receives it is null or undefined: its first property read throws. */
  predicate Nullish(v: Json) {
    v.JUndefined? || v.JNull?
  }

  /** Append a command to the websocket. */
  function Send(v: View, s: Sent): (r: View)
    ensures r.sent == v.sent + [s] && r.(sent := v.sent) == v
  {
    v.(sent := v.sent + [s])
  }

  // ------------------------------------------------------------- computed

  /** areYouAttacker: the attacker's seat is strictly equal to yours. */
  function AreYouAttacker(v: View): (r: bool)
    ensures "attackerIndex" !in v.info && v.yourPlayerIndex != JUndefined ==> !r
    ensures r && v.yourPlayerIndex.JNum? ==> Info(v, "attackerIndex").JNum?
  {
    StrictEq(Info(v, "attackerIndex"), v.yourPlayerIndex)
  }

  /** areYouDefender: the defender's seat is strictly equal to yours. */
  function AreYouDefender(v: View): (r: bool)
    ensures "defenderIndex" !in v.info && v.yourPlayerIndex != JUndefined ==> !r
    ensures r ==> (AreYouAttacker(v) <==> Info(v, "attackerIndex") == Info(v, "defenderIndex"))
  {
    StrictEq(Info(v, "defenderIndex"), v.yourPlayerIndex)
  }

  /** areBeaten: you may both complete and pick up. */
  function AreBeaten(v: View): (r: bool)
    ensures r ==> "canYouComplete" in v.info && "canYouPickUp" in v.info
  {
    Truthy(Info(v, "canYouComplete")) && Truthy(Info(v, "canYouPickUp"))
  }

  /** isWaitingForOthers: cards are on the table and you may do neither. */
  function IsWaitingForOthers(v: View): (r: bool)
    ensures r ==> "battleground" in v.info && !AreBeaten(v)
  {
    var n := Length(Info(v, "battleground"));
    n.Some? && n.value > 0 && !Truthy(Info(v, "canYouComplete")) && !Truthy(Info(v, "canYouPickUp"))
  }

  /** Nobody attacks or defends on a freshly loaded page. */
  lemma InitialHasNoRole(hash: string)
    ensures !AreYouAttacker(Initial(hash)) && !AreYouDefender(Initial(hash))
  {
  }

  /**
   * The name of the player at a seat, as attackerNickname and loserNickname
   * read it: undefined for a negative seat or an empty one.
   */
  function SeatName(players: Json, seat: Json): (r: Json)
    ensures seat.JNum? && seat.n < 0 ==> r == JUndefined
    ensures seat.JNum? && 0 <= seat.n && Truthy(Item(players, seat.n)) ==> r == Get(Item(players, seat.n), "name")
    ensures !seat.JNum? || !Truthy(Item(players, seat.n)) ==> r == JUndefined
  {
    match seat
    case JNum(n) => if n < 0 || !Truthy(Item(players, n)) then JUndefined else Get(Item(players, n), "name")
    case _ => JUndefined
  }

  /**
   * attackerNickname: the name of the player in the attacker's seat, or
   * undefined when the seat is negative or holds no player.
   */
  function AttackerNickname(v: View): (r: Json)
    ensures var a := Info(v, "attackerIndex");
      a.JNum? && 0 <= a.n && Truthy(Item(v.players, a.n)) ==> r == Get(Item(v.players, a.n), "name")
    ensures var a := Info(v, "attackerIndex");
      a.JNum? && a.n < 0 ==> r == JUndefined
    ensures var a := Info(v, "attackerIndex");
      a.JNum? && !Truthy(Item(v.players, a.n)) ==> r == JUndefined
  {
    SeatName(v.players, Info(v, "attackerIndex"))
  }

  /**
   * loserNickname: the name of the player in the loser's seat, or undefined
   * when the seat is negative or holds no player.
   */
  function LoserNickname(v: View): (r: Json)
    ensures v.loserIndex.JNum? && 0 <= v.loserIndex.n && Truthy(Item(v.players, v.loserIndex.n)) ==>
      r == Get(Item(v.players, v.loserIndex.n), "name")
    ensures v.loserIndex.JNum? && v.loserIndex.n < 0 ==> r == JUndefined
    ensures v.loserIndex.JNum? && !Truthy(Item(v.players, v.loserIndex.n)) ==> r == JUndefined
  {
    SeatName(v.players, v.loserIndex)
  }
}
