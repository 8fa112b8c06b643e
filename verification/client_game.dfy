/**
 * The client's game screen (html/js/index.js): picking a card, sending
 * attack / defend / pick-up / complete, and folding the server's game
 * events into gameStateInfo and gameState.
 */
module ClientGame {
  import opened Wrappers
  import opened JsValues
  import opened Strings
  import opened ClientCommands
  import opened ClientState

  // ------------------------------------------------------------- player input

  /** useCard: clicking the picked card drops it, clicking another card picks that one. */
  function UseCard(v: View, card: Json): (r: View)
    ensures LooseEq(v.pickedCard, card) ==> r.pickedCard == JNull
    ensures !LooseEq(v.pickedCard, card) ==> r.pickedCard == card
    ensures r.(pickedCard := v.pickedCard) == v
  {
    if LooseEq(v.pickedCard, card) then v.(pickedCard := JNull) else v.(pickedCard := card)
  }

  /** With nothing picked, clicking a card twice leaves nothing picked. */
  lemma UseCardToggles(v: View, card: Json)
    requires v.pickedCard == JNull && !Nullish(card)
    ensures UseCard(v, card).pickedCard == card
    ensures UseCard(UseCard(v, card), card) == v
  {
  }

  /**
   * attack: only the attacker holding a picked card sends it, and the pick
   * is then cleared; otherwise nothing happens.
   */
  function Attack(v: View): (r: View)
    ensures AreYouAttacker(v) && Truthy(v.pickedCard) ==>
      r.sent == v.sent + [AttackWith(Get(v.pickedCard, "value"), Get(v.pickedCard, "suit"))] &&
      r.pickedCard == JNull && r.(sent := v.sent, pickedCard := v.pickedCard) == v
    ensures !(AreYouAttacker(v) && Truthy(v.pickedCard)) ==> r == v
  {
    if !AreYouAttacker(v) || !Truthy(v.pickedCard) then v
    else Send(v, AttackWith(Get(v.pickedCard, "value"), Get(v.pickedCard, "suit"))).(pickedCard := JNull)
  }

  /**
   * defend: only the defender holding a picked card sends it against the
   * clicked table card, and the pick is then cleared.
   */
  function Defend(v: View, attackingCard: Json): (r: View)
    ensures AreYouDefender(v) && Truthy(v.pickedCard) && !Nullish(attackingCard) ==>
      r.sent == v.sent + [DefendWith(Get(attackingCard, "value"), Get(attackingCard, "suit"),
                                     Get(v.pickedCard, "value"), Get(v.pickedCard, "suit"))] &&
      r.pickedCard == JNull && r.(sent := v.sent, pickedCard := v.pickedCard) == v
    ensures !(AreYouDefender(v) && Truthy(v.pickedCard) && !Nullish(attackingCard)) ==> r == v
  {
    if !AreYouDefender(v) || !Truthy(v.pickedCard) || Nullish(attackingCard) then v
    else
      var s := DefendWith(Get(attackingCard, "value"), Get(attackingCard, "suit"),
                          Get(v.pickedCard, "value"), Get(v.pickedCard, "suit"));
      Send(v, s).(pickedCard := JNull)
  }

  /** A second click on the attack button sends nothing more. */
  lemma AttackOnce(v: View)
    ensures Attack(Attack(v)).sent == Attack(v).sent
  {
  }

  /** The pick-up button sends one pick-up game command and changes nothing else. */
  function PickUpClicked(v: View): (r: View)
    ensures |r.sent| == |v.sent| + 1 && r.sent[..|v.sent|] == v.sent && r.(sent := v.sent) == v
    ensures r.sent[|v.sent|].kind == Lobbies.CommandTypeGame && r.sent[|v.sent|].subType == Lobbies.GameSubTypePickUp
  {
    Send(v, PickUp())
  }

  /** The complete button sends one complete game command and changes nothing else. */
  function CompleteClicked(v: View): (r: View)
    ensures |r.sent| == |v.sent| + 1 && r.sent[..|v.sent|] == v.sent && r.(sent := v.sent) == v
    ensures r.sent[|v.sent|].kind == Lobbies.CommandTypeGame && r.sent[|v.sent|].subType == Lobbies.GameSubTypeComplete
  {
    Send(v, Complete())
  }

  // ------------------------------------------------------------- game events

  /**
   * `r` is `v` with `entries` merged into gameStateInfo: a key received takes
   * its last value, every other key keeps its value and presence, and the
   * rest of the page is untouched.
   */
  ghost predicate InfoMerged(v: View, entries: seq<(string, Json)>, r: View) {
    (forall k :: LastValue(entries, k).Some? ==> Info(r, k) == LastValue(entries, k).value) &&
    (forall k :: LastValue(entries, k).None? ==> Info(r, k) == Info(v, k) && (k in r.info <==> k in v.info)) &&
    r.(info := v.info) == v
  }

  /**
   * updateGameStateInfo: every own enumerable property of the payload is
   * copied into gameStateInfo, later ones winning; the other keys and the
   * rest of the page stay.
   */
  function UpdateGameStateInfo(v: View, data: Json): (r: View)
    ensures InfoMerged(v, OwnEntries(data), r)
  {
    v.(info := Assign(v.info, OwnEntries(data)))
  }

  /** Applying the same state twice changes nothing the first did not. */
  lemma UpdateGameStateInfoIdempotent(v: View, data: Json)
    ensures UpdateGameStateInfo(UpdateGameStateInfo(v, data), data) == UpdateGameStateInfo(v, data)
  {
    AssignTwice(v.info, OwnEntries(data));
  }

  /** The properties of an event under their camelized names. */
  function Camelized(fields: seq<(string, Json)>): (r: seq<(string, Json)>)
    ensures |r| == |fields|
    ensures forall i :: 0 <= i < |r| ==> r[i] == (Camelize(fields[i].0), fields[i].1)
  {
    seq(|fields|, i requires 0 <= i < |fields| => (Camelize(fields[i].0), fields[i].1))
  }

  /**
   * onGameDealEvent: the game is no longer over; a truthy gameStateInfo is
   * applied, then every property of the event itself is copied under its
   * camelized name.
   */
  function OnGameDealEvent(v: View, data: Json): (r: View)
    ensures !r.gameEnd
    ensures Nullish(data) ==> r == v.(gameEnd := false)
    ensures !Nullish(data) ==> forall k :: LastValue(Camelized(OwnEntries(data)), k).Some? ==>
      Info(r, k) == LastValue(Camelized(OwnEntries(data)), k).value
    ensures !Nullish(data) ==>
      var gsi := Get(data, "gameStateInfo");
      forall k :: LastValue(Camelized(OwnEntries(data)), k).None? ==>
        Info(r, k) == (if Truthy(gsi) && LastValue(OwnEntries(gsi), k).Some? then LastValue(OwnEntries(gsi), k).value else Info(v, k))
    ensures r.(info := v.info, gameEnd := v.gameEnd) == v
  {
    if Nullish(data) then v.(gameEnd := false)
    else
      var gsi := Get(data, "gameStateInfo");
      var withState := if Truthy(gsi) then UpdateGameStateInfo(v, gsi) else v;
      withState.(gameEnd := false, info := Assign(withState.info, Camelized(OwnEntries(data))))
  }

  /**
   * The deal event the server sends (a gameStateInfo object and the seat
   * owning the trump card) leaves every key of that state in gameStateInfo,
   * so the dealt hand, the hand sizes and the deck size arrive with it.
   */
  lemma DealDeliversState(v: View, sk: string, ok: string, fields: seq<(string, Json)>, owner: Json)
    requires sk == "gameStateInfo" && ok == "trumpCardIsOwnedByPlayerIndex"
    ensures var r := OnGameDealEvent(v, JObj([(sk, JObj(fields)), (ok, owner)]));
      Info(r, ok) == owner &&
      forall k :: k != sk && k != ok && LastValue(fields, k).Some? ==> Info(r, k) == LastValue(fields, k).value
  {
    var data := JObj([(sk, JObj(fields)), (ok, owner)]);
    DealKeysCamelized(sk, ok);
    assert sk != ok by { assert |sk| != |ok|; }
    CamelizedPlainKeys(data.fields);
    DealPayloadRead(v, data, sk, ok, fields, owner);
  }

  /** Properties whose names are already camelCase keep them. */
  lemma CamelizedPlainKeys(fields: seq<(string, Json)>)
    requires forall i :: 0 <= i < |fields| ==> Camelize(fields[i].0) == fields[i].0
    ensures Camelized(fields) == fields
  {
  }

  /** What a deal event of two camelCase properties, the first being gameStateInfo, leaves in gameStateInfo. */
  lemma DealPayloadRead(v: View, data: Json, sk: string, ok: string, fields: seq<(string, Json)>, owner: Json)
    requires sk == "gameStateInfo" && sk != ok
    requires data == JObj([(sk, JObj(fields)), (ok, owner)]) && Camelized(OwnEntries(data)) == data.fields
    ensures Info(OnGameDealEvent(v, data), ok) == owner
    ensures forall k :: k != sk && k != ok && LastValue(fields, k).Some? ==> Info(OnGameDealEvent(v, data), k) == LastValue(fields, k).value
  {
    assert LastValue(data.fields, sk) == Some(JObj(fields));
    assert Get(data, "gameStateInfo") == JObj(fields);
    assert LastValue(data.fields, ok) == Some(owner);
    forall k | k != sk && k != ok
      ensures LastValue(data.fields, k).None?
    {
    }
  }

  /** The two keys of the deal event are already camelCase. */
  lemma DealKeysCamelized(sk: string, ok: string)
    requires sk == "gameStateInfo" && ok == "trumpCardIsOwnedByPlayerIndex"
    ensures Camelize(sk) == sk && Camelize(ok) == ok
  {
    assert NoChar(sk, '_');
    assert NoChar(ok, '_');
    CamelizePlain(sk);
    CamelizePlain(ok);
  }

  /** A deal property spelled in snake_case reaches gameStateInfo under its camelCase name. */
  lemma DealSnakeKeyArrives(v: View, fields: seq<(string, Json)>, key: string, value: Json)
    requires NoChar(key, '_')
    ensures Info(OnGameDealEvent(v, JObj(fields + [(Snakify(key), value)])), key) == value
  {
    var all := fields + [(Snakify(key), value)];
    CamelizeSnakify(key);
    var c := Camelized(all);
    assert c[|c| - 1] == (key, value);
  }

  /** onGameFirstAttackerEvent: the roles of the first round and the card that chose them. */
  function OnGameFirstAttackerEvent(v: View, data: Json): (r: View)
    ensures !Nullish(data) ==>
      Info(r, "attackerIndex") == Get(data, "attackerIndex") &&
      Info(r, "defenderIndex") == Get(data, "defenderIndex") &&
      r.reasonCard == Get(data, "reasonCard")
    ensures Nullish(data) ==> r == v
    ensures forall k :: k != "attackerIndex" && k != "defenderIndex" ==> Info(r, k) == Info(v, k)
    ensures r.(info := v.info, reasonCard := v.reasonCard) == v
  {
    if Nullish(data) then v
    else v.(info := v.info["attackerIndex" := Get(data, "attackerIndex")]["defenderIndex" := Get(data, "defenderIndex")],
            reasonCard := Get(data, "reasonCard"))
  }

  /** After the first-attacker event naming your seat, the attack controls are yours. */
  lemma FirstAttackerGivesRole(v: View, data: Json)
    requires !Nullish(data) && Get(data, "attackerIndex") == v.yourPlayerIndex
    ensures AreYouAttacker(OnGameFirstAttackerEvent(v, data))
  {
  }

  /** onGameAttackEvent and onGameDefendEvent: apply a truthy gameStateInfo. */
  function OnGameMoveEvent(v: View, data: Json): (r: View)
    ensures !Nullish(data) && Truthy(Get(data, "gameStateInfo")) ==>
      InfoMerged(v, OwnEntries(Get(data, "gameStateInfo")), r)
    ensures Nullish(data) || !Truthy(Get(data, "gameStateInfo")) ==> r == v
  {
    if Nullish(data) then v
    else
      var gsi := Get(data, "gameStateInfo");
      if Truthy(gsi) then UpdateGameStateInfo(v, gsi) else v
  }

  /** onGameStateEvent: apply a truthy gameStateInfo and forget the first-attacker card. */
  function OnGameStateEvent(v: View, data: Json): (r: View)
    ensures !Nullish(data) && Truthy(Get(data, "gameStateInfo")) ==>
      r.reasonCard == JNull && InfoMerged(v.(reasonCard := JNull), OwnEntries(Get(data, "gameStateInfo")), r)
    ensures Nullish(data) || !Truthy(Get(data, "gameStateInfo")) ==> r == v
  {
    if Nullish(data) then v
    else
      var gsi := Get(data, "gameStateInfo");
      if Truthy(gsi) then UpdateGameStateInfo(v, gsi).(reasonCard := JNull) else v
  }

  /** A state naming your seat as the defender hands you the defence controls. */
  lemma StateGivesDefence(v: View, data: Json)
    requires !Nullish(data) && Get(data, "gameStateInfo").JObj?
    requires LastValue(Get(data, "gameStateInfo").fields, "defenderIndex") == Some(v.yourPlayerIndex)
    ensures AreYouDefender(OnGameStateEvent(v, data))
  {
  }

  /** onGameEndEvent: the game is over, with the loser's seat. */
  function OnGameEndEvent(v: View, data: Json): (r: View)
    ensures r.gameEnd && r.(gameEnd := v.gameEnd, loserIndex := v.loserIndex) == v
    ensures !Nullish(data) ==>
      r.loserIndex == Get(data, "loserIndex") && LoserNickname(r) == SeatName(v.players, Get(data, "loserIndex"))
    ensures Nullish(data) ==> r.loserIndex == v.loserIndex
  {
    if Nullish(data) then v.(gameEnd := true)
    else v.(gameEnd := true, loserIndex := Get(data, "loserIndex"))
  }

  /** A deal after the end starts a game again. */
  lemma DealAfterEnd(v: View, end: Json, deal: Json)
    ensures OnGameEndEvent(v, end).gameEnd && !OnGameDealEvent(OnGameEndEvent(v, end), deal).gameEnd
  {
  }

  /** onGamePlayersEvent: the seated players and your own seat. */
  function OnGamePlayersEvent(v: View, data: Json): (r: View)
    ensures Nullish(data) ==> r == v
    ensures !Nullish(data) ==> r.players == Get(data, "players") && r.yourPlayerIndex == Get(data, "yourPlayerIndex")
    ensures r.(players := v.players, yourPlayerIndex := v.yourPlayerIndex) == v
  {
    if Nullish(data) then v
    else v.(players := Get(data, "players"), yourPlayerIndex := Get(data, "yourPlayerIndex"))
  }

  /**
   * onGamePlayerLeftEvent: show which player left, and whether for being
   * away; the name is empty when the seat is not known.
   */
  function OnGamePlayerLeftEvent(v: View, data: Json): (r: View)
    ensures Nullish(data) || Nullish(v.players) ==> r == v
    ensures r.(infoMessage := v.infoMessage) == v
    ensures !Nullish(data) && !Nullish(v.players) ==>
      var seat := Get(data, "playerIndex");
      var name := Get(Get(r.infoMessage, "parameters"), "playerName");
      Get(r.infoMessage, "messageId") == JStr(if Truthy(Get(data, "isAfk")) then "player_left_afk" else "player_left") &&
      (seat.JNum? && Truthy(Item(v.players, seat.n)) ==> name == SeatName(v.players, seat)) &&
      (!seat.JNum? || !Truthy(Item(v.players, seat.n)) ==> name == JStr(""))
  {
    if Nullish(data) || Nullish(v.players) then v
    else
      var seat := Get(data, "playerIndex");
      var name := if seat.JNum? && Truthy(Item(v.players, seat.n)) then Get(Item(v.players, seat.n), "name") else JStr("");
      var messageId := if Truthy(Get(data, "isAfk")) then "player_left_afk" else "player_left";
      v.(infoMessage := Object2("messageId", JStr(messageId), "parameters", JObj([("playerName", name)])))
  }
}
