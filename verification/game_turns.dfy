/**
 * The moves of a round and what follows them (game.go attack, defend, pickUp,
 * complete, endRound, endGame, onActivePlayerLeft, onClientRemoved,
 * onClientAction).  Each move is a pure transition; the events the server
 * sends and the AFK timers it restarts are left out.
 */
module GameTurns {
  import opened Wrappers
  import opened Cards
  import opened GameState
  import opened GameRules
  import opened GameDeal

  /** The outcome endGame reports. */
  datatype GameEnd = GameEnd(hasLoser: bool, loserIndex: int)

  /** A transition's new game, and the end report when the game ended in it. */
  datatype Step = Step(game: Game, ended: Option<GameEnd>)

  /** The cards of the hand at `pi` after `c` left it; everybody else as before. */
  function WithoutCard(players: seq<Player>, pi: int, c: Card): (r: seq<Player>)
    requires 0 <= pi < |players|
    ensures |r| == |players|
    ensures forall j :: 0 <= j < |players| && j != pi ==> r[j] == players[j]
    ensures r[pi] == players[pi].(cards := RemoveCard(players[pi].cards, c))
    ensures c in players[pi].cards ==> SumHands(r) == SumHands(players) - 1
  {
    var p := players[pi];
    SumHandsUpdate(players, pi, p.(cards := RemoveCard(p.cards, c)));
    players[pi := p.(cards := RemoveCard(p.cards, c))]
  }

  // ------------------------------------------------------------------ attack

  /**
   * attack: an allowed attack puts the card at the end of the battleground
   * and takes it out of the attacker's hand; a refused one changes nothing.
   * The card total is kept, and the defender can still answer every
   * undefended card with a card of its hand.
   */
  function Attack(g: Game, pi: int, c: Card): (r: Game)
    requires Wellformed(g) && Seated(g, pi)
    ensures !CanAttackWithCard(g, pi, c) ==> r == g
    ensures CanAttackWithCard(g, pi, c) ==>
      r == g.(battleground := g.battleground + [c], players := r.players) &&
      |r.players| == |g.players| &&
      (forall j :: 0 <= j < |g.players| && j != pi ==> r.players[j] == g.players[j]) &&
      multiset(r.players[pi].cards) == multiset(g.players[pi].cards) - multiset{c} &&
      |r.battleground| - |r.defendingCards| <= |r.players[r.defenderIndex].cards|
    ensures Wellformed(r)
    ensures CardTotal(r) == CardTotal(g)
  {
    if !CanAttackWithCard(g, pi, c) then g
    else g.(battleground := g.battleground + [c], players := WithoutCard(g.players, pi, c))
  }

  // ------------------------------------------------------------------ defend

  /**
   * defend as the server has it: an allowed defence stores the defending card
   * under the position of the attacking card, takes it out of the defender's
   * hand and clears everybody's done flag.  It does not ask whether that
   * attacking card was already beaten.
   */
  function DefendAsWritten(g: Game, pi: int, attacking: Card, defending: Card): (r: Game)
    requires Wellformed(g) && Seated(g, pi)
    ensures !CanDefendWithCard(g, pi, attacking, defending) ==> r == g
    ensures CanDefendWithCard(g, pi, attacking, defending) ==>
      var k := BattlegroundIndex(g.battleground, attacking);
      0 <= k < |g.battleground| && g.battleground[k] == attacking &&
      r.defendingCards == g.defendingCards[k := defending] &&
      r.battleground == g.battleground && |r.players| == |g.players| &&
      (forall j :: 0 <= j < |r.players| ==> !r.players[j].isCompleted) &&
      multiset(r.players[pi].cards) == multiset(g.players[pi].cards) - multiset{defending}
    ensures Wellformed(r)
  {
    if !CanDefendWithCard(g, pi, attacking, defending) then g
    else
      var k := BattlegroundIndex(g.battleground, attacking);
      var players := WithoutCard(g.players, pi, defending);
      g.(defendingCards := g.defendingCards[k := defending], players := ResetCompleted(players))
  }

  /** A defence laid on an attacking card that is already beaten loses a card from the game. */
  lemma DefendAsWrittenLosesCard(g: Game, pi: int, attacking: Card, defending: Card)
    requires Wellformed(g) && Seated(g, pi)
    requires CanDefendWithCard(g, pi, attacking, defending)
    requires BattlegroundIndex(g.battleground, attacking) in g.defendingCards
    ensures CardTotal(DefendAsWritten(g, pi, attacking, defending)) == CardTotal(g) - 1
  {
    var k := BattlegroundIndex(g.battleground, attacking);
    var players := WithoutCard(g.players, pi, defending);
    ResetCompletedKeepsHands(players);
    assert g.defendingCards[k := defending].Keys == g.defendingCards.Keys;
  }

  /** The table of the counterexample: 9♠ attacked and already beaten by 10♠; trump ♥. */
  function LostCardExample(): (g: Game)
    ensures Wellformed(g)
  {
    var attacker := Player("a", true, 1, [Card("7", "♣")], false);
    var defender := Player("d", true, 2, [Card("J", "♠")], false);
    Game("g", Playing, [attacker, defender], Decks.Deck([]), 0, "♥", Some(Card("6", "♥")), 0, None,
         0, 1, [Card("9", "♠")], map[0 := Card("10", "♠")], false)
  }

  /** The defender beats the already beaten 9♠ again with J♠: the 10♠ vanishes. */
  lemma DefendAsWrittenCounterexample()
    ensures CanDefendWithCard(LostCardExample(), 1, Card("9", "♠"), Card("J", "♠"))
    ensures CardTotal(LostCardExample()) == 4
    ensures CardTotal(DefendAsWritten(LostCardExample(), 1, Card("9", "♠"), Card("J", "♠"))) == 3
  {
    var g := LostCardExample();
    var nine, jack := Card("9", "♠"), Card("J", "♠");
    ValueIndexIsPosition(jack, 5);
    ValueIndexIsPosition(nine, 3);
    assert Gt(jack, nine);
    assert g.players[1].cards == [jack] && g.battleground == [nine];
    assert HasCard(g.players[1].cards, jack) && OnBattleground(g, nine);
    assert SumHands(g.players) == 2;
    assert BattlegroundIndex(g.battleground, nine) == 0;
    DefendAsWrittenLosesCard(g, 1, Card("9", "♠"), Card("J", "♠"));
  }

  /**
   * defend with the missing check: besides what canPlayerDefendWithCard asks,
   * the attacking card must not be beaten yet.  An accepted defence then
   * adds one defending card, and no card is lost.
   */
  function Defend(g: Game, pi: int, attacking: Card, defending: Card): (r: Game)
    requires Wellformed(g) && Seated(g, pi)
    ensures (!CanDefendWithCard(g, pi, attacking, defending) ||
             BattlegroundIndex(g.battleground, attacking) in g.defendingCards) ==> r == g
    ensures (CanDefendWithCard(g, pi, attacking, defending) &&
             BattlegroundIndex(g.battleground, attacking) !in g.defendingCards) ==>
      var k := BattlegroundIndex(g.battleground, attacking);
      0 <= k < |g.battleground| && g.battleground[k] == attacking &&
      r.defendingCards == g.defendingCards[k := defending] &&
      |r.defendingCards| == |g.defendingCards| + 1 &&
      r.battleground == g.battleground && |r.players| == |g.players| &&
      (forall j :: 0 <= j < |r.players| ==> !r.players[j].isCompleted) &&
      multiset(r.players[pi].cards) == multiset(g.players[pi].cards) - multiset{defending}
    ensures Wellformed(r)
    ensures CardTotal(r) == CardTotal(g)
  {
    if !CanDefendWithCard(g, pi, attacking, defending) then g
    else
      var k := BattlegroundIndex(g.battleground, attacking);
      if k in g.defendingCards then g
      else
        var r := g.(defendingCards := g.defendingCards[k := defending],
                    players := ResetCompleted(WithoutCard(g.players, pi, defending)));
        DefendAccepted(g, pi, attacking, defending, r);
        r
  }

  /** The accepting branch of Defend: one more defending card, taken from the defender's hand. */
  lemma DefendAccepted(g: Game, pi: int, attacking: Card, defending: Card, r: Game)
    requires Wellformed(g) && Seated(g, pi) && CanDefendWithCard(g, pi, attacking, defending)
    requires BattlegroundIndex(g.battleground, attacking) !in g.defendingCards
    requires r == g.(defendingCards := g.defendingCards[BattlegroundIndex(g.battleground, attacking) := defending],
                     players := ResetCompleted(WithoutCard(g.players, pi, defending)))
    ensures var k := BattlegroundIndex(g.battleground, attacking);
      0 <= k < |g.battleground| && g.battleground[k] == attacking &&
      |r.defendingCards| == |g.defendingCards| + 1 &&
      |r.players| == |g.players| &&
      (forall j :: 0 <= j < |r.players| ==> !r.players[j].isCompleted) &&
      multiset(r.players[pi].cards) == multiset(g.players[pi].cards) - multiset{defending}
    ensures Wellformed(r)
    ensures CardTotal(r) == CardTotal(g)
  {
    ResetCompletedKeepsHands(WithoutCard(g.players, pi, defending));
  }

  /** Where the server accepts a defence on an attacking card not beaten yet, both definitions agree. */
  lemma DefendAgreesOnFreshCards(g: Game, pi: int, attacking: Card, defending: Card)
    requires Wellformed(g) && Seated(g, pi)
    requires BattlegroundIndex(g.battleground, attacking) !in g.defendingCards
    ensures Defend(g, pi, attacking, defending) == DefendAsWritten(g, pi, attacking, defending)
  {
  }

  // --------------------------------------------------------- end of a game

  /** endGame: only a playing game ends; it then reports the loser, if any. */
  function EndGame(g: Game, hasLoser: bool, loserIndex: int): (r: Step)
    ensures g.status != Playing ==> r == Step(g, None)
    ensures g.status == Playing ==> r.game == g.(status := Ended) && r.ended == Some(GameEnd(hasLoser, loserIndex))
  {
    if g.status != Playing then Step(g, None)
    else Step(g.(status := Ended), Some(GameEnd(hasLoser, loserIndex)))
  }

  /** A game ends at most once: ending an ended game reports nothing. */
  lemma EndGameOnce(g: Game, hasLoser: bool, loserIndex: int, hasLoser': bool, loserIndex': int)
    ensures EndGame(EndGame(g, hasLoser, loserIndex).game, hasLoser', loserIndex').ended == None
  {
  }

  // --------------------------------------------------------- end of a round

  /** The hand ends with the table: the attacking cards, then the defending ones in slot order. */
  predicate EndsWithTable(h: seq<Card>, battleground: seq<Card>, defendingCards: map<int, Card>) {
    |h| >= |battleground| + |defendingCards| &&
    h[|h| - |battleground| - |defendingCards|..] == battleground + DefendingList(defendingCards, 0, |battleground|)
  }

  /** The defender's hand after a pick-up: its cards, then the attacking cards, then the defending ones. */
  function PickedUpHand(hand: seq<Card>, g: Game): (r: seq<Card>)
    requires DefendKeysInRange(g)
    ensures |r| == |hand| + |g.battleground| + |g.defendingCards|
    ensures r[..|hand|] == hand
    ensures r[|hand|..] == g.battleground + DefendingList(g.defendingCards, 0, |g.battleground|)
    ensures EndsWithTable(r, g.battleground, g.defendingCards)
  {
    DefendingListCount(g);
    var r := hand + g.battleground + DefendingList(g.defendingCards, 0, |g.battleground|);
    assert r[|hand|..] == g.battleground + DefendingList(g.defendingCards, 0, |g.battleground|);
    r
  }

  /** The first part of endRound: done flags cleared, then the round deal from attacker to defender. */
  function DealRound(g: Game): (r: Game)
    requires Seated(g, g.attackerIndex) && Seated(g, g.defenderIndex)
    ensures r == g.(deck := r.deck, players := r.players) && |r.players| == |g.players|
    ensures forall j :: 0 <= j < |r.players| ==> !r.players[j].isCompleted
    ensures CardTotal(r) == CardTotal(g)
  {
    var g1 := g.(players := ResetCompleted(g.players));
    ResetCompletedKeepsHands(g.players);
    assert CardTotal(g1) == CardTotal(g);
    var r := RoundDeal(g1, g.attackerIndex, g.defenderIndex);
    assert forall j :: 0 <= j < |r.players| ==> Grown(g1.players[j], r.players[j]);
    r
  }

  /** The table after a round: cleared into the defender's hand or onto the discard pile. */
  function ClearTable(g: Game, dealt: Game): (r: Game)
    requires Wellformed(g) && Seated(g, g.defenderIndex)
    requires dealt == g.(deck := dealt.deck, players := dealt.players) && |dealt.players| == |g.players|
    ensures r == dealt.(players := r.players, discardPileSize := r.discardPileSize)
    ensures |r.players| == |g.players|
    ensures forall j :: 0 <= j < |r.players| ==>
      r.players[j] == dealt.players[j].(cards := r.players[j].cards)
    ensures forall j :: 0 <= j < |r.players| && j != g.defenderIndex ==> r.players[j] == dealt.players[j]
    ensures g.defenderPickUp ==>
      r.players[g.defenderIndex].cards == PickedUpHand(dealt.players[g.defenderIndex].cards, g) &&
      r.discardPileSize == g.discardPileSize
    ensures !g.defenderPickUp ==>
      r.players == dealt.players && r.discardPileSize == g.discardPileSize + |g.battleground| + |g.defendingCards|
    ensures CardTotal(r) == CardTotal(dealt) + |g.battleground| + |g.defendingCards|
  {
    var d := g.defenderIndex;
    if g.defenderPickUp then
      var p := dealt.players[d];
      var p' := p.(cards := PickedUpHand(p.cards, g));
      SumHandsUpdate(dealt.players, d, p');
      dealt.(players := dealt.players[d := p'])
    else dealt.(discardPileSize := dealt.discardPileSize + |g.battleground| + |g.defendingCards|)
  }

  /**
   * The last part of endRound: roles moved on, the table emptied, and the
   * game ended when fewer than two players are still active.
   */
  function NextRound(g: Game, wasPickUp: bool): (r: Step)
    requires Seated(g, g.attackerIndex) && Seated(g, g.defenderIndex)
    ensures r.game == g.(attackerIndex := r.game.attackerIndex, defenderIndex := r.game.defenderIndex,
                         battleground := [], defendingCards := map[], defenderPickUp := false,
                         status := r.game.status)
    ensures ActiveCount(g.players) >= 2 ==>
      r.ended == None && r.game.status == g.status &&
      Seated(r.game, r.game.attackerIndex) && Seated(r.game, r.game.defenderIndex) &&
      r.game.attackerIndex != r.game.defenderIndex &&
      g.players[r.game.attackerIndex].isActive && g.players[r.game.defenderIndex].isActive
    ensures ActiveCount(g.players) < 2 ==> r.game.status != Playing
    ensures ActiveCount(g.players) < 2 && g.status == Playing ==>
      r.game.status == Ended && r.ended.Some? &&
      (r.ended.value.hasLoser <==> ActiveCount(g.players) == 1) &&
      (r.ended.value.hasLoser ==>
        Seated(g, r.ended.value.loserIndex) && g.players[r.ended.value.loserIndex].isActive)
  {
    var roles := FindNewAttacker(g, wasPickUp);
    var g4 := g.(attackerIndex := roles.0, defenderIndex := roles.1,
                 battleground := [], defendingCards := map[], defenderPickUp := false);
    var n := ActiveCount(g4.players);
    if n < 2 then EndGame(g4, n == 1, if n == 1 then FirstActive(g4.players) else -1)
    else Step(g4, None)
  }

  /**
   * endRound: done flags cleared, hands dealt from the attacker round to the
   * defender, the table picked up by the defender or discarded, and the roles
   * moved on.  With fewer than two active players left the game ends, the
   * one active player being the loser.  No card is lost.
   */
  function EndRound(g: Game): (r: Step)
    requires Wellformed(g) && Seated(g, g.attackerIndex) && Seated(g, g.defenderIndex)
    ensures r.game.battleground == [] && r.game.defendingCards == map[] && !r.game.defenderPickUp
    ensures |r.game.players| == |g.players|
    ensures CardTotal(r.game) == CardTotal(g)
    ensures Wellformed(r.game)
    ensures g.defenderPickUp ==>
      EndsWithTable(r.game.players[g.defenderIndex].cards, g.battleground, g.defendingCards)
    ensures !g.defenderPickUp ==>
      r.game.discardPileSize == g.discardPileSize + |g.battleground| + |g.defendingCards|
  {
    var settled := SettleTable(g);
    var r := NextRound(settled, g.defenderPickUp);
    assert r.game.players == settled.players && r.game.deck == settled.deck;
    assert r.game.discardPileSize == settled.discardPileSize;
    assert CardTotal(r.game) == CardTotal(settled) - |g.battleground| - |g.defendingCards|;
    r
  }

  /**
   * After endRound every done flag is cleared, and either two active players
   * hold the new roles and play goes on, or the game has ended with the one
   * active player left, if any, as the loser.
   */
  lemma EndRoundRoles(g: Game)
    requires Wellformed(g) && Seated(g, g.attackerIndex) && Seated(g, g.defenderIndex)
    ensures var r := EndRound(g);
      forall j :: 0 <= j < |r.game.players| ==> !r.game.players[j].isCompleted
    ensures var r := EndRound(g);
      ActiveCount(r.game.players) >= 2 ==>
        r.ended == None && r.game.status == g.status &&
        Seated(r.game, r.game.attackerIndex) && Seated(r.game, r.game.defenderIndex) &&
        r.game.attackerIndex != r.game.defenderIndex &&
        r.game.players[r.game.attackerIndex].isActive && r.game.players[r.game.defenderIndex].isActive
    ensures var r := EndRound(g);
      ActiveCount(r.game.players) < 2 && g.status == Playing ==>
        r.game.status == Ended && r.ended.Some? &&
        (r.ended.value.hasLoser <==> ActiveCount(r.game.players) == 1) &&
        (r.ended.value.hasLoser ==>
          Seated(r.game, r.ended.value.loserIndex) && r.game.players[r.ended.value.loserIndex].isActive)
  {
    var settled := SettleTable(g);
    var r := NextRound(settled, g.defenderPickUp);
    assert r == EndRound(g);
    assert r.game.players == settled.players;
  }

  /** The first two parts of endRound: the round deal, then the table cleared; roles and table kept. */
  function SettleTable(g: Game): (r: Game)
    requires Wellformed(g) && Seated(g, g.attackerIndex) && Seated(g, g.defenderIndex)
    ensures r == g.(deck := r.deck, players := r.players, discardPileSize := r.discardPileSize)
    ensures |r.players| == |g.players|
    ensures forall j :: 0 <= j < |r.players| ==> !r.players[j].isCompleted
    ensures CardTotal(r) == CardTotal(g) + |g.battleground| + |g.defendingCards|
    ensures g.defenderPickUp ==>
      EndsWithTable(r.players[g.defenderIndex].cards, g.battleground, g.defendingCards)
    ensures !g.defenderPickUp ==>
      r.discardPileSize == g.discardPileSize + |g.battleground| + |g.defendingCards|
  {
    var dealt := DealRound(g);
    ClearTable(g, dealt)
  }

  // ------------------------------------------------------ pick-up, complete

  /**
   * pickUp: an allowed pick-up marks the defender as taking the table; the
   * round ends at once when everybody else is already done.  A refused one
   * changes nothing.
   */
  function PickUp(g: Game, pi: int): (r: Step)
    requires Wellformed(g) && Seated(g, pi)
    ensures !CanPickUp(g, pi) ==> r == Step(g, None)
    ensures CanPickUp(g, pi) && !AllPlayersCompleted(g.(defenderPickUp := true)) ==>
      r == Step(g.(defenderPickUp := true), None)
    ensures CanPickUp(g, pi) && AllPlayersCompleted(g.(defenderPickUp := true)) ==>
      r.game.battleground == [] && r.game.defendingCards == map[] && |r.game.players| == |g.players| &&
      EndsWithTable(r.game.players[pi].cards, g.battleground, g.defendingCards)
    ensures Wellformed(r.game) && CardTotal(r.game) == CardTotal(g)
  {
    if !CanPickUp(g, pi) then Step(g, None)
    else
      var g1 := g.(defenderPickUp := true);
      assert Wellformed(g1) && g1.defenderIndex == pi && CardTotal(g1) == CardTotal(g);
      if AllPlayersCompleted(g1) then EndRound(g1) else Step(g1, None)
  }

  /**
   * complete: an allowed "done" marks the player done; the round ends when
   * then every active player is done, the defender also by picking up.  A
   * refused one changes nothing.
   */
  function Complete(g: Game, pi: int): (r: Step)
    requires Wellformed(g) && Seated(g, pi)
    ensures !CanComplete(g, pi) ==> r == Step(g, None)
    ensures CanComplete(g, pi) ==>
      var g1 := g.(players := g.players[pi := g.players[pi].(isCompleted := true)]);
      (!AllPlayersCompleted(g1) ==> r == Step(g1, None)) &&
      (AllPlayersCompleted(g1) ==> r.game.battleground == [] && r.game.defendingCards == map[] &&
                                   !r.game.defenderPickUp)
    ensures Wellformed(r.game) && CardTotal(r.game) == CardTotal(g)
  {
    if !CanComplete(g, pi) then Step(g, None)
    else
      var p := g.players[pi];
      SumHandsUpdate(g.players, pi, p.(isCompleted := true));
      var g1 := g.(players := g.players[pi := p.(isCompleted := true)]);
      if AllPlayersCompleted(g1) then EndRound(g1) else Step(g1, None)
  }

  // ------------------------------------------------------- leaving players

  /** onActivePlayerLeft: with two active players the one who left loses; otherwise play goes on. */
  function OnActivePlayerLeft(g: Game, pi: int): (r: Step)
    ensures ActiveCount(g.players) != 2 ==> r == Step(g, None)
    ensures ActiveCount(g.players) == 2 && g.status == Playing ==>
      r.game == g.(status := Ended) && r.ended == Some(GameEnd(true, pi))
    ensures r.game == g.(status := r.game.status)
  {
    if ActiveCount(g.players) == 2 then EndGame(g, true, pi) else Step(g, None)
  }

  /** The first seat of the client that is still active, -1 when there is none. */
  function ActiveSeatOf(players: seq<Player>, clientId: nat): (r: int)
    ensures -1 <= r < |players|
    ensures r >= 0 ==> players[r].clientId == clientId && players[r].isActive
    ensures r >= 0 ==> forall j :: 0 <= j < r ==> !(players[j].clientId == clientId && players[j].isActive)
    ensures r == -1 ==> forall j :: 0 <= j < |players| ==> !(players[j].clientId == clientId && players[j].isActive)
  {
    if |players| == 0 then -1
    else if players[0].clientId == clientId && players[0].isActive then 0
    else
      var r := ActiveSeatOf(players[1..], clientId);
      if r == -1 then -1 else r + 1
  }

  /** onClientRemoved: a client that still has an active seat counts as an active player leaving. */
  function OnClientRemoved(g: Game, clientId: nat): (r: Step)
    ensures ActiveSeatOf(g.players, clientId) == -1 ==> r == Step(g, None)
    ensures ActiveSeatOf(g.players, clientId) >= 0 ==>
      r == OnActivePlayerLeft(g, ActiveSeatOf(g.players, clientId))
  {
    var i := ActiveSeatOf(g.players, clientId);
    if i >= 0 then OnActivePlayerLeft(g, i) else Step(g, None)
  }

  // ---------------------------------------------------------------- actions

  const ActionAttack := "attack"
  const ActionDefend := "defend"
  const ActionPickUp := "pick_up"
  const ActionComplete := "complete"

  /** The decoded data of a player action; `NoData` where the action carries none. */
  datatype ActionData = NoData | AttackData(card: Card) | DefendData(attackingCard: Card, defendingCard: Card)

  /** PlayerAction, with the acting player given by its seat. */
  datatype PlayerAction = PlayerAction(name: string, data: ActionData, player: int)

  /**
   * onClientAction: the action's name picks the move; an attack or defence
   * whose data has the wrong shape, and an unknown name, change nothing.
   */
  function OnClientAction(g: Game, a: PlayerAction): (r: Step)
    requires Wellformed(g) && Seated(g, a.player)
    ensures a.name == ActionAttack && a.data.AttackData? ==>
      r == Step(Attack(g, a.player, a.data.card), None)
    ensures a.name == ActionDefend && a.data.DefendData? ==>
      r == Step(Defend(g, a.player, a.data.attackingCard, a.data.defendingCard), None)
    ensures a.name == ActionPickUp ==> r == PickUp(g, a.player)
    ensures a.name == ActionComplete ==> r == Complete(g, a.player)
    ensures a.name !in {ActionAttack, ActionDefend, ActionPickUp, ActionComplete} ==> r == Step(g, None)
  {
    if a.name == ActionAttack then
      if a.data.AttackData? then Step(Attack(g, a.player, a.data.card), None) else Step(g, None)
    else if a.name == ActionDefend then
      if a.data.DefendData? then Step(Defend(g, a.player, a.data.attackingCard, a.data.defendingCard), None)
      else Step(g, None)
    else if a.name == ActionPickUp then PickUp(g, a.player)
    else if a.name == ActionComplete then Complete(g, a.player)
    else Step(g, None)
  }

  /**
   * Card conservation: whatever a player does, the talon, the hands, the
   * table and the discard pile together hold as many cards as before, and
   * the game stays well-formed.
   */
  lemma ActionKeepsCards(g: Game, a: PlayerAction)
    requires Wellformed(g) && Seated(g, a.player)
    ensures CardTotal(OnClientAction(g, a).game) == CardTotal(g)
    ensures Wellformed(OnClientAction(g, a).game)
  {
    var r := OnClientAction(g, a);
    if a.name == ActionAttack && a.data.AttackData? {
      assert r.game == Attack(g, a.player, a.data.card);
    } else if a.name == ActionDefend && a.data.DefendData? {
      assert r.game == Defend(g, a.player, a.data.attackingCard, a.data.defendingCard);
    }
  }
}
