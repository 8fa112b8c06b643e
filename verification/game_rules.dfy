/**
 * Which moves a player may make (game.go canPlayer* and the completion
 * checks) and the per-player snapshot the server sends with every game event
 * (getGameStateInfo).  The acting player is addressed by its seat index.
 */
module GameRules {
  import opened Wrappers
  import opened Cards
  import opened GameState

  /** The checks of canPlayerAttack before it reads the defender's hand. */
  predicate ReachesDefenderHand(g: Game, pi: int) {
    g.status == Playing && g.defenderIndex != pi &&
    !(|g.battleground| == 0 && g.attackerIndex != pi) && |g.battleground| < 6
  }

  /**
   * canPlayerAttack.  Go reads players[defenderIndex] once the earlier checks
   * pass, so the defender must then be seated.
   */
  function CanAttack(g: Game, pi: int): (r: bool)
    requires Seated(g, pi)
    requires ReachesDefenderHand(g, pi) ==> Seated(g, g.defenderIndex)
    ensures r ==> g.status == Playing && pi != g.defenderIndex && !g.players[pi].isCompleted
    ensures r ==> |g.battleground| < 6
    ensures r ==> Seated(g, g.defenderIndex) &&
                  |g.battleground| < |g.players[g.defenderIndex].cards| + |g.defendingCards|
    ensures r && |g.battleground| == 0 ==> pi == g.attackerIndex
  {
    if g.status != Playing then false
    else if g.defenderIndex == pi then false
    else if |g.battleground| == 0 && g.attackerIndex != pi then false
    else if |g.battleground| >= 6 then false
    else if |g.battleground| >= |g.players[g.defenderIndex].cards| + |g.defendingCards| then false
    else if g.players[pi].isCompleted then false
    else true
  }

  /** canPlayerAttackWithCard: an allowed attack, a card in hand, and its value already on the table. */
  function CanAttackWithCard(g: Game, pi: int, c: Card): (r: bool)
    requires Seated(g, pi)
    requires ReachesDefenderHand(g, pi) ==> Seated(g, g.defenderIndex)
    ensures r ==> CanAttack(g, pi) && c in g.players[pi].cards
    ensures r && |g.battleground| > 0 ==> TableHasValue(g, c.value)
  {
    if !CanAttack(g, pi) then false
    else if !HasCard(g.players[pi].cards, c) then false
    else if |g.battleground| > 0 && !TableHasValue(g, c.value) then false
    else true
  }

  /** The checks of canPlayerDefendWithCard that do not look at the two cards' ranks. */
  predicate DefendBasics(g: Game, pi: int, attacking: Card, defending: Card)
    requires Seated(g, pi)
  {
    g.status == Playing && defending in g.players[pi].cards &&
    g.defenderIndex == pi && attacking in g.battleground
  }

  /**
   * canPlayerDefendWithCard: a trump beats any non-trump, a non-trump never
   * beats a trump, and otherwise only a strictly higher value beats, whatever
   * the two suits are.
   */
  function CanDefendWithCard(g: Game, pi: int, attacking: Card, defending: Card): (r: bool)
    requires Seated(g, pi)
    ensures r ==> DefendBasics(g, pi, attacking, defending)
    ensures r && attacking.suit == g.trumpSuit ==> defending.suit == g.trumpSuit && Gt(defending, attacking)
    ensures r && defending.suit != g.trumpSuit ==> Gt(defending, attacking)
    ensures (DefendBasics(g, pi, attacking, defending) &&
             defending.suit == g.trumpSuit && attacking.suit != g.trumpSuit) ==> r
    ensures (DefendBasics(g, pi, attacking, defending) &&
             defending.suit != g.trumpSuit && attacking.suit != g.trumpSuit) ==> (r <==> Gt(defending, attacking))
    ensures (DefendBasics(g, pi, attacking, defending) &&
             defending.suit == g.trumpSuit && attacking.suit == g.trumpSuit) ==> (r <==> Gt(defending, attacking))
  {
    if g.status != Playing then false
    else if !HasCard(g.players[pi].cards, defending) then false
    else if g.defenderIndex != pi then false
    else if !OnBattleground(g, attacking) then false
    else if g.trumpSuit != defending.suit && g.trumpSuit == attacking.suit then false
    else if g.trumpSuit == defending.suit && g.trumpSuit != attacking.suit then true
    else Gt(defending, attacking)
  }

  /** canPlayerPickUp. */
  function CanPickUp(g: Game, pi: int): (r: bool)
    requires Seated(g, pi)
    ensures r ==> g.status == Playing && g.players[pi].isActive && g.defenderIndex == pi
    ensures r ==> |g.battleground| > 0 && !g.defenderPickUp
  {
    if g.status != Playing then false
    else if !g.players[pi].isActive then false
    else if g.defenderIndex != pi then false
    else if |g.battleground| == 0 then false
    else if g.defenderPickUp then false
    else true
  }

  /** areAllAttackersCompleted: every active player other than the defender is done. */
  function AllAttackersCompleted(g: Game): (r: bool)
    ensures (forall i :: 0 <= i < |g.players| ==> g.players[i].isCompleted) ==> r
    ensures (r && 0 <= g.attackerIndex < |g.players| && g.attackerIndex != g.defenderIndex &&
             g.players[g.attackerIndex].isActive) ==> g.players[g.attackerIndex].isCompleted
  {
    forall i :: 0 <= i < |g.players| ==>
      (g.players[i].isActive && i != g.defenderIndex ==> g.players[i].isCompleted)
  }

  /** areAllPlayersCompleted: every active player is done, the defender also by picking up. */
  function AllPlayersCompleted(g: Game): (r: bool)
    ensures r ==> AllAttackersCompleted(g)
    ensures AllAttackersCompleted(g) && g.defenderPickUp ==> r
    ensures r && !g.defenderPickUp ==> forall i :: 0 <= i < |g.players| && g.players[i].isActive ==> g.players[i].isCompleted
  {
    forall i :: 0 <= i < |g.players| ==>
      (g.players[i].isActive && !g.players[i].isCompleted ==> i == g.defenderIndex && g.defenderPickUp)
  }

  /** canPlayerComplete. */
  function CanComplete(g: Game, pi: int): (r: bool)
    requires Seated(g, pi)
    ensures r ==> g.status == Playing && g.players[pi].isActive && !g.players[pi].isCompleted
    ensures r && pi == g.defenderIndex ==>
      |g.battleground| == |g.defendingCards| && AllAttackersCompleted(g)
    ensures r && pi == g.attackerIndex ==> |g.battleground| > 0
    ensures r ==> |g.battleground| == |g.defendingCards| || g.defenderPickUp
  {
    if g.status != Playing then false
    else if !g.players[pi].isActive then false
    else if g.defenderIndex == pi && (|g.battleground| != |g.defendingCards| || !AllAttackersCompleted(g)) then false
    else if g.attackerIndex == pi && |g.battleground| == 0 then false
    else if g.players[pi].isCompleted then false
    else if |g.battleground| != |g.defendingCards| && !g.defenderPickUp then false
    else true
  }

  /**
   * When the server offers a player both to complete and to pick up (the
   * client's "beaten" state), that player is the defender, every attacking
   * card has a defending card, all attackers are done, and there is a table.
   */
  lemma BeatenMeansDefendedTable(g: Game, pi: int)
    requires Seated(g, pi)
    requires CanComplete(g, pi) && CanPickUp(g, pi)
    ensures pi == g.defenderIndex
    ensures |g.battleground| > 0 && |g.battleground| == |g.defendingCards|
    ensures AllAttackersCompleted(g)
  {
  }

  /** What canPlayerAttack needs of the game for a seated player. */
  predicate FlagsComputable(g: Game, pi: int) {
    Seated(g, pi) ==> (ReachesDefenderHand(g, pi) ==> Seated(g, g.defenderIndex))
  }

  /** GameStateInfo: the snapshot one player is sent. */
  datatype StateInfo = StateInfo(
    yourHand: seq<Card>,
    canYouPickUp: bool,
    canYouAttack: bool,
    canYouComplete: bool,
    handsSizes: seq<int>,
    deckSize: int,
    discardPileSize: int,
    trumpCard: Option<Card>,
    battleground: seq<Card>,
    defendingCards: map<int, Card>,
    completedPlayers: map<int, bool>,
    defenderPickUp: bool,
    attackerIndex: int,
    defenderIndex: int)

  /**
   * getGameStateInfo for the player at seat `pi`: everyone's hand size and
   * done flag, the public table, and the hand and permissions of that player
   * only; a `pi` that names no seat gets an empty hand and no permissions.
   */
  function GetGameStateInfo(g: Game, pi: int): (r: StateInfo)
    requires FlagsComputable(g, pi)
    ensures |r.handsSizes| == |g.players|
    ensures forall i :: 0 <= i < |g.players| ==> r.handsSizes[i] == |g.players[i].cards|
    ensures forall i :: i in r.completedPlayers <==> 0 <= i < |g.players|
    ensures forall i :: 0 <= i < |g.players| ==> r.completedPlayers[i] == g.players[i].isCompleted
    ensures r.deckSize == |g.deck.cards| && r.battleground == g.battleground && r.defendingCards == g.defendingCards
    ensures r.discardPileSize == g.discardPileSize && r.trumpCard == g.trumpCard && r.defenderPickUp == g.defenderPickUp
    ensures r.attackerIndex == g.attackerIndex && r.defenderIndex == g.defenderIndex
    ensures Seated(g, pi) ==> r.yourHand == g.players[pi].cards
    ensures Seated(g, pi) ==>
      r.canYouAttack == CanAttack(g, pi) && r.canYouPickUp == CanPickUp(g, pi) &&
      r.canYouComplete == CanComplete(g, pi)
    ensures !Seated(g, pi) ==> r.yourHand == [] && !r.canYouAttack && !r.canYouPickUp && !r.canYouComplete
  {
    var sizes := seq(|g.players|, i requires 0 <= i < |g.players| => |g.players[i].cards|);
    var done := map i | 0 <= i < |g.players| :: g.players[i].isCompleted;
    var base := StateInfo([], false, false, false, sizes, |g.deck.cards|, g.discardPileSize,
                          g.trumpCard, g.battleground, g.defendingCards, done, g.defenderPickUp,
                          g.attackerIndex, g.defenderIndex);
    if Seated(g, pi) then
      base.(yourHand := g.players[pi].cards, canYouComplete := CanComplete(g, pi),
            canYouAttack := CanAttack(g, pi), canYouPickUp := CanPickUp(g, pi))
    else base
  }

  function Total(xs: seq<int>): int {
    if |xs| == 0 then 0 else xs[0] + Total(xs[1..])
  }

  /** Hand sizes listed seat by seat add up to the cards in the hands. */
  lemma {:induction false} SizesTotal(players: seq<Player>, sizes: seq<int>)
    requires |sizes| == |players|
    requires forall i :: 0 <= i < |players| ==> sizes[i] == |players[i].cards|
    ensures Total(sizes) == SumHands(players)
  {
    if |players| > 0 {
      SizesTotal(players[1..], sizes[1..]);
    }
  }

  /**
   * The state info accounts for every card of the game: the hand sizes, the
   * deck, the table and the discard pile add up to the card total.
   */
  lemma InfoCountsEveryCard(g: Game, pi: int)
    requires FlagsComputable(g, pi)
    ensures var r := GetGameStateInfo(g, pi);
      Total(r.handsSizes) + r.deckSize + |r.battleground| + |r.defendingCards| + r.discardPileSize == CardTotal(g)
  {
    SizesTotal(g.players, GetGameStateInfo(g, pi).handsSizes);
  }
}
