/**
 * Starting a game (game.go prepare and begin) with the shuffle's random
 * choices given as `picks`.
 */
module GameStart {
  import opened Wrappers
  import opened Cards
  import opened Decks
  import opened GameState
  import opened GameDeal
  import CardStack

  /** newDeck then shuffle: 36 cards, one of each kind, in the order the picks give. */
  method ShuffledDeck(picks: seq<nat>) returns (d: Deck)
    requires CardStack.ValidSwaps(36, picks)
    ensures |d.cards| == 36
    ensures forall v, s :: v in CardValues && s in CardSuits ==> Card(v, s) in d.cards
  {
    var ordered := NewDeck();
    CardStack.FreshCardsDistinct(ordered.cards);
    d := Decks.Shuffle(ordered, picks);
    forall v, s | v in CardValues && s in CardSuits
      ensures Card(v, s) in d.cards
    {
      assert Card(v, s) in multiset(ordered.cards);
    }
  }

  /**
   * prepare followed by begin's status change: a fresh shuffled 36-card deck
   * replaces the old one, the cards are dealt and the trump named, the first
   * attacker is chosen, and the game is playing.
   */
  method Begin(g: Game, picks: seq<nat>) returns (r: Game)
    requires CardStack.ValidSwaps(36, picks)
    ensures r.status == Playing
    ensures CardTotal(r) == CardTotal(g) - |g.deck.cards| + 36
    ensures |r.players| == |g.players|
    ensures forall j :: 0 <= j < |r.players| ==> r.players[j] == g.players[j].(cards := r.players[j].cards)
    ensures TrumpNamed(r)
    ensures r.firstAttackerReasonCard.Some?
    ensures ActiveCount(r.players) >= 2 && SomeTrumpHeld(r) ==>
      LowestTrumpChosen(r, FirstAttacker(r.attackerIndex, r.defenderIndex, r.firstAttackerReasonCard.value))
    ensures !SomeTrumpHeld(r) ==>
      LowestCardChosen(r, FirstAttacker(r.attackerIndex, r.defenderIndex, r.firstAttackerReasonCard.value))
    ensures FreshTable(g) ==>
      |r.deck.cards| == 36 - CardsLimit * |g.players| &&
      forall j :: 0 <= j < |r.players| ==> r.players[j].isActive && |r.players[j].cards| == CardsLimit
    ensures FreshTable(g) ==>
      Wellformed(r) && r.attackerIndex != r.defenderIndex &&
      r.players[r.attackerIndex].isActive && r.players[r.defenderIndex].isActive
  {
    var d := ShuffledDeck(picks);
    var dealt := Deal(g.(deck := d));
    var fa := FindFirstAttacker(dealt);
    r := dealt.(attackerIndex := fa.attacker, defenderIndex := fa.defender,
                firstAttackerReasonCard := Some(fa.reason), status := Playing);
    assert r.players == dealt.players && r.trumpSuit == dealt.trumpSuit;
    assert FirstAttacker(r.attackerIndex, r.defenderIndex, r.firstAttackerReasonCard.value) == fa;
    SamePlayersSameChoice(dealt, r, fa);
    if FreshTable(g) {
      assert FreshHands(g.(deck := d));
      FirstAttackerSeated(dealt, fa);
    }
  }

  /**
   * A table as a room creates it for a game: two to six players, all active
   * with empty hands, and nothing on the table.
   */
  predicate FreshTable(g: Game) {
    2 <= |g.players| <= 6 && FreshHands(g) && g.defendingCards == map[]
  }

  /** After the deal of a fresh table the first attacker and the defender are two different active seats. */
  lemma FirstAttackerSeated(g: Game, fa: FirstAttacker)
    requires 2 <= |g.players| && fa == FindFirstAttacker(g)
    requires forall j :: 0 <= j < |g.players| ==> g.players[j].isActive && |g.players[j].cards| > 0
    ensures 0 <= fa.attacker < |g.players| && 0 <= fa.defender < |g.players| && fa.attacker != fa.defender
    ensures g.players[fa.attacker].isActive && g.players[fa.defender].isActive
  {
    AllActiveCount(g.players);
    if !SomeTrumpHeld(g) {
      FallbackSeated(g, fa);
    }
  }

  /** On a table of active seats with cards, the fallback rule seats two different active players. */
  lemma FallbackSeated(g: Game, f: FirstAttacker)
    requires 2 <= |g.players| && LowestCardChosen(g, f)
    requires forall j :: 0 <= j < |g.players| ==> g.players[j].isActive && |g.players[j].cards| > 0
    ensures 0 <= f.attacker < |g.players| && 0 <= f.defender < |g.players| && f.attacker != f.defender
    ensures g.players[f.attacker].isActive && g.players[f.defender].isActive
  {
    AllActiveCount(g.players);
    var prefix := ActivePrefix(g.players);
    assert |prefix| == |g.players|;
    assert |g.players[0].cards| > 0;
    AdjustNextDiffers(g.players, f.attacker);
  }

  /** Whether a trump is held, and whether a choice is the trump rule's, depend only on the players and the trump suit. */
  lemma SamePlayersSameChoice(g: Game, h: Game, fa: FirstAttacker)
    requires g.players == h.players && g.trumpSuit == h.trumpSuit
    ensures SomeTrumpHeld(g) == SomeTrumpHeld(h)
    ensures LowestTrumpChosen(g, fa) == LowestTrumpChosen(h, fa)
  {
  }
}
