/**
 * Dealing (game.go deal, dealToPlayer, roundDeal), first-attacker selection
 * (findFirstAttacker) and the preparation of a game (prepare, begin) with the
 * shuffle's random choices given as a parameter.
 */
module GameDeal {
  import opened Wrappers
  import opened Cards
  import opened Decks
  import opened GameState
  import CardStack
  import opened Strings

  /** The hand limit of dealing. */
  const CardsLimit := 6

  function Min(a: int, b: int): int { if a <= b then a else b }
  function Max(a: int, b: int): int { if a <= b then b else a }

  datatype Filled = Filled(hand: seq<Card>, deck: Deck)

  /** The top `k` cards of a stack, in the order the draws hand them out. */
  function TopCards(s: seq<Card>, k: nat): (r: seq<Card>)
    requires k <= |s|
    ensures |r| == k
  {
    if k == 0 then [] else [s[|s| - 1]] + TopCards(s[..|s| - 1], k - 1)
  }

  /** The top `k` cards and the rest under them are the whole stack. */
  lemma {:induction false} TopCardsSplit(s: seq<Card>, k: nat)
    requires k <= |s|
    ensures multiset(TopCards(s, k)) + multiset(s[..|s| - k]) == multiset(s)
  {
    if k > 0 {
      var rest := s[..|s| - 1];
      var top := s[|s| - 1];
      TopCardsSplit(rest, k - 1);
      assert rest[..|rest| - (k - 1)] == s[..|s| - k];
      assert TopCards(s, k) == [top] + TopCards(rest, k - 1);
      assert s == rest + [top];
      TopMoved(top, TopCards(rest, k - 1), s[..|s| - k], rest);
    } else {
      assert s[..|s|] == s;
    }
  }

  /** Taking the top element `t` onto the drawn part `a` keeps the split of `rest + [t]`. */
  lemma TopMoved<T>(t: T, a: seq<T>, under: seq<T>, rest: seq<T>)
    requires multiset(a) + multiset(under) == multiset(rest)
    ensures multiset([t] + a) + multiset(under) == multiset(rest + [t])
  {
    assert multiset([t] + a) == multiset{t} + multiset(a);
    assert multiset(rest + [t]) == multiset(rest) + multiset{t};
  }

  /** How many cards the loop of dealToPlayer draws from `cardIndex` on. */
  function FillCount(cardIndex: int, deckSize: nat): (k: nat)
    ensures k <= deckSize
  {
    if cardIndex >= CardsLimit then 0 else Min(CardsLimit - cardIndex, deckSize)
  }

  /**
   * The loop of dealToPlayer from `cardIndex` on: draws from the top of the
   * deck until the counter reaches the limit, appending every card drawn.
   * The loop's `len(hand) >= 6` exit never fires, because the hand is never
   * longer than the counter.
   */
  function Fill(hand: seq<Card>, deck: Deck, cardIndex: int): (r: Filled)
    requires |hand| <= cardIndex
    ensures var k := FillCount(cardIndex, |deck.cards|);
      r.hand == hand + TopCards(deck.cards, k) && r.deck.cards == deck.cards[..|deck.cards| - k]
    decreases CardsLimit - cardIndex
  {
    if cardIndex >= CardsLimit then
      assert hand + [] == hand;
      Filled(hand, deck)
    else
      var d := GetCard(deck);
      if d.err == None then
        var k := FillCount(cardIndex, |deck.cards|);
        var top := TopCards(d.deck.cards, k - 1);
        assert FillCount(cardIndex + 1, |d.deck.cards|) == k - 1;
        assert TopCards(deck.cards, k) == [d.card] + top;
        assert d.deck.cards[..|d.deck.cards| - (k - 1)] == deck.cards[..|deck.cards| - k];
        AppendAssoc(hand, [d.card], top);
        Fill(hand + [d.card], d.deck, cardIndex + 1)
      else
        assert FillCount(cardIndex, |deck.cards|) == 0 == FillCount(cardIndex + 1, |deck.cards|);
        assert hand + [] == hand && deck.cards[..|deck.cards|] == deck.cards;
        Fill(hand, deck, cardIndex + 1)
  }

  /** The cards drawn by the loop all come from the deck: nothing appears or vanishes. */
  lemma {:induction false} FillKeepsCards(hand: seq<Card>, deck: Deck, cardIndex: int)
    requires |hand| <= cardIndex
    ensures var r := Fill(hand, deck, cardIndex);
      multiset(r.hand) + multiset(r.deck.cards) == multiset(hand) + multiset(deck.cards) &&
      |r.hand| + |r.deck.cards| == |hand| + |deck.cards|
  {
    var r := Fill(hand, deck, cardIndex);
    DrawnKeeps(hand, deck.cards, FillCount(cardIndex, |deck.cards|), r.hand, r.deck.cards);
  }

  /** Drawing the top `k` cards of `cards` onto `hand` keeps every card. */
  lemma DrawnKeeps(hand: seq<Card>, cards: seq<Card>, k: nat, hand': seq<Card>, cards': seq<Card>)
    requires k <= |cards| && hand' == hand + TopCards(cards, k) && cards' == cards[..|cards| - k]
    ensures multiset(hand') + multiset(cards') == multiset(hand) + multiset(cards)
    ensures |hand'| + |cards'| == |hand| + |cards|
  {
    TopCardsSplit(cards, k);
    MovedKeeps(hand, TopCards(cards, k), cards', cards);
  }

  /** Moving the part `top` of `all` onto `hand` keeps every card. */
  lemma MovedKeeps<T>(hand: seq<T>, top: seq<T>, under: seq<T>, all: seq<T>)
    requires multiset(top) + multiset(under) == multiset(all)
    ensures multiset(hand + top) + multiset(under) == multiset(hand) + multiset(all)
    ensures |hand + top| + |under| == |hand| + |all|
  {
    assert multiset(hand + top) == multiset(hand) + multiset(top);
    assert |multiset(all)| == |all| && |multiset(top)| == |top| && |multiset(under)| == |under|;
  }

  /**
   * dealToPlayer: an inactive player gets nothing; an active one is topped up
   * from the top of the deck to six cards while cards last, and becomes
   * inactive when its hand is still empty.  Nothing else changes.
   */
  function DealToPlayer(g: Game, pi: int): (r: Game)
    requires Seated(g, pi)
    ensures |r.players| == |g.players|
    ensures r == g.(deck := r.deck, players := r.players)
    ensures forall j :: 0 <= j < |g.players| && j != pi ==> r.players[j] == g.players[j]
    ensures !g.players[pi].isActive ==> r == g
    ensures g.players[pi].isActive ==>
      var k := FillCount(|g.players[pi].cards|, |g.deck.cards|);
      r.players[pi].cards == g.players[pi].cards + TopCards(g.deck.cards, k) &&
      r.deck.cards == g.deck.cards[..|g.deck.cards| - k]
    ensures r.players[pi] == g.players[pi].(cards := r.players[pi].cards, isActive := r.players[pi].isActive)
    ensures r.players[pi].isActive <==> g.players[pi].isActive && |r.players[pi].cards| > 0
  {
    var p := g.players[pi];
    if !p.isActive then g
    else
      var f := Fill(p.cards, g.deck, |p.cards|);
      var p' := p.(cards := f.hand, isActive := if |f.hand| == 0 then false else p.isActive);
      g.(deck := f.deck, players := g.players[pi := p'])
  }

  /** dealToPlayer never raises a hand above six and fills it to six while the deck lasts. */
  lemma DealToPlayerBounds(g: Game, pi: int)
    requires Seated(g, pi)
    ensures var r := DealToPlayer(g, pi);
      var before, after := g.players[pi].cards, r.players[pi].cards;
      |before| <= |after| <= Max(|before|, CardsLimit) && after[..|before|] == before &&
      (g.players[pi].isActive && |before| < CardsLimit ==> |after| == Min(CardsLimit, |before| + |g.deck.cards|))
  {
    var r := DealToPlayer(g, pi);
    var before := g.players[pi].cards;
    if g.players[pi].isActive {
      var k := FillCount(|before|, |g.deck.cards|);
      assert r.players[pi].cards == before + TopCards(g.deck.cards, k);
      assert r.players[pi].cards[..|before|] == before;
    }
  }

  /** Every card dealToPlayer hands out comes off the deck, so the card total stays. */
  lemma DealToPlayerKeepsCards(g: Game, pi: int)
    requires Seated(g, pi)
    ensures var r := DealToPlayer(g, pi);
      multiset(r.players[pi].cards) + multiset(r.deck.cards) == multiset(g.players[pi].cards) + multiset(g.deck.cards) &&
      CardTotal(r) == CardTotal(g)
  {
    var r := DealToPlayer(g, pi);
    var p := g.players[pi];
    if p.isActive {
      FillKeepsCards(p.cards, g.deck, |p.cards|);
      SumHandsUpdate(g.players, pi, r.players[pi]);
      assert g.players[pi := r.players[pi]] == r.players;
    }
  }

  /**
   * What dealing may do to one seat: add cards at the end without passing
   * six, turn an active player inactive, and nothing else; an inactive
   * player is left alone.
   */
  predicate Grown(p: Player, q: Player) {
    |p.cards| <= |q.cards| <= Max(|p.cards|, CardsLimit) && q.cards[..|p.cards|] == p.cards &&
    (q.isActive ==> p.isActive) && (!p.isActive ==> q == p) &&
    q == p.(cards := q.cards, isActive := q.isActive)
  }

  /** Every seat of `r` is a grown version of the same seat of `g`. */
  predicate HandsGrown(g: Game, r: Game) {
    |r.players| == |g.players| &&
    forall j :: 0 <= j < |g.players| ==> Grown(g.players[j], r.players[j])
  }

  lemma GrownTrans(p: Player, q: Player, s: Player)
    requires Grown(p, q) && Grown(q, s)
    ensures Grown(p, s)
  {
    assert s.cards[..|p.cards|] == s.cards[..|q.cards|][..|p.cards|];
  }

  lemma HandsGrownTrans(g: Game, h: Game, r: Game)
    requires HandsGrown(g, h) && HandsGrown(h, r)
    ensures HandsGrown(g, r)
  {
    forall j | 0 <= j < |g.players|
      ensures Grown(g.players[j], r.players[j])
    {
      GrownTrans(g.players[j], h.players[j], r.players[j]);
    }
  }

  /** Seat `j` holds six cards or more, or the deck is empty: dealing has nothing more to give it. */
  predicate Topped(g: Game, j: int) {
    0 <= j < |g.players| && (|g.players[j].cards| >= CardsLimit || |g.deck.cards| == 0)
  }

  /** A topped-up seat stays topped up while hands only grow and the deck only shrinks. */
  lemma ToppedStays(g: Game, r: Game, j: int)
    requires HandsGrown(g, r) && |r.deck.cards| <= |g.deck.cards| && 0 <= j < |g.players|
    ensures Topped(g, j) ==> Topped(r, j)
  {
    assert Grown(g.players[j], r.players[j]);
  }

  lemma DealToPlayerGrows(g: Game, pi: int)
    requires Seated(g, pi)
    ensures HandsGrown(g, DealToPlayer(g, pi))
    ensures CardTotal(DealToPlayer(g, pi)) == CardTotal(g)
    ensures |DealToPlayer(g, pi).deck.cards| <= |g.deck.cards|
    ensures g.players[pi].isActive ==> Topped(DealToPlayer(g, pi), pi)
  {
    DealToPlayerBounds(g, pi);
    DealToPlayerKeepsCards(g, pi);
    var r := DealToPlayer(g, pi);
    forall j | 0 <= j < |g.players|
      ensures Grown(g.players[j], r.players[j])
    {
      if j == pi {
        assert r.players[j].cards[..|g.players[j].cards|] == g.players[j].cards;
      } else {
        assert r.players[j] == g.players[j];
        assert r.players[j].cards[..|g.players[j].cards|] == g.players[j].cards;
      }
    }
  }

  /** The middle loop of roundDeal from seat `i` on, skipping `first` and `last`. */
  function DealOthers(g: Game, first: int, last: int, i: nat): (r: Game)
    ensures r == g.(deck := r.deck, players := r.players)
    ensures HandsGrown(g, r)
    ensures CardTotal(r) == CardTotal(g)
    ensures forall j :: 0 <= j < |g.players| && (j < i || j == first || j == last) ==>
      r.players[j] == g.players[j]
    ensures |r.deck.cards| <= |g.deck.cards|
    ensures forall j :: i <= j < |g.players| && j != first && j != last && g.players[j].isActive ==> Topped(r, j)
    decreases |g.players| - i
  {
    if i >= |g.players| then
      HandsGrownTrans(g, g, g);
      g
    else if i != first && i != last then
      var g' := DealToPlayer(g, i);
      DealToPlayerGrows(g, i);
      var r := DealOthers(g', first, last, i + 1);
      HandsGrownTrans(g, g', r);
      ToppedStays(g', r, i);
      r
    else
      DealOthers(g, first, last, i + 1)
  }

  /**
   * roundDeal: the first player draws first, then everybody else in seat
   * order, then the last player.  The card total is kept, only hands and deck
   * change, every seat only grows as dealing allows, and every active seat
   * ends with six cards or more unless the deck ran out.
   */
  function RoundDeal(g: Game, first: int, last: int): (r: Game)
    requires Seated(g, first) && Seated(g, last)
    ensures r == g.(deck := r.deck, players := r.players)
    ensures HandsGrown(g, r)
    ensures CardTotal(r) == CardTotal(g)
    ensures |r.deck.cards| <= |g.deck.cards|
    ensures forall j :: 0 <= j < |g.players| && g.players[j].isActive ==> Topped(r, j)
  {
    var g1 := DealToPlayer(g, first);
    DealToPlayerGrows(g, first);
    var g2 := DealOthers(g1, first, last, 0);
    HandsGrownTrans(g, g1, g2);
    var r := DealToPlayer(g2, last);
    DealToPlayerGrows(g2, last);
    HandsGrownTrans(g, g2, r);
    assert forall j :: 0 <= j < |g.players| && g.players[j].isActive ==> Topped(r, j) by {
      forall j | 0 <= j < |g.players| && g.players[j].isActive
        ensures Topped(r, j)
      {
        if j == first {
          ToppedStays(g1, g2, j);
          ToppedStays(g2, r, j);
        } else if j != last {
          assert g1.players[j] == g.players[j];
          ToppedStays(g2, r, j);
        }
      }
    }
    r
  }

  // ------------------------------------------------------------ initial deal

  /** The loop state of deal: the game and the last card handed out, with its receiver. */
  datatype DealProgress = DealProgress(game: Game, last: Option<Card>, lastIndex: int)

  /** The last card dealt, if any, is the last card of its receiver's hand. */
  predicate LastHeld(ds: DealProgress) {
    (ds.lastIndex == -1 <==> ds.last == None) &&
    (ds.lastIndex != -1 ==>
      Seated(ds.game, ds.lastIndex) && |ds.game.players[ds.lastIndex].cards| > 0 &&
      ds.last == Some(ds.game.players[ds.lastIndex].cards[|ds.game.players[ds.lastIndex].cards| - 1]))
  }

  /**
   * One pass of deal's inner loop from seat `pi` on: each seat gets the top
   * card, and the pass stops at the first inactive seat or full hand.
   */
  function DealPass(ds: DealProgress, pi: nat): (r: DealProgress)
    requires LastHeld(ds)
    ensures LastHeld(r)
    ensures |r.game.players| == |ds.game.players|
    ensures r.game == ds.game.(deck := r.game.deck, players := r.game.players)
    ensures CardTotal(r.game) == CardTotal(ds.game)
    ensures forall j :: 0 <= j < |r.game.players| ==>
      r.game.players[j] == ds.game.players[j].(cards := r.game.players[j].cards)
    decreases |ds.game.players| - pi
  {
    var g := ds.game;
    if pi >= |g.players| then ds
    else
      var p := g.players[pi];
      if !p.isActive || |p.cards| >= CardsLimit then ds
      else
        DealPass(HandOut(ds, pi), pi + 1)
  }

  /** A seat deal's inner loop does not stop at: active with fewer than six cards. */
  predicate Open(p: Player) {
    p.isActive && |p.cards| < CardsLimit
  }

  /** How many seats from `pi` on are open before the first one that is not. */
  function OpenRun(players: seq<Player>, pi: nat): (n: nat)
    ensures n == 0 || pi + n <= |players|
    ensures forall m :: pi <= m < pi + n ==> Open(players[m])
    ensures pi + n < |players| ==> !Open(players[pi + n])
    decreases |players| - pi
  {
    if pi >= |players| || !Open(players[pi]) then 0 else 1 + OpenRun(players, pi + 1)
  }

  /** The open run from `from` on depends only on the seats from `from` on. */
  lemma {:induction false} OpenRunAgree(players: seq<Player>, others: seq<Player>, from: nat)
    requires |players| == |others|
    requires forall m :: from <= m < |players| ==> players[m] == others[m]
    ensures OpenRun(players, from) == OpenRun(others, from)
    decreases |players| - from
  {
    if from < |players| && Open(players[from]) {
      OpenRunAgree(players, others, from + 1);
    }
  }

  /** When every seat from `pi` on is open, they all are in the run. */
  lemma {:induction false} AllOpenRun(players: seq<Player>, pi: nat)
    requires pi <= |players|
    requires forall m :: pi <= m < |players| ==> Open(players[m])
    ensures OpenRun(players, pi) == |players| - pi
    decreases |players| - pi
  {
    if pi < |players| {
      AllOpenRun(players, pi + 1);
    }
  }

  /**
   * From `g` to `r`, seats `pi` up to `pi + k` each got one card, in seat
   * order from the top of the deck, the deck lost those `k` cards, and every
   * other seat kept its hand.
   */
  ghost predicate Served(g: Game, pi: nat, k: nat, r: Game)
    requires k <= |g.deck.cards| && (k == 0 || pi + k <= |g.players|)
  {
    var players, deck := g.players, g.deck.cards;
    |r.players| == |players| &&
    r.deck.cards == deck[..|deck| - k] &&
    (forall j :: pi <= j < pi + k ==> r.players[j].cards == players[j].cards + [deck[|deck| - 1 - (j - pi)]]) &&
    (forall j :: 0 <= j < |players| && !(pi <= j < pi + k) ==> r.players[j] == players[j])
  }

  /** Serving no seat changes nothing. */
  lemma ServedNone(g: Game, pi: nat)
    ensures Served(g, pi, 0, g)
  {
    assert g.deck.cards[..|g.deck.cards|] == g.deck.cards;
  }

  /** Serving seat `pi` from the top, then `k` more seats from `pi + 1`, serves `k + 1` seats from `pi`. */
  lemma ServedStep(g: Game, g': Game, r: Game, pi: nat, k: nat, k1: nat)
    requires pi < |g.players| && 0 < |g.deck.cards| && |g'.players| == |g.players|
    requires g'.deck.cards == g.deck.cards[..|g.deck.cards| - 1]
    requires g'.players[pi].cards == g.players[pi].cards + [g.deck.cards[|g.deck.cards| - 1]]
    requires forall j :: 0 <= j < |g.players| && j != pi ==> g'.players[j] == g.players[j]
    requires k <= |g'.deck.cards| && (k == 0 || pi + 1 + k <= |g.players|)
    requires Served(g', pi + 1, k, r) && k1 == k + 1
    ensures Served(g, pi, k1, r)
  {
    var deck, deck' := g.deck.cards, g'.deck.cards;
    assert deck'[..|deck'| - k] == deck[..|deck| - (k + 1)];
    forall j | pi < j < pi + k + 1
      ensures r.players[j].cards == g.players[j].cards + [deck[|deck| - 1 - (j - pi)]]
    {
      assert deck'[|deck'| - 1 - (j - (pi + 1))] == deck[|deck| - 1 - (j - pi)];
    }
  }

  /**
   * What one pass hands out: the open seats from `pi` on, up to the first
   * seat that is not open, each get one card, in seat order from the top of
   * the deck, while the deck lasts; every other seat keeps its hand.
   */
  lemma {:induction false} DealPassServes(ds: DealProgress, pi: nat)
    requires LastHeld(ds)
    ensures Served(ds.game, pi, Min(OpenRun(ds.game.players, pi), |ds.game.deck.cards|), DealPass(ds, pi).game)
    decreases |ds.game.players| - pi
  {
    var players, deck := ds.game.players, ds.game.deck.cards;
    if pi >= |players| || !Open(players[pi]) {
      assert DealPass(ds, pi) == ds;
      assert Min(OpenRun(players, pi), |deck|) == 0;
      ServedNone(ds.game, pi);
    } else {
      var ds' := HandOut(ds, pi);
      assert DealPass(ds, pi) == DealPass(ds', pi + 1);
      DealPassServes(ds', pi + 1);
      HandOutThenServe(ds, pi, DealPass(ds', pi + 1).game);
    }
  }

  /** The pass from seat `pi` served the open run there, as far as the deck reached. */
  ghost predicate ServedRun(g: Game, pi: nat, r: Game) {
    Served(g, pi, Min(OpenRun(g.players, pi), |g.deck.cards|), r)
  }

  /** Seat `pi` is open: the pass hands it the top card, if any, and serves the run after it. */
  lemma HandOutThenServe(ds: DealProgress, pi: nat, r: Game)
    requires LastHeld(ds) && pi < |ds.game.players| && Open(ds.game.players[pi])
    requires ServedRun(HandOut(ds, pi).game, pi + 1, r)
    ensures ServedRun(ds.game, pi, r)
  {
    var ds' := HandOut(ds, pi);
    var deck := ds.game.deck.cards;
    if |deck| == 0 {
      assert ds' == ds;
      OpenRunAgree(ds.game.players, ds'.game.players, pi + 1);
      assert deck[..|deck|] == deck;
    } else {
      PassStep(ds.game, ds'.game, pi, r);
    }
  }

  /** Handing seat `pi` the top card and then serving the seats after it serves the run from `pi`. */
  lemma PassStep(g: Game, g': Game, pi: nat, r: Game)
    requires pi < |g.players| && Open(g.players[pi]) && |g.deck.cards| > 0 && |g'.players| == |g.players|
    requires g'.deck.cards == g.deck.cards[..|g.deck.cards| - 1]
    requires g'.players[pi].cards == g.players[pi].cards + [g.deck.cards[|g.deck.cards| - 1]]
    requires forall j :: 0 <= j < |g.players| && j != pi ==> g'.players[j] == g.players[j]
    requires Served(g', pi + 1, Min(OpenRun(g'.players, pi + 1), |g'.deck.cards|), r)
    ensures Served(g, pi, Min(OpenRun(g.players, pi), |g.deck.cards|), r)
  {
    OpenRunAgree(g.players, g'.players, pi + 1);
    var k' := Min(OpenRun(g'.players, pi + 1), |g'.deck.cards|);
    assert OpenRun(g.players, pi) == 1 + OpenRun(g'.players, pi + 1);
    assert Min(OpenRun(g.players, pi), |g.deck.cards|) == k' + 1;
    ServedStep(g, g', r, pi, k', Min(OpenRun(g.players, pi), |g.deck.cards|));
  }

  /**
   * One step of that pass: seat `pi` gets the top card of the deck and
   * becomes the last receiver; with an empty deck nothing changes.
   */
  function HandOut(ds: DealProgress, pi: nat): (r: DealProgress)
    requires LastHeld(ds) && pi < |ds.game.players|
    ensures LastHeld(r)
    ensures |r.game.players| == |ds.game.players|
    ensures r.game == ds.game.(deck := r.game.deck, players := r.game.players)
    ensures CardTotal(r.game) == CardTotal(ds.game)
    ensures |ds.game.deck.cards| > 0 ==> r.lastIndex == pi && r.game.players[pi].cards == ds.game.players[pi].cards + [ds.game.deck.cards[|ds.game.deck.cards| - 1]]
    ensures |ds.game.deck.cards| == 0 ==> r == ds
    ensures |ds.game.deck.cards| > 0 ==> r.game.deck.cards == ds.game.deck.cards[..|ds.game.deck.cards| - 1]
    ensures forall j :: 0 <= j < |r.game.players| && j != pi ==> r.game.players[j] == ds.game.players[j]
    ensures forall j :: 0 <= j < |r.game.players| ==>
      r.game.players[j] == ds.game.players[j].(cards := r.game.players[j].cards)
  {
    var g := ds.game;
    var p := g.players[pi];
    var d := GetCard(g.deck);
    GetCardSize(g.deck);
    if d.err == None then
      var p' := p.(cards := p.cards + [d.card]);
      SumHandsUpdate(g.players, pi, p');
      DealProgress(g.(deck := d.deck, players := g.players[pi := p']), Some(d.card), pi)
    else
      ds
  }

  /**
   * deal: hands out up to six rounds of cards, then names the trump.  While
   * the deck still has cards the trump is its bottom card and nobody owns it;
   * once the deck ran out the trump is the last card dealt and its receiver
   * owns it.
   */
  method Deal(g: Game) returns (r: Game)
    ensures CardTotal(r) == CardTotal(g)
    ensures |r.players| == |g.players|
    ensures r.status == g.status && r.battleground == g.battleground && r.defendingCards == g.defendingCards
    ensures forall j :: 0 <= j < |r.players| ==> r.players[j] == g.players[j].(cards := r.players[j].cards)
    ensures TrumpNamed(r)
    ensures FreshHands(g) && CardsLimit * |g.players| <= |g.deck.cards| ==>
      (forall j :: 0 <= j < |r.players| ==> r.players[j].isActive && |r.players[j].cards| == CardsLimit) &&
      |r.deck.cards| == |g.deck.cards| - CardsLimit * |g.players|
  {
    var ds := DealRounds(g);
    r := NameTrump(ds);
  }

  /**
   * The six passes of deal's outer loop.  On a table of fresh hands with six
   * cards per seat in the deck, every seat ends with six cards.
   */
  method DealRounds(g: Game) returns (ds: DealProgress)
    ensures LastHeld(ds)
    ensures CardTotal(ds.game) == CardTotal(g)
    ensures |ds.game.players| == |g.players|
    ensures ds.game == g.(deck := ds.game.deck, players := ds.game.players)
    ensures forall j :: 0 <= j < |g.players| ==> ds.game.players[j] == g.players[j].(cards := ds.game.players[j].cards)
    ensures FreshHands(g) && CardsLimit * |g.players| <= |g.deck.cards| ==> DealtRounds(g, ds.game, CardsLimit)
  {
    ds := DealProgress(g, None, -1);
    var cardIndex := 0;
    var enough := FreshHands(g) && CardsLimit * |g.players| <= |g.deck.cards|;
    while cardIndex < CardsLimit
      invariant 0 <= cardIndex <= CardsLimit
      invariant LastHeld(ds)
      invariant CardTotal(ds.game) == CardTotal(g)
      invariant |ds.game.players| == |g.players|
      invariant ds.game == g.(deck := ds.game.deck, players := ds.game.players)
      invariant forall j :: 0 <= j < |g.players| ==> ds.game.players[j] == g.players[j].(cards := ds.game.players[j].cards)
      invariant enough ==> DealtRounds(g, ds.game, cardIndex)
    {
      if enough {
        DealRoundStep(g, ds, cardIndex);
      }
      ds := DealPass(ds, 0);
      cardIndex := cardIndex + 1;
    }
  }

  /** Every seat is active with an empty hand, as when a game is created. */
  predicate FreshHands(g: Game) {
    forall j :: 0 <= j < |g.players| ==> g.players[j].isActive && |g.players[j].cards| == 0
  }

  /** Every seat is active and holds exactly `n` cards. */
  predicate EvenlyDealt(g: Game, n: nat) {
    forall j :: 0 <= j < |g.players| ==> g.players[j].isActive && |g.players[j].cards| == n
  }

  /** `c` full rounds of the deal have gone out of `g`'s deck: every seat holds `c` cards. */
  predicate DealtRounds(g: Game, h: Game, c: nat) {
    EvenlyDealt(h, c) && |h.deck.cards| + c * |g.players| == |g.deck.cards|
  }

  /** One more pass over a fresh table with enough cards completes one more round. */
  lemma DealRoundStep(g: Game, ds: DealProgress, c: nat)
    requires LastHeld(ds) && c < CardsLimit && FreshHands(g) && CardsLimit * |g.players| <= |g.deck.cards|
    requires |ds.game.players| == |g.players| && DealtRounds(g, ds.game, c)
    ensures DealtRounds(g, DealPass(ds, 0).game, c + 1)
  {
    RoundsLeft(c, |g.players|);
    EvenPass(ds, c);
  }

  /** With `c` rounds dealt out of six, the remaining rounds still need `n` cards each. */
  lemma RoundsLeft(c: nat, n: nat)
    requires c < CardsLimit
    ensures c * n + n <= CardsLimit * n && (c + 1) * n == c * n + n
  {
  }

  /** A pass over evenly dealt hands below six, with a card for everybody, gives everybody one more. */
  lemma EvenPass(ds: DealProgress, n: nat)
    requires LastHeld(ds) && n < CardsLimit && EvenlyDealt(ds.game, n)
    requires |ds.game.players| <= |ds.game.deck.cards|
    ensures var r := DealPass(ds, 0).game;
      EvenlyDealt(r, n + 1) && |r.deck.cards| + |ds.game.players| == |ds.game.deck.cards|
  {
    var players := ds.game.players;
    AllOpenRun(players, 0);
    DealPassServes(ds, 0);
  }

  /** The trump rule deal ends with. */
  predicate TrumpNamed(r: Game) {
    ((r.trumpCardIsOwnedByPlayerIndex == -1) <==> (|r.deck.cards| > 0 || r.trumpCard == None)) &&
    (|r.deck.cards| > 0 ==> r.trumpCard == Some(r.deck.cards[0]) && r.trumpSuit == r.deck.cards[0].suit) &&
    (r.trumpCardIsOwnedByPlayerIndex != -1 ==>
      var owner := r.trumpCardIsOwnedByPlayerIndex;
      Seated(r, owner) && |r.players[owner].cards| > 0 &&
      r.trumpCard == Some(r.players[owner].cards[|r.players[owner].cards| - 1]) &&
      r.trumpSuit == r.trumpCard.value.suit)
  }

  /** The end of deal: the bottom card of a non-empty deck, else the last card dealt. */
  function NameTrump(ds: DealProgress): (r: Game)
    requires LastHeld(ds)
    ensures r == ds.game.(trumpCard := r.trumpCard, trumpSuit := r.trumpSuit,
                          trumpCardIsOwnedByPlayerIndex := r.trumpCardIsOwnedByPlayerIndex)
    ensures TrumpNamed(r)
  {
    var h := ds.game;
    var trump := if |h.deck.cards| > 0 then Some(h.deck.cards[0]) else ds.last;
    var owner := if |h.deck.cards| > 0 then -1 else ds.lastIndex;
    h.(trumpCard := trump, trumpCardIsOwnedByPlayerIndex := owner,
       trumpSuit := if trump.Some? then trump.value.suit else h.trumpSuit)
  }

  // --------------------------------------------------- first attacker

  /** The result of findFirstAttacker: the two seats and the card that decided. */
  datatype FirstAttacker = FirstAttacker(attacker: int, defender: int, reason: Card)

  /** One card in one player's hand. */
  datatype Holding = Holding(player: nat, card: Card)

  /** The cards of the hands from seat `from` on, in seat order and hand order. */
  function Holdings(players: seq<Player>, from: nat): (r: seq<Holding>)
    ensures forall h :: h in r ==> from <= h.player < |players| && h.card in players[h.player].cards
    ensures forall j, c :: from <= j < |players| && c in players[j].cards ==> Holding(j, c) in r
    decreases |players| - from
  {
    if from >= |players| then []
    else
      var here := seq(|players[from].cards|, i requires 0 <= i < |players[from].cards| => Holding(from, players[from].cards[i]));
      assert forall c :: c in players[from].cards ==> Holding(from, c) in here by {
        forall c | c in players[from].cards
          ensures Holding(from, c) in here
        {
          var i :| 0 <= i < |players[from].cards| && players[from].cards[i] == c;
          assert here[i] == Holding(from, c);
        }
      }
      here + Holdings(players, from + 1)
  }

  /** A seat with a card has its first card among the holdings. */
  lemma FirstHolding(players: seq<Player>, j: nat)
    requires j < |players|
    ensures |players[j].cards| > 0 ==> Holding(j, players[j].cards[0]) in Holdings(players, 0)
  {
  }

  /**
   * Seat `j`'s hand sits in the holdings as one block, in hand order, with
   * every earlier holding from an earlier seat and every later one from a
   * later seat.
   */
  predicate BlockAt(r: seq<Holding>, s: nat, j: nat, cards: seq<Card>) {
    s + |cards| <= |r| &&
    (forall i :: 0 <= i < |cards| ==> r[s + i] == Holding(j, cards[i])) &&
    (forall k :: 0 <= k < s ==> r[k].player < j) &&
    (forall k :: s + |cards| <= k < |r| ==> r[k].player > j)
  }

  /** The holdings list the hands seat by seat, each hand in its own order, as the nested loops of findFirstAttacker visit them. */
  lemma {:induction false} HoldingsBlock(players: seq<Player>, from: nat, j: nat)
    requires from <= j < |players|
    ensures exists s: nat :: BlockAt(Holdings(players, from), s, j, players[j].cards)
    decreases |players| - from
  {
    var cards := players[from].cards;
    var here := seq(|cards|, i requires 0 <= i < |cards| => Holding(from, cards[i]));
    var rest := Holdings(players, from + 1);
    assert Holdings(players, from) == here + rest;
    if j == from {
      BlockStart(here, rest, from, cards);
    } else {
      HoldingsBlock(players, from + 1, j);
      var t: nat :| BlockAt(rest, t, j, players[j].cards);
      BlockShift(here, rest, from, t, j, players[j].cards);
    }
  }

  /** A hand put in front of later seats' holdings is a block at the start. */
  lemma BlockStart(here: seq<Holding>, rest: seq<Holding>, from: nat, cards: seq<Card>)
    requires |here| == |cards| && forall i :: 0 <= i < |cards| ==> here[i] == Holding(from, cards[i])
    requires forall h :: h in rest ==> h.player > from
    ensures BlockAt(here + rest, 0, from, cards)
  {
    var r := here + rest;
    forall k | |cards| <= k < |r|
      ensures r[k].player > from
    {
      assert r[k] == rest[k - |cards|];
    }
  }

  /** A block of a later seat moves back by the length of an earlier seat's hand. */
  lemma BlockShift(here: seq<Holding>, rest: seq<Holding>, from: nat, t: nat, j: nat, cards: seq<Card>)
    requires forall h :: h in here ==> h.player == from
    requires from < j && BlockAt(rest, t, j, cards)
    ensures BlockAt(here + rest, |here| + t, j, cards)
  {
    var r := here + rest;
    var s := |here| + t;
    forall i | 0 <= i < |cards|
      ensures r[s + i] == Holding(j, cards[i])
    {
      assert r[s + i] == rest[t + i];
    }
    forall k | 0 <= k < s
      ensures r[k].player < j
    {
      if k < |here| {
        assert r[k] == here[k];
      } else {
        assert r[k] == rest[k - |here|];
      }
    }
    forall k | s + |cards| <= k < |r|
      ensures r[k].player > j
    {
      assert r[k] == rest[k - |here|];
    }
  }

  /** Seat `j`'s hand is a block somewhere in `hs`. */
  ghost predicate SeatBlock(hs: seq<Holding>, j: nat, cards: seq<Card>) {
    exists s: nat :: BlockAt(hs, s, j, cards)
  }

  /** Every seat of `players` has its hand as a block of `hs`. */
  ghost predicate SeatBlocks(hs: seq<Holding>, players: seq<Player>) {
    forall j :: 0 <= j < |players| ==> SeatBlock(hs, j, players[j].cards)
  }

  /** The holdings from seat 0 are laid out seat by seat. */
  lemma HoldingsSeatBlocks(players: seq<Player>, hs: seq<Holding>)
    requires hs == Holdings(players, 0)
    ensures SeatBlocks(hs, players)
  {
    forall j | 0 <= j < |players|
      ensures SeatBlock(hs, j, players[j].cards)
    {
      HoldingsBlock(players, 0, j);
    }
  }

  /** A holding of seat `a` lies inside seat `a`'s block; one of an earlier seat lies before any later seat's block. */
  lemma InBlock(hs: seq<Holding>, s: nat, j: nat, cards: seq<Card>, k: nat)
    requires BlockAt(hs, s, j, cards) && k < |hs|
    ensures hs[k].player == j ==> s <= k < s + |cards|
    ensures hs[k].player < j ==> k < s
  {
    if k < s {
      assert hs[k].player < j;
    } else if k >= s + |cards| {
      assert hs[k].player > j;
    } else {
      assert hs[s + (k - s)] == Holding(j, cards[k - s]);
    }
  }

  /**
   * A holding that no later holding matches or undercuts is the last card of
   * its value class in seat order and then hand order: no later seat holds a
   * card no higher, and no later card of its own hand is no higher.
   */
  lemma LastHeldIsLast(prefix: seq<Player>, hs: seq<Holding>, k: nat)
    requires SeatBlocks(hs, prefix)
    requires k < |hs| && hs[k].player < |prefix| && forall k' :: k < k' < |hs| ==> !Lte(hs[k'].card, hs[k].card)
    ensures forall j, c :: hs[k].player < j < |prefix| && c in prefix[j].cards ==> !Lte(c, hs[k].card)
    ensures LastInHand(prefix[hs[k].player].cards, hs[k].card)
  {
    var h := hs[k];
    var a := h.player;
    LastInOwnHand(hs, k, a, prefix[a].cards);
    forall j, c | a < j < |prefix| && c in prefix[j].cards
      ensures !Lte(c, h.card)
    {
      LaterSeatAfter(hs, k, j, prefix[j].cards, c);
    }
  }

  /** Within its own seat's block, a holding with nothing no higher after it is the last such card of the hand. */
  lemma LastInOwnHand(hs: seq<Holding>, k: nat, a: nat, cards: seq<Card>)
    requires k < |hs| && hs[k].player == a && SeatBlock(hs, a, cards)
    requires forall k' :: k < k' < |hs| ==> !Lte(hs[k'].card, hs[k].card)
    ensures LastInHand(cards, hs[k].card)
  {
    var s: nat :| BlockAt(hs, s, a, cards);
    InBlock(hs, s, a, cards, k);
    var i := k - s;
    assert hs[s + i] == Holding(a, cards[i]);
    forall i' | i < i' < |cards|
      ensures !Lte(cards[i'], hs[k].card)
    {
      assert hs[s + i'] == Holding(a, cards[i']);
    }
  }

  /** A card of a later seat sits after the holding `k` and so is higher than its card. */
  lemma LaterSeatAfter(hs: seq<Holding>, k: nat, j: nat, cards: seq<Card>, c: Card)
    requires k < |hs| && hs[k].player < j && SeatBlock(hs, j, cards)
    requires forall k' :: k < k' < |hs| ==> !Lte(hs[k'].card, hs[k].card)
    requires c in cards
    ensures !Lte(c, hs[k].card)
  {
    var t: nat :| BlockAt(hs, t, j, cards);
    InBlock(hs, t, j, cards, k);
    var m :| 0 <= m < |cards| && cards[m] == c;
    assert hs[t + m] == Holding(j, c);
  }

  /** Some copy of `card` in the hand has no card no higher after it. */
  predicate LastInHand(cards: seq<Card>, card: Card) {
    exists i :: 0 <= i < |cards| && cards[i] == card &&
      forall i' :: i < i' < |cards| ==> !Lte(cards[i'], card)
  }

  /** The attacker and defender chosen when the trump card `h` is the lowest so far. */
  function TrumpChoice(players: seq<Player>, h: Holding): (r: FirstAttacker)
    ensures r.reason == h.card && r.attacker == AdjustPlayerIndex(players, h.player)
    ensures ActiveCount(players) >= 2 ==>
      0 <= r.attacker < |players| && players[r.attacker].isActive &&
      0 <= r.defender < |players| && players[r.defender].isActive && r.attacker != r.defender
    ensures r.defender == AdjustPlayerIndex(players, r.attacker + 1)
    ensures ActiveCount(players) < 2 ==> r.attacker == -1 && r.defender == -1
  {
    var a := AdjustPlayerIndex(players, h.player);
    var r := FirstAttacker(a, AdjustPlayerIndex(players, a + 1), h.card);
    if ActiveCount(players) >= 2 then AdjustNextDiffers(players, a); r else r
  }

  /**
   * The first loop of findFirstAttacker over `hs`: every trump no higher
   * than the current reason card takes over.
   */
  function TrumpPass(players: seq<Player>, trump: string, hs: seq<Holding>, acc: FirstAttacker): (r: FirstAttacker)
    ensures Lte(r.reason, acc.reason)
    ensures forall h :: h in hs && h.card.suit == trump ==> Lte(r.reason, h.card)
    ensures r == acc || exists h :: h in hs && h.card.suit == trump && r == TrumpChoice(players, h)
    ensures (exists h :: h in hs && h.card.suit == trump && Lte(h.card, acc.reason)) ==>
      exists h :: h in hs && h.card.suit == trump && r == TrumpChoice(players, h)
  {
    if |hs| == 0 then acc
    else
      var h := hs[0];
      var acc' := if h.card.suit == trump && Lte(h.card, acc.reason) then TrumpChoice(players, h) else acc;
      assert hs == [h] + hs[1..];
      TrumpPass(players, trump, hs[1..], acc')
  }

  /** The attacker and defender chosen by the fallback when the card of `h` is the lowest so far. */
  function FallbackChoice(players: seq<Player>, h: Holding): (r: FirstAttacker)
    ensures r.attacker == h.player && r.reason == h.card
    ensures r.defender == AdjustPlayerIndex(players, h.player + 1)
  {
    FirstAttacker(h.player, AdjustPlayerIndex(players, h.player + 1), h.card)
  }

  /** The fallback loop of findFirstAttacker: any card no higher than the current reason card takes over. */
  function FallbackPass(players: seq<Player>, hs: seq<Holding>, acc: FirstAttacker): (r: FirstAttacker)
    ensures Lte(r.reason, acc.reason)
    ensures forall h :: h in hs ==> Lte(r.reason, h.card)
    ensures r == acc || exists h :: h in hs && r == FallbackChoice(players, h)
    ensures (exists h :: h in hs && Lte(h.card, acc.reason)) ==> exists h :: h in hs && r == FallbackChoice(players, h)
  {
    if |hs| == 0 then acc
    else
      var h := hs[0];
      var acc' := if Lte(h.card, acc.reason) then FallbackChoice(players, h) else acc;
      assert hs == [h] + hs[1..];
      FallbackPass(players, hs[1..], acc')
  }

  /**
   * Because an equal card also takes over, the fallback pass ends on the last
   * holding that took over: no holding after it is no higher than its card.
   * If nothing took over, no holding was no higher than the start.
   */
  lemma {:induction false} FallbackPassLast(players: seq<Player>, hs: seq<Holding>, acc: FirstAttacker)
    ensures var r := FallbackPass(players, hs, acc);
      (r == acc && forall k :: 0 <= k < |hs| ==> !Lte(hs[k].card, acc.reason)) ||
      exists k :: 0 <= k < |hs| && r == FallbackChoice(players, hs[k]) &&
        forall k' :: k < k' < |hs| ==> !Lte(hs[k'].card, r.reason)
    decreases |hs|
  {
    if |hs| > 0 {
      var h := hs[0];
      var tail := hs[1..];
      var acc' := if Lte(h.card, acc.reason) then FallbackChoice(players, h) else acc;
      var r := FallbackPass(players, hs, acc);
      assert r == FallbackPass(players, tail, acc');
      FallbackPassLast(players, tail, acc');
      if r == acc' && forall k :: 0 <= k < |tail| ==> !Lte(tail[k].card, acc'.reason) {
        if Lte(h.card, acc.reason) {
          forall k' | 0 < k' < |hs|
            ensures !Lte(hs[k'].card, r.reason)
          {
            assert hs[k'] == tail[k' - 1];
          }
          assert r == FallbackChoice(players, hs[0]);
        } else {
          forall k | 0 < k < |hs|
            ensures !Lte(hs[k].card, acc.reason)
          {
            assert hs[k] == tail[k - 1];
          }
        }
      } else {
        var k :| 0 <= k < |tail| && r == FallbackChoice(players, tail[k]) &&
          forall k' :: k < k' < |tail| ==> !Lte(tail[k'].card, r.reason);
        forall k' | k + 1 < k' < |hs|
          ensures !Lte(hs[k'].card, r.reason)
        {
          assert hs[k'] == tail[k' - 1];
        }
        assert hs[k + 1] == tail[k];
      }
    }
  }

  /** The seats before the first inactive one: the fallback stops there. */
  function ActivePrefix(players: seq<Player>): (r: seq<Player>)
    ensures |r| <= |players| && r == players[..|r|]
    ensures forall j :: 0 <= j < |r| ==> r[j].isActive
    ensures |r| < |players| ==> !players[|r|].isActive
  {
    if |players| == 0 || !players[0].isActive then []
    else
      var rest := ActivePrefix(players[1..]);
      assert [players[0]] + rest == players[..|rest| + 1];
      [players[0]] + rest
  }

  /**
   * findFirstAttacker.  With two or more active players and a trump in some
   * hand, the attacker is the active seat at or after the holder of the
   * lowest trump, that trump is the reason card, and the defender is another
   * active seat.  With no trump anywhere, the lowest card of the seats before
   * the first inactive one decides, its holder attacks and the next active
   * seat defends; with no card there either, nobody is chosen.
   */
  function FindFirstAttacker(g: Game): (r: FirstAttacker)
    ensures ActiveCount(g.players) >= 2 && SomeTrumpHeld(g) ==> LowestTrumpChosen(g, r)
    ensures !SomeTrumpHeld(g) ==> LowestCardChosen(g, r)
  {
    var none := FirstAttacker(-1, -1, Card("A", g.trumpSuit));
    var t := TrumpPass(g.players, g.trumpSuit, Holdings(g.players, 0), none);
    TrumpCase(g);
    if t.attacker >= 0 then t
    else
      NoTrumpCase(g);
      FallbackPass(g.players, Holdings(ActivePrefix(g.players), 0), t)
  }

  predicate SomeTrumpHeld(g: Game) {
    exists j, c :: 0 <= j < |g.players| && c in g.players[j].cards && c.suit == g.trumpSuit
  }

  /** The outcome of the trump rule of findFirstAttacker. */
  predicate LowestTrumpChosen(g: Game, t: FirstAttacker) {
    0 <= t.attacker < |g.players| && g.players[t.attacker].isActive &&
    0 <= t.defender < |g.players| && g.players[t.defender].isActive && t.attacker != t.defender &&
    t.defender == AdjustPlayerIndex(g.players, t.attacker + 1) &&
    t.reason.suit == g.trumpSuit &&
    (exists j :: 0 <= j < |g.players| && t.reason in g.players[j].cards && t.attacker == AdjustPlayerIndex(g.players, j)) &&
    (forall j, c :: 0 <= j < |g.players| && c in g.players[j].cards && c.suit == g.trumpSuit ==> Lte(t.reason, c))
  }

  /** The outcome of the fallback rule of findFirstAttacker. */
  predicate LowestCardChosen(g: Game, f: FirstAttacker) {
    var prefix := ActivePrefix(g.players);
    (f.attacker == -1 && f.reason == Card("A", g.trumpSuit) &&
     forall j :: 0 <= j < |prefix| ==> |g.players[j].cards| == 0) ||
    (0 <= f.attacker < |prefix| && f.reason in g.players[f.attacker].cards &&
     f.defender == AdjustPlayerIndex(g.players, f.attacker + 1) &&
     (forall j, c :: 0 <= j < |prefix| && c in g.players[j].cards ==> Lte(f.reason, c)) &&
     (forall j, c :: f.attacker < j < |prefix| && c in g.players[j].cards ==> !Lte(c, f.reason)) &&
     LastInHand(g.players[f.attacker].cards, f.reason))
  }

  /** With two active players and a trump in some hand, the trump pass picks the lowest trump's holder. */
  lemma TrumpCase(g: Game)
    ensures var t := TrumpPass(g.players, g.trumpSuit, Holdings(g.players, 0), FirstAttacker(-1, -1, Card("A", g.trumpSuit)));
      ActiveCount(g.players) >= 2 && SomeTrumpHeld(g) ==> LowestTrumpChosen(g, t)
  {
    var none := FirstAttacker(-1, -1, Card("A", g.trumpSuit));
    var hs := Holdings(g.players, 0);
    var t := TrumpPass(g.players, g.trumpSuit, hs, none);
    if ActiveCount(g.players) >= 2 && SomeTrumpHeld(g) {
      var j, c :| 0 <= j < |g.players| && c in g.players[j].cards && c.suit == g.trumpSuit;
      assert Holding(j, c) in hs;
      ValueIndexIsPosition(Card("A", g.trumpSuit), 8);
      assert Lte(c, none.reason);
      var h :| h in hs && h.card.suit == g.trumpSuit && t == TrumpChoice(g.players, h);
      assert t.reason in g.players[h.player].cards;
      forall j', c' | 0 <= j' < |g.players| && c' in g.players[j'].cards && c'.suit == g.trumpSuit
        ensures Lte(t.reason, c')
      {
        assert Holding(j', c') in hs;
      }
      TrumpChoiceChosen(g, h);
    }
  }

  /** A choice made from a lowest trump in a hand meets every clause of LowestTrumpChosen. */
  lemma TrumpChoiceChosen(g: Game, h: Holding)
    ensures (ActiveCount(g.players) >= 2 &&
             0 <= h.player < |g.players| && h.card in g.players[h.player].cards && h.card.suit == g.trumpSuit &&
             forall j, c :: 0 <= j < |g.players| && c in g.players[j].cards && c.suit == g.trumpSuit ==> Lte(h.card, c)) ==>
      LowestTrumpChosen(g, TrumpChoice(g.players, h))
  {
  }

  /** With no trump in any hand, the trump pass keeps its start and the fallback decides. */
  lemma NoTrumpCase(g: Game)
    ensures var none := FirstAttacker(-1, -1, Card("A", g.trumpSuit));
      !SomeTrumpHeld(g) ==>
        TrumpPass(g.players, g.trumpSuit, Holdings(g.players, 0), none) == none &&
        LowestCardChosen(g, FallbackPass(g.players, Holdings(ActivePrefix(g.players), 0), none))
  {
    FallbackCase(g);
  }

  /**
   * The fallback pass picks the lowest card of the seats before the first
   * inactive one, and among equal lowest cards the last in seat and hand order.
   */
  lemma FallbackCase(g: Game)
    ensures LowestCardChosen(g, FallbackPass(g.players, Holdings(ActivePrefix(g.players), 0), FirstAttacker(-1, -1, Card("A", g.trumpSuit))))
  {
    var none := FirstAttacker(-1, -1, Card("A", g.trumpSuit));
    var hs := Holdings(ActivePrefix(g.players), 0);
    var f := FallbackPass(g.players, hs, none);
    FallbackPassLast(g.players, hs, none);
    if f != none {
      var k :| 0 <= k < |hs| && f == FallbackChoice(g.players, hs[k]) &&
        forall k' :: k < k' < |hs| ==> !Lte(hs[k'].card, f.reason);
      FallbackPicked(g, k);
    } else {
      FallbackEmpty(g);
    }
  }

  /** The last holding the fallback pass took over gives a lowest card's seat. */
  lemma FallbackPicked(g: Game, k: nat)
    ensures var hs := Holdings(ActivePrefix(g.players), 0);
      var f := FallbackPass(g.players, hs, FirstAttacker(-1, -1, Card("A", g.trumpSuit)));
      k < |hs| && f == FallbackChoice(g.players, hs[k]) && (forall k' :: k < k' < |hs| ==> !Lte(hs[k'].card, f.reason)) ==>
        LowestCardChosen(g, f)
  {
    var prefix := ActivePrefix(g.players);
    var hs := Holdings(prefix, 0);
    var none := FirstAttacker(-1, -1, Card("A", g.trumpSuit));
    var f := FallbackPass(g.players, hs, none);
    if k < |hs| && f == FallbackChoice(g.players, hs[k]) && (forall k' :: k < k' < |hs| ==> !Lte(hs[k'].card, f.reason)) {
      HoldingsSeatBlocks(prefix, hs);
      assert hs[k] in hs;
      LastHeldIsLast(prefix, hs, k);
      ChoiceLowest(g, prefix, hs, k, f);
    }
  }

  /** The choice made for the last lowest holding meets every clause of LowestCardChosen. */
  lemma ChoiceLowest(g: Game, prefix: seq<Player>, hs: seq<Holding>, k: nat, f: FirstAttacker)
    ensures prefix == ActivePrefix(g.players) && hs == Holdings(prefix, 0) && k < |hs| && f == FallbackChoice(g.players, hs[k]) &&
            (forall h :: h in hs ==> Lte(f.reason, h.card)) &&
            (forall j, c :: hs[k].player < j < |prefix| && c in prefix[j].cards ==> !Lte(c, hs[k].card)) &&
            LastInHand(prefix[hs[k].player].cards, hs[k].card) ==>
      LowestCardChosen(g, f)
  {
    if prefix == ActivePrefix(g.players) && hs == Holdings(prefix, 0) && k < |hs| && f == FallbackChoice(g.players, hs[k]) &&
       (forall h :: h in hs ==> Lte(f.reason, h.card)) {
      var h := hs[k];
      assert h in hs;
      assert prefix[h.player] == g.players[h.player];
      forall j, c | 0 <= j < |prefix| && c in g.players[j].cards
        ensures Lte(f.reason, c)
      {
        assert prefix[j] == g.players[j];
        assert Holding(j, c) in hs;
      }
      forall j | h.player < j < |prefix|
        ensures prefix[j] == g.players[j]
      {
      }
    }
  }

  /** A fallback pass that keeps its start found no card before the first inactive seat. */
  lemma FallbackEmpty(g: Game)
    ensures var none := FirstAttacker(-1, -1, Card("A", g.trumpSuit));
      FallbackPass(g.players, Holdings(ActivePrefix(g.players), 0), none) == none ==>
        (forall j :: 0 <= j < |ActivePrefix(g.players)| ==> |g.players[j].cards| == 0) &&
        LowestCardChosen(g, none)
  {
    var prefix := ActivePrefix(g.players);
    var none := FirstAttacker(-1, -1, Card("A", g.trumpSuit));
    if FallbackPass(g.players, Holdings(prefix, 0), none) == none {
      ValueIndexIsPosition(Card("A", g.trumpSuit), 8);
      forall j | 0 <= j < |prefix|
        ensures |g.players[j].cards| == 0
      {
        assert prefix[j] == g.players[j];
        FirstHolding(prefix, j);
      }
    }
  }



}
