/** The talon of a game (deck.go): a stack of cards whose last element is the top. */
module Decks {
  import opened Wrappers
  import opened Cards
  import CardStack
  import Strings

  datatype Deck = Deck(cards: seq<Card>)

  const DeckEmptyMessage := "no cards left in deck"

  /** Outcome of getCard: the deck after the draw, the card, and the error if any. */
  datatype DeckDraw = DeckDraw(deck: Deck, card: Card, err: Option<string>)

  /** newDeck: the 36 cards in value-major, suit-minor order, each pair once. */
  method NewDeck() returns (d: Deck)
    ensures CardStack.FreshOrder(d.cards)
    ensures forall i, j :: 0 <= i < j < |d.cards| ==> d.cards[i] != d.cards[j]
  {
    var cards := CardStack.FreshCards();
    CardStack.FreshCardsDistinct(cards);
    d := Deck(cards);
  }

  /**
   * getCard: on a non-empty deck the last card, leaving exactly the prefix
   * before it; on an empty deck an error, the zero card, and the deck as it was.
   */
  function GetCard(d: Deck): (r: DeckDraw)
    ensures |d.cards| > 0 ==> r.err == None && r.card == d.cards[|d.cards| - 1]
    ensures |d.cards| > 0 ==> r.deck.cards == d.cards[..|d.cards| - 1]
    ensures |d.cards| == 0 ==> r.err == Some(DeckEmptyMessage) && r.card == ZeroCard && r.deck == d
    ensures |r.deck.cards| <= |d.cards| && multiset(r.deck.cards) <= multiset(d.cards)
  {
    var drawn := CardStack.Draw(d.cards, DeckEmptyMessage);
    assert |d.cards| > 0 ==> drawn.rest == d.cards[..|d.cards| - 1];
    DeckDraw(Deck(drawn.rest), drawn.card, drawn.err)
  }

  /** A draw that succeeds removes exactly one card; one that fails removes none. */
  lemma GetCardSize(d: Deck)
    ensures GetCard(d).err == None <==> |d.cards| > 0
    ensures GetCard(d).err == None ==> |GetCard(d).deck.cards| == |d.cards| - 1
    ensures GetCard(d).err != None ==> GetCard(d).deck == d
    ensures GetCard(d).err == None ==> GetCard(d).deck.cards + [GetCard(d).card] == d.cards
  {
  }

  /** shuffle with the swap choices rand.Intn made: same cards, same count. */
  method Shuffle(d: Deck, picks: seq<nat>) returns (r: Deck)
    requires CardStack.ValidSwaps(|d.cards|, picks)
    ensures |r.cards| == |d.cards|
    ensures multiset(r.cards) == multiset(d.cards)
  {
    var cards := CardStack.Shuffle(d.cards, picks);
    r := Deck(cards);
  }

  /** asString: the card texts separated by single spaces. */
  function AsString(d: Deck): (r: string)
    ensures |d.cards| == 0 ==> r == ""
    ensures |d.cards| == 1 ==> r == CardText(d.cards[0])
  {
    CardStack.AsString(d.cards)
  }

  /** The text of a fresh deck cut to four cards, as the tests expect it. */
  lemma AsStringOfFreshFour(d: Deck)
    requires CardStack.FreshOrder(d.cards)
    ensures AsString(Deck(d.cards[..4])) == "6♣ 6♦ 6♥ 6♠"
  {
    CardStack.FreshPrefixText(d.cards);
  }

  /** The text splits back into the card texts at the spaces. */
  lemma AsStringRoundTrip(d: Deck)
    requires |d.cards| > 0
    requires forall i :: 0 <= i < |d.cards| ==> Strings.NoChar(CardText(d.cards[i]), ' ')
    ensures Strings.Split(AsString(d), ' ') == CardStack.Texts(d.cards)
  {
    CardStack.AsStringSplits(d.cards);
  }
}
