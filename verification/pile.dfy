/** The older name of the talon (pile.go), with the same logic as the deck: a stack of cards whose last element is the top. */
module Piles {
  import opened Wrappers
  import opened Cards
  import CardStack
  import Strings

  datatype Pile = Pile(cards: seq<Card>)

  const PileEmptyMessage := "No cards left in pile"

  /** Outcome of getCard: the pile after the draw, the card, and the error if any. */
  datatype PileDraw = PileDraw(pile: Pile, card: Card, err: Option<string>)

  /** newPile: the 36 cards in value-major, suit-minor order, each pair once. */
  method NewPile() returns (d: Pile)
    ensures CardStack.FreshOrder(d.cards)
    ensures forall i, j :: 0 <= i < j < |d.cards| ==> d.cards[i] != d.cards[j]
  {
    var cards := CardStack.FreshCards();
    CardStack.FreshCardsDistinct(cards);
    d := Pile(cards);
  }

  /**
   * getCard: on a non-empty pile the last card, leaving exactly the prefix
   * before it; on an empty pile an error, the zero card, and the pile as it was.
   */
  function GetCard(d: Pile): (r: PileDraw)
    ensures |d.cards| > 0 ==> r.err == None && r.card == d.cards[|d.cards| - 1]
    ensures |d.cards| > 0 ==> r.pile.cards == d.cards[..|d.cards| - 1]
    ensures |d.cards| == 0 ==> r.err == Some(PileEmptyMessage) && r.card == ZeroCard && r.pile == d
    ensures |r.pile.cards| <= |d.cards| && multiset(r.pile.cards) <= multiset(d.cards)
  {
    var drawn := CardStack.Draw(d.cards, PileEmptyMessage);
    assert |d.cards| > 0 ==> drawn.rest == d.cards[..|d.cards| - 1];
    PileDraw(Pile(drawn.rest), drawn.card, drawn.err)
  }

  /** A draw that succeeds removes exactly one card; one that fails removes none. */
  lemma GetCardSize(d: Pile)
    ensures GetCard(d).err == None <==> |d.cards| > 0
    ensures GetCard(d).err == None ==> |GetCard(d).pile.cards| == |d.cards| - 1
    ensures GetCard(d).err != None ==> GetCard(d).pile == d
    ensures GetCard(d).err == None ==> GetCard(d).pile.cards + [GetCard(d).card] == d.cards
  {
  }

  /** shuffle with the swap choices rand.Intn made: same cards, same count. */
  method Shuffle(d: Pile, picks: seq<nat>) returns (r: Pile)
    requires CardStack.ValidSwaps(|d.cards|, picks)
    ensures |r.cards| == |d.cards|
    ensures multiset(r.cards) == multiset(d.cards)
  {
    var cards := CardStack.Shuffle(d.cards, picks);
    r := Pile(cards);
  }

  /** asString: the card texts separated by single spaces. */
  function AsString(d: Pile): (r: string)
    ensures |d.cards| == 0 ==> r == ""
    ensures |d.cards| == 1 ==> r == CardText(d.cards[0])
  {
    CardStack.AsString(d.cards)
  }

  /** The text of a fresh pile cut to four cards, as the tests expect it. */
  lemma AsStringOfFreshFour(d: Pile)
    requires CardStack.FreshOrder(d.cards)
    ensures AsString(Pile(d.cards[..4])) == "6♣ 6♦ 6♥ 6♠"
  {
    CardStack.FreshPrefixText(d.cards);
  }

  /** The text splits back into the card texts at the spaces. */
  lemma AsStringRoundTrip(d: Pile)
    requires |d.cards| > 0
    requires forall i :: 0 <= i < |d.cards| ==> Strings.NoChar(CardText(d.cards[i]), ' ')
    ensures Strings.Split(AsString(d), ' ') == CardStack.Texts(d.cards)
  {
    CardStack.AsStringSplits(d.cards);
  }
}
