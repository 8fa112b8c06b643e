/**
 * The stack-of-cards logic that deck.go and pile.go both implement, on a
 * sequence whose last element is the top card: the fresh ordered 36 cards,
 * drawing the top card, the Fisher-Yates shuffle driven by explicit swap
 * choices, and the space-separated text form.
 */
module CardStack {
  import opened Wrappers
  import opened Cards
  import Strings

  /** Card at position `vi * 4 + si` of a fresh stack. */
  predicate FreshOrder(cards: seq<Card>) {
    |cards| == 36 &&
    forall vi, si :: 0 <= vi < 9 && 0 <= si < 4 ==>
      cards[vi * 4 + si] == Card(CardValues[vi], CardSuits[si])
  }

  /**
   * newDeck/newPile: one card per (value, suit) pair, value-major then suit,
   * built by the same two nested loops as the source.
   */
  method FreshCards() returns (cards: seq<Card>)
    ensures FreshOrder(cards)
  {
    cards := [];
    var vi := 0;
    while vi < |CardValues|
      invariant 0 <= vi <= 9
      invariant |cards| == vi * 4
      invariant forall v, s :: 0 <= v < vi && 0 <= s < 4 ==>
        cards[v * 4 + s] == Card(CardValues[v], CardSuits[s])
    {
      var si := 0;
      while si < |CardSuits|
        invariant 0 <= si <= 4
        invariant |cards| == vi * 4 + si
        invariant forall v, s :: 0 <= v < vi && 0 <= s < 4 ==>
          cards[v * 4 + s] == Card(CardValues[v], CardSuits[s])
        invariant forall s :: 0 <= s < si ==> cards[vi * 4 + s] == Card(CardValues[vi], CardSuits[s])
      {
        cards := cards + [Card(CardValues[vi], CardSuits[si])];
        si := si + 1;
      }
      vi := vi + 1;
    }
  }

  /** A fresh stack holds 36 pairwise different cards, and every (value, suit) pair. */
  lemma FreshCardsDistinct(cards: seq<Card>)
    requires FreshOrder(cards)
    ensures forall i, j :: 0 <= i < j < |cards| ==> cards[i] != cards[j]
    ensures forall v, s :: v in CardValues && s in CardSuits ==> Card(v, s) in cards
  {
    forall i, j | 0 <= i < j < |cards|
      ensures cards[i] != cards[j]
    {
      var vi, si, vj, sj := i / 4, i % 4, j / 4, j % 4;
      assert cards[vi * 4 + si] == Card(CardValues[vi], CardSuits[si]);
      assert cards[vj * 4 + sj] == Card(CardValues[vj], CardSuits[sj]);
      assert vi != vj || si != sj;
    }
    forall v, s | v in CardValues && s in CardSuits
      ensures Card(v, s) in cards
    {
      var vi :| 0 <= vi < 9 && CardValues[vi] == v;
      var si :| 0 <= si < 4 && CardSuits[si] == s;
      assert cards[vi * 4 + si] == Card(v, s);
    }
  }

  /** Outcome of drawing: what is left, the card handed out, and the error if any. */
  datatype Drawn = Drawn(rest: seq<Card>, card: Card, err: Wrappers.Option<string>)

  /**
   * getCard: the top (last) card and the stack without it; on an empty stack
   * the error `message`, Go's zero card, and the stack unchanged.
   */
  function Draw(cards: seq<Card>, message: string): (r: Drawn)
    ensures |cards| > 0 ==> r.err == None && r.rest + [r.card] == cards
    ensures |cards| > 0 ==> |r.rest| == |cards| - 1
    ensures |cards| == 0 ==> r == Drawn([], ZeroCard, Some(message))
    ensures multiset(r.rest) <= multiset(cards)
  {
    if |cards| > 0 then
      assert cards[..|cards| - 1] + [cards[|cards| - 1]] == cards;
      Drawn(cards[..|cards| - 1], cards[|cards| - 1], None)
    else
      Drawn(cards, ZeroCard, Some(message))
  }

  /** Swap choices a Fisher-Yates pass may make: the i-th choice is at most i. */
  predicate ValidSwaps(n: nat, picks: seq<nat>) {
    |picks| == n && forall i :: 0 <= i < n ==> picks[i] <= i
  }

  /**
   * shuffle: for each position i in order, exchange it with position
   * picks[i] (Go draws it with rand.Intn(i + 1)).  Whatever the choices, the
   * result is a rearrangement of the input.
   */
  method Shuffle(cards: seq<Card>, picks: seq<nat>) returns (r: seq<Card>)
    requires ValidSwaps(|cards|, picks)
    ensures |r| == |cards|
    ensures multiset(r) == multiset(cards)
  {
    r := cards;
    var i := 0;
    while i < |r|
      invariant 0 <= i <= |r|
      invariant |r| == |cards|
      invariant multiset(r) == multiset(cards)
    {
      var j := picks[i];
      SwapKeepsMultiset(r, i, j);
      r := r[i := r[j]][j := r[i]];
      i := i + 1;
    }
  }

  lemma SwapKeepsMultiset(s: seq<Card>, i: nat, j: nat)
    requires i < |s| && j < |s|
    ensures multiset(s[i := s[j]][j := s[i]]) == multiset(s)
  {
    if i != j {
      var t := s[i := s[j]];
      assert multiset(t) == multiset(s) - multiset{s[i]} + multiset{s[j]};
      assert t[j] == s[j];
      assert multiset(t[j := s[i]]) == multiset(t) - multiset{s[j]} + multiset{s[i]};
    }
  }

  /** The card texts in stack order. */
  function Texts(cards: seq<Card>): (r: seq<string>)
    ensures |r| == |cards|
    ensures forall i :: 0 <= i < |cards| ==> r[i] == CardText(cards[i])
  {
    if |cards| == 0 then [] else [CardText(cards[0])] + Texts(cards[1..])
  }

  /** asString: value+suit texts joined by single spaces. */
  function AsString(cards: seq<Card>): string {
    Strings.Join(Texts(cards), " ")
  }

  /** Shape of the text: empty for no cards, one text for one card, one space more per extra card. */
  lemma AsStringShape(cards: seq<Card>, c: Card)
    ensures AsString([]) == ""
    ensures AsString([c]) == CardText(c)
    ensures |cards| > 0 ==> AsString(cards + [c]) == AsString(cards) + " " + CardText(c)
  {
    if |cards| > 0 {
      assert Texts(cards + [c]) == Texts(cards) + [CardText(c)];
      Strings.JoinSnoc(Texts(cards), CardText(c), " ");
    }
  }

  /** Splitting the text at spaces recovers each card's text when no card text has a space. */
  lemma AsStringSplits(cards: seq<Card>)
    requires |cards| > 0
    requires forall i :: 0 <= i < |cards| ==> Strings.NoChar(CardText(cards[i]), ' ')
    ensures Strings.Split(AsString(cards), ' ') == Texts(cards)
  {
    Strings.SplitJoin(Texts(cards), ' ');
  }

  /** The first four cards of a fresh stack print as the four sixes. */
  lemma FreshPrefixText(cards: seq<Card>)
    requires FreshOrder(cards)
    ensures AsString(cards[..4]) == "6♣ 6♦ 6♥ 6♠"
  {
    assert CardValues[0] == "6";
    assert CardSuits[0] == "♣" && CardSuits[1] == "♦" && CardSuits[2] == "♥" && CardSuits[3] == "♠";
    assert cards[0 * 4 + 0] == Card("6", "♣") && cards[0 * 4 + 1] == Card("6", "♦");
    assert cards[0 * 4 + 2] == Card("6", "♥") && cards[0 * 4 + 3] == Card("6", "♠");
    var t := Texts(cards[..4]);
    assert t[0] == "6♣" && t[1] == "6♦" && t[2] == "6♥" && t[3] == "6♠";
    assert t == ["6♣", "6♦", "6♥", "6♠"];
    assert t[3..] == ["6♠"] && t[2..] == ["6♥", "6♠"] && t[1..] == ["6♦", "6♥", "6♠"];
    assert Strings.Join(t[2..], " ") == "6♥" + " " + "6♠";
    assert Strings.Join(t[1..], " ") == "6♦" + " " + "6♥ 6♠";
  }
}
