/**
 * Playing cards of the 36-card Durak deck and their value-only ordering
 * (card.go).  The value and suit tables are the ones the tests fix:
 * values 6..A and suits club, diamond, heart, spade.
 */
module Cards {

  /** A card is a value and a suit, compared structurally. */
  datatype Card = Card(value: string, suit: string)

  const CardValues: seq<string> := ["6", "7", "8", "9", "10", "J", "Q", "K", "A"]
  const CardSuits: seq<string> := ["♣", "♦", "♥", "♠"]

  /** Go's zero Card{}: both fields empty. */
  const ZeroCard := Card("", "")

  /** The text a card prints as: value then suit. */
  function CardText(c: Card): string {
    c.value + c.suit
  }

  /**
   * Position of `v` in `values` as Go's getValueIndex loop finds it: the loop
   * does not stop at a match, so the last matching position wins; -1 when
   * `v` does not occur.
   */
  function LastIndexOf(values: seq<string>, v: string): (r: int)
    ensures -1 <= r < |values|
    ensures r == -1 <==> v !in values
    ensures r >= 0 ==> values[r] == v
    ensures forall j :: r < j < |values| ==> values[j] != v
  {
    if |values| == 0 then -1
    else if values[|values| - 1] == v then |values| - 1
    else LastIndexOf(values[..|values| - 1], v)
  }

  /** getValueIndex: the rank of the card's value, -1 for an unknown value. */
  function ValueIndex(c: Card): (r: int)
    ensures -1 <= r < |CardValues|
    ensures r == -1 <==> c.value !in CardValues
    ensures r >= 0 ==> CardValues[r] == c.value
  {
    LastIndexOf(CardValues, c.value)
  }

  /** gt: a known value beats an unknown one; a value never beats itself. */
  function Gt(a: Card, b: Card): (r: bool)
    ensures r ==> a.value in CardValues && a.value != b.value
    ensures a.value in CardValues && b.value !in CardValues ==> r
  {
    ValueIndex(a) > ValueIndex(b)
  }

  /** gte: equal values and anything over an unknown value qualify. */
  function Gte(a: Card, b: Card): (r: bool)
    ensures a.value == b.value || b.value !in CardValues ==> r
    ensures r && a.value !in CardValues ==> b.value !in CardValues
  {
    ValueIndex(a) >= ValueIndex(b)
  }

  /** lt: an unknown value is below a known one; a value is never below itself. */
  function Lt(a: Card, b: Card): (r: bool)
    ensures r ==> b.value in CardValues && a.value != b.value
    ensures a.value !in CardValues && b.value in CardValues ==> r
  {
    ValueIndex(a) < ValueIndex(b)
  }

  /** lte: equal values and an unknown value on the left qualify. */
  function Lte(a: Card, b: Card): (r: bool)
    ensures a.value == b.value || a.value !in CardValues ==> r
    ensures r && b.value !in CardValues ==> a.value !in CardValues
  {
    ValueIndex(a) <= ValueIndex(b)
  }

  /** Card.equals as the tests fix it: both value and suit match. */
  predicate Equals(a: Card, b: Card) {
    a.value == b.value && a.suit == b.suit
  }

  /** The table of values has no repeats, so each known value has one rank. */
  lemma ValuesDistinct()
    ensures forall i, j :: 0 <= i < j < |CardValues| ==> CardValues[i] != CardValues[j]
  {
  }

  /** A card's rank is exactly the position of its value in the table. */
  lemma ValueIndexIsPosition(c: Card, i: int)
    requires 0 <= i < |CardValues| && CardValues[i] == c.value
    ensures ValueIndex(c) == i
  {
    ValuesDistinct();
  }

  /** The tests' example: a nine has rank 3. */
  lemma NineHasRankThree(s: string)
    ensures ValueIndex(Card("9", s)) == 3
  {
    ValueIndexIsPosition(Card("9", s), 3);
  }

  /** Each comparison looks only at values: changing either suit changes nothing. */
  lemma ComparisonsIgnoreSuit(a: Card, b: Card, sa: string, sb: string)
    ensures Gt(a, b) == Gt(Card(a.value, sa), Card(b.value, sb))
    ensures Gte(a, b) == Gte(Card(a.value, sa), Card(b.value, sb))
    ensures Lt(a, b) == Lt(Card(a.value, sa), Card(b.value, sb))
    ensures Lte(a, b) == Lte(Card(a.value, sa), Card(b.value, sb))
  {
  }

  /** Two cards of the same value are neither greater nor less than each other. */
  lemma SameValueIncomparable(a: Card, b: Card)
    requires a.value == b.value
    ensures !Gt(a, b) && !Lt(a, b) && Gte(a, b) && Lte(a, b)
  {
  }

  /** gt/lt and gte/lte are mirror images, and gte/lte are the negations of lt/gt. */
  lemma Duality(a: Card, b: Card)
    ensures Gt(a, b) == Lt(b, a)
    ensures Gte(a, b) == !Lt(a, b)
    ensures Lte(a, b) == !Gt(a, b)
    ensures Gte(a, b) == Lte(b, a)
  {
  }

  /** For any two cards exactly one of lt, same rank, gt holds; gte and lte are reflexive. */
  lemma Trichotomy(a: Card, b: Card)
    ensures Gte(a, a) && Lte(a, a)
    ensures Lt(a, b) || ValueIndex(a) == ValueIndex(b) || Gt(a, b)
    ensures !(Lt(a, b) && Gt(a, b))
    ensures ValueIndex(a) == ValueIndex(b) ==> !Lt(a, b) && !Gt(a, b)
  {
  }

  /** A card of unknown value ranks below every card of a known value. */
  lemma UnknownValueIsLowest(u: Card, k: Card)
    requires u.value !in CardValues
    requires k.value in CardValues
    ensures Lt(u, k) && !Gte(u, k)
  {
  }

  /** The tests' examples of the ordering. */
  lemma ComparisonExamples()
    ensures !Gt(Card("9", "♦"), Card("10", "♠"))
    ensures Gt(Card("9", "♦"), Card("8", "♦"))
    ensures !Gt(Card("9", "♦"), Card("9", "♠"))
    ensures !Gte(Card("J", "♦"), Card("Q", "♠"))
    ensures Lt(Card("9", "♦"), Card("10", "♦"))
    ensures !Lte(Card("K", "♦"), Card("Q", "♠"))
  {
    ValueIndexIsPosition(Card("8", "♦"), 2);
    ValueIndexIsPosition(Card("9", "♦"), 3);
    ValueIndexIsPosition(Card("9", "♠"), 3);
    ValueIndexIsPosition(Card("10", "♠"), 4);
    ValueIndexIsPosition(Card("10", "♦"), 4);
    ValueIndexIsPosition(Card("J", "♦"), 5);
    ValueIndexIsPosition(Card("Q", "♠"), 6);
    ValueIndexIsPosition(Card("K", "♦"), 7);
  }

  /** equals holds exactly for structurally equal cards. */
  lemma EqualsIsStructural(a: Card, b: Card)
    ensures Equals(a, b) <==> a == b
  {
  }
}
