/**
 * The state of one Durak game on the server (game.go, player.go) and the
 * bookkeeping every rule and transition shares: hands, active players, seat
 * rotation, card lookups on the table, and the card total that every
 * transition keeps.
 */
module GameState {
  import opened Wrappers
  import opened Cards
  import opened Decks

  datatype Status = Preparing | Playing | Ended

  /** The status strings the server sends ("end" for a finished game). */
  function StatusText(s: Status): string {
    match s
    case Preparing => "preparing"
    case Playing => "playing"
    case Ended => "end"
  }

  /**
   * A seat at the table.  `clientId` identifies the connected client;
   * `isCompleted` is the per-round "done" flag that player.go does not show.
   */
  datatype Player = Player(name: string, isActive: bool, clientId: nat, cards: seq<Card>, isCompleted: bool)

  /**
   * One game.  A player is addressed by its index in `players`; the table
   * holds the attacking cards in `battleground` and the defending cards in
   * `defendingCards`, keyed by the index of the attacking card they beat.
   */
  datatype Game = Game(
    id: string,
    status: Status,
    players: seq<Player>,
    deck: Deck,
    discardPileSize: int,
    trumpSuit: string,
    trumpCard: Option<Card>,
    trumpCardIsOwnedByPlayerIndex: int,
    firstAttackerReasonCard: Option<Card>,
    attackerIndex: int,
    defenderIndex: int,
    battleground: seq<Card>,
    defendingCards: map<int, Card>,
    defenderPickUp: bool)

  /** newGame without its clock-derived id: preparing, empty table. */
  function NewGame(id: string, players: seq<Player>, deck: Deck): (g: Game)
    ensures g.status == Preparing && g.players == players
    ensures g.battleground == [] && g.defendingCards == map[] && !g.defenderPickUp
  {
    Game(id, Preparing, players, deck, 0, "", None, 0, None, 0, 0, [], map[], false)
  }

  predicate Seated(g: Game, i: int) {
    0 <= i < |g.players|
  }

  // ---------------------------------------------------------------- hands

  /** Player.hasCard: structural membership. */
  predicate HasCard(cards: seq<Card>, c: Card) {
    c in cards
  }

  /** Player.removeCard: drops the first card equal to `c`, if any. */
  function RemoveCard(cards: seq<Card>, c: Card): (r: seq<Card>)
    ensures c in cards ==> |r| == |cards| - 1 && multiset(r) == multiset(cards) - multiset{c}
    ensures c !in cards ==> r == cards
  {
    if |cards| == 0 then []
    else if cards[0] == c then
      assert cards == [cards[0]] + cards[1..];
      cards[1..]
    else
      assert cards == [cards[0]] + cards[1..];
      [cards[0]] + RemoveCard(cards[1..], c)
  }

  /** Number of cards in all hands together. */
  function SumHands(players: seq<Player>): nat {
    if |players| == 0 then 0 else |players[0].cards| + SumHands(players[1..])
  }

  /** Replacing one player changes the hand total by the change of that hand. */
  lemma {:induction false} SumHandsUpdate(players: seq<Player>, i: nat, p: Player)
    requires i < |players|
    ensures SumHands(players[i := p]) == SumHands(players) - |players[i].cards| + |p.cards|
  {
    if i > 0 {
      assert players[i := p][1..] == players[1..][i - 1 := p];
      SumHandsUpdate(players[1..], i - 1, p);
    }
  }

  /** Every card of the game: talon, hands, table and the discarded count. */
  function CardTotal(g: Game): int {
    |g.deck.cards| + SumHands(g.players) + |g.battleground| + |g.defendingCards| + g.discardPileSize
  }

  /** resetPlayersCompleteStatuses. */
  function ResetCompleted(players: seq<Player>): (r: seq<Player>)
    ensures |r| == |players|
    ensures forall i :: 0 <= i < |r| ==> r[i] == players[i].(isCompleted := false)
  {
    if |players| == 0 then [] else [players[0].(isCompleted := false)] + ResetCompleted(players[1..])
  }

  lemma {:induction false} ResetCompletedKeepsHands(players: seq<Player>)
    ensures SumHands(ResetCompleted(players)) == SumHands(players)
    ensures ActiveCount(ResetCompleted(players)) == ActiveCount(players)
  {
    if |players| > 0 {
      ResetCompletedKeepsHands(players[1..]);
      assert ResetCompleted(players)[1..] == ResetCompleted(players[1..]);
    }
  }

  // ------------------------------------------------------- active players

  /** getActivePlayersNum. */
  function ActiveCount(players: seq<Player>): nat {
    if |players| == 0 then 0
    else (if players[0].isActive then 1 else 0) + ActiveCount(players[1..])
  }

  /** Index of the first active player, -1 when there is none. */
  function FirstActive(players: seq<Player>): (r: int)
    ensures -1 <= r < |players|
    ensures r == -1 <==> ActiveCount(players) == 0
    ensures r >= 0 ==> players[r].isActive && forall j :: 0 <= j < r ==> !players[j].isActive
  {
    if |players| == 0 then -1
    else if players[0].isActive then 0
    else
      var r := FirstActive(players[1..]);
      if r == -1 then -1 else r + 1
  }

  /** With every seat but `i` inactive, at most one player is active. */
  lemma {:induction false} OnlyOneActive(players: seq<Player>, i: int)
    requires forall j :: 0 <= j < |players| && j != i ==> !players[j].isActive
    ensures ActiveCount(players) <= 1
    ensures !(0 <= i < |players|) ==> ActiveCount(players) == 0
  {
    if |players| > 0 {
      OnlyOneActive(players[1..], i - 1);
    }
  }

  /** An active player exists when the count is positive. */
  lemma {:induction false} ActiveWitness(players: seq<Player>)
    requires ActiveCount(players) > 0
    ensures exists j :: 0 <= j < |players| && players[j].isActive
  {
    if !players[0].isActive {
      ActiveWitness(players[1..]);
      var j :| 0 <= j < |players[1..]| && players[1..][j].isActive;
      assert players[j + 1].isActive;
    }
  }

  /** When every seat is active, every seat counts. */
  lemma {:induction false} AllActiveCount(players: seq<Player>)
    requires forall j :: 0 <= j < |players| ==> players[j].isActive
    ensures ActiveCount(players) == |players|
  {
    if |players| > 0 {
      AllActiveCount(players[1..]);
    }
  }

  // -------------------------------------------------------- seat rotation

  /** The seat `k` places after `start`, going round the table of `n` seats. */
  function At(start: nat, k: nat, n: nat): nat
    requires start < n && k < n
  {
    if start + k < n then start + k else start + k - n
  }

  /** How many places after `start` seat `r` is, going round the table. */
  function Ahead(start: nat, r: nat, n: nat): nat
    requires start < n && r < n
  {
    if r >= start then r - start else r + n - start
  }

  /**
   * The first active seat at `start` or after it, going round; `k` seats
   * from `start` on are already known to be inactive.
   */
  function NextActive(players: seq<Player>, start: nat, k: nat): (r: nat)
    requires start < |players| && k < |players|
    requires ActiveCount(players) > 0
    requires forall j :: 0 <= j < k ==> !players[At(start, j, |players|)].isActive
    ensures r < |players| && players[r].isActive
    ensures Ahead(start, r, |players|) >= k
    ensures forall j :: 0 <= j < Ahead(start, r, |players|) ==> !players[At(start, j, |players|)].isActive
    decreases |players| - k
  {
    var n := |players|;
    var i := At(start, k, n);
    if players[i].isActive then
      assert Ahead(start, i, n) == k;
      i
    else
      assert forall j :: 0 <= j <= k ==> !players[At(start, j, n)].isActive;
      NoFullCircle(players, start, k);
      NextActive(players, start, k + 1)
  }

  /** A full circle of inactive seats would mean nobody is active. */
  lemma NoFullCircle(players: seq<Player>, start: nat, k: nat)
    requires start < |players| && k < |players|
    requires ActiveCount(players) > 0
    requires forall j :: 0 <= j <= k ==> !players[At(start, j, |players|)].isActive
    ensures k + 1 < |players|
  {
    var n := |players|;
    if k + 1 == n {
      forall j | 0 <= j < n
        ensures !players[j].isActive
      {
        assert At(start, Ahead(start, j, n), n) == j;
      }
      OnlyOneActive(players, -1);
    }
  }

  /**
   * adjustPlayerIndex: -1 while fewer than two players are active; otherwise
   * the first active seat at or after `index mod len(players)`, going round.
   * Go's recursion on index + 1 is the same walk round the table.  A negative
   * index with two or more active players would make Go index the slice at a
   * negative position, so callers never pass one.
   */
  function AdjustPlayerIndex(players: seq<Player>, index: int): (r: int)
    requires ActiveCount(players) >= 2 ==> index >= 0
    ensures ActiveCount(players) < 2 ==> r == -1
    ensures ActiveCount(players) >= 2 ==> 0 <= r < |players| && players[r].isActive
    ensures ActiveCount(players) >= 2 ==>
      forall j :: 0 <= j < Ahead(index % |players|, r, |players|) ==>
        !players[At(index % |players|, j, |players|)].isActive
  {
    if ActiveCount(players) < 2 then -1
    else NextActive(players, index % |players|, 0)
  }

  lemma ModSmall(i: int, n: int)
    requires 0 <= i < n
    ensures i % n == i
  {
  }

  /** An active seat adjusts to itself. */
  lemma AdjustActive(players: seq<Player>, i: int)
    requires ActiveCount(players) >= 2
    requires 0 <= i < |players| && players[i].isActive
    ensures AdjustPlayerIndex(players, i) == i
  {
    var n := |players|;
    ModSmall(i, n);
    var r := AdjustPlayerIndex(players, i);
    assert 0 <= r < n;
    assert At(i, 0, n) == i;
  }

  /** Counting places from `start` and walking that many places lands back on the seat. */
  lemma AtAhead(start: nat, j: nat, n: nat)
    requires start < n && j < n
    ensures At(start, Ahead(start, j, n), n) == j
  {
  }

  /** The seat after seat `i`, going round the table. */
  lemma NextSeat(i: nat, n: nat)
    requires i < n
    ensures i + 1 < n ==> (i + 1) % n == i + 1
    ensures i + 1 == n ==> (i + 1) % n == 0
  {
    if i + 1 < n {
      ModSmall(i + 1, n);
    }
  }

  /** Starting one seat after an active seat never lands back on it when two are active. */
  lemma AdjustNextDiffers(players: seq<Player>, i: int)
    requires ActiveCount(players) >= 2
    requires 0 <= i < |players| && players[i].isActive
    ensures AdjustPlayerIndex(players, i + 1) != i
  {
    var n := |players|;
    NextSeat(i, n);
    var start := (i + 1) % n;
    var r := AdjustPlayerIndex(players, i + 1);
    if r == i {
      var last := Ahead(start, i, n);
      assert last == n - 1;
      forall j | 0 <= j < n && j != i
        ensures !players[j].isActive
      {
        AtAhead(start, j, n);
        AtAhead(start, i, n);
        assert Ahead(start, j, n) < last;
      }
      OnlyOneActive(players, i);
    }
  }

  /** The seat indices a round ends with may be rotated from. */
  predicate RotationIndicesOk(g: Game, wasPickUp: bool) {
    ActiveCount(g.players) >= 2 ==>
      if wasPickUp && ActiveCount(g.players) == 2 then g.attackerIndex >= 0 && g.defenderIndex >= 0
      else if wasPickUp then g.attackerIndex >= -2 && g.defenderIndex >= -2
      else g.attackerIndex >= -1 && g.defenderIndex >= -1
  }

  /**
   * findNewAttacker: both roles move one seat on (two on after a pick-up,
   * none after a pick-up between two players), are adjusted to active seats,
   * and the attacker moves on once more when it meets the defender.
   */
  function FindNewAttacker(g: Game, wasPickUp: bool): (r: (int, int))
    requires RotationIndicesOk(g, wasPickUp)
    ensures ActiveCount(g.players) < 2 ==> r == (-1, -1)
    ensures ActiveCount(g.players) >= 2 ==>
      Seated(g, r.0) && Seated(g, r.1) && r.0 != r.1 &&
      g.players[r.0].isActive && g.players[r.1].isActive
    ensures (wasPickUp && ActiveCount(g.players) == 2 &&
             AdjustPlayerIndex(g.players, g.attackerIndex) != AdjustPlayerIndex(g.players, g.defenderIndex)) ==>
              r == (AdjustPlayerIndex(g.players, g.attackerIndex), AdjustPlayerIndex(g.players, g.defenderIndex))
  {
    var shift := if !wasPickUp then 1 else if ActiveCount(g.players) == 2 then 0 else 2;
    var a := AdjustPlayerIndex(g.players, g.attackerIndex + shift);
    var d := AdjustPlayerIndex(g.players, g.defenderIndex + shift);
    if a == d then
      var a' := AdjustPlayerIndex(g.players, a + 1);
      if ActiveCount(g.players) < 2 then (a', d)
      else
        AdjustNextDiffers(g.players, a);
        (a', d)
    else (a, d)
  }

  // ---------------------------------------------------------- table lookups

  /** hasBattlegroundCard. */
  predicate OnBattleground(g: Game, c: Card) {
    c in g.battleground
  }

  /** getBattlegroundCardIndex: first position of an equal attacking card, -1 if none. */
  function BattlegroundIndex(bg: seq<Card>, c: Card): (r: int)
    ensures -1 <= r < |bg|
    ensures r == -1 <==> c !in bg
    ensures r >= 0 ==> bg[r] == c && forall j :: 0 <= j < r ==> bg[j] != c
  {
    if |bg| == 0 then -1
    else if bg[0] == c then 0
    else
      var r := BattlegroundIndex(bg[1..], c);
      if r == -1 then -1 else r + 1
  }

  /** hasBattlegroundSameValue or hasDefendingCardsSameValue. */
  predicate TableHasValue(g: Game, value: string) {
    (exists i :: 0 <= i < |g.battleground| && g.battleground[i].value == value) ||
    (exists k :: k in g.defendingCards && g.defendingCards[k].value == value)
  }

  /** The defending cards in the order of the attacking cards they beat. */
  function DefendingList(m: map<int, Card>, lo: int, hi: int): (r: seq<Card>)
    requires lo <= hi
    ensures forall c :: c in r ==> exists k :: lo <= k < hi && k in m && m[k] == c
    decreases hi - lo
  {
    if lo == hi then []
    else (if lo in m then [m[lo]] else []) + DefendingList(m, lo + 1, hi)
  }

  /** The keys of `m` in [lo, hi). */
  function KeysIn(m: map<int, Card>, lo: int, hi: int): set<int> {
    set k | k in m && lo <= k < hi
  }

  lemma {:induction false} DefendingListSize(m: map<int, Card>, lo: int, hi: int)
    requires lo <= hi
    ensures |DefendingList(m, lo, hi)| == |KeysIn(m, lo, hi)|
    decreases hi - lo
  {
    if lo < hi {
      DefendingListSize(m, lo + 1, hi);
      if lo in m {
        assert KeysIn(m, lo, hi) == {lo} + KeysIn(m, lo + 1, hi);
      } else {
        assert KeysIn(m, lo, hi) == KeysIn(m, lo + 1, hi);
      }
    }
  }

  /** Every defending card sits under an attacking card of the battleground. */
  predicate DefendKeysInRange(g: Game) {
    forall k :: k in g.defendingCards ==> 0 <= k < |g.battleground|
  }

  /**
   * What the server relies on between moves: every defending card lies under
   * an attacking card, and while the game is playing the attacker and the
   * defender are seats of the table.
   */
  predicate Wellformed(g: Game) {
    DefendKeysInRange(g) &&
    (g.status == Playing ==> Seated(g, g.attackerIndex) && Seated(g, g.defenderIndex))
  }

  /** With every key under a battleground card, the list holds every defending card once. */
  lemma DefendingListCount(g: Game)
    requires DefendKeysInRange(g)
    ensures |DefendingList(g.defendingCards, 0, |g.battleground|)| == |g.defendingCards|
  {
    DefendingListSize(g.defendingCards, 0, |g.battleground|);
    assert KeysIn(g.defendingCards, 0, |g.battleground|) == g.defendingCards.Keys;
  }
}
