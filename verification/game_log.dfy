/**
 * The game log (game_file_logger.go): a text buffer per game id, filled with
 * one entry per game event, each entry followed by a snapshot of the table,
 * and written to a file when the game ends.  The directory, the clock and
 * the outcome of the file system calls are parameters.
 */
module GameLog {
  import opened Wrappers
  import opened Cards
  import opened Strings
  import opened GameState

  // ------------------------------------------------------------- cards as text

  /** cardsToString: the card texts back to back, without separators. */
  function CardsToString(cards: seq<Card>): (r: string)
    ensures |cards| == 0 ==> r == ""
    ensures |cards| > 0 ==> HasPrefix(r, CardText(cards[0]))
  {
    if |cards| == 0 then "" else CardText(cards[0]) + CardsToString(cards[1..])
  }

  /** Printing a concatenation of stacks prints one after the other. */
  lemma {:induction false} CardsToStringAppend(a: seq<Card>, b: seq<Card>)
    ensures CardsToString(a + b) == CardsToString(a) + CardsToString(b)
  {
    if |a| > 0 {
      assert (a + b)[1..] == a[1..] + b;
      CardsToStringAppend(a[1..], b);
    } else {
      assert a + b == b;
    }
  }

  predicate IsSuitChar(ch: char) {
    ch == '♣' || ch == '♦' || ch == '♥' || ch == '♠'
  }

  /** A card of the 36-card deck. */
  predicate KnownCard(c: Card) {
    c.value in CardValues && c.suit in CardSuits
  }

  /** Values are written without suit signs, and each suit is one suit sign. */
  lemma KnownCardShape(c: Card)
    requires KnownCard(c)
    ensures forall i :: 0 <= i < |c.value| ==> !IsSuitChar(c.value[i])
    ensures |c.suit| == 1 && IsSuitChar(c.suit[0])
    ensures forall i :: 0 <= i < |CardText(c)| ==> CardText(c)[i] != ' ' && CardText(c)[i] != '\n'
  {
  }

  /** The position of the first suit sign, or -1. */
  function FirstSuitIndex(s: string): (r: int)
    ensures -1 <= r < |s|
    ensures r >= 0 ==> IsSuitChar(s[r])
    ensures forall j :: 0 <= j < |s| && (r == -1 || j < r) ==> !IsSuitChar(s[j])
  {
    if |s| == 0 then -1
    else if IsSuitChar(s[0]) then 0
    else
      var r := FirstSuitIndex(s[1..]);
      if r == -1 then -1 else r + 1
  }

  /**
   * Reading a cards text back: each card is the text up to and including the
   * next suit sign; None when text is left without a suit sign.
   */
  function ParseCards(s: string): (r: Option<seq<Card>>)
    decreases |s|
  {
    if |s| == 0 then Some([])
    else
      var k := FirstSuitIndex(s);
      if k < 0 then None
      else match ParseCards(s[k + 1..])
        case None => None
        case Some(rest) => Some([Card(s[..k], [s[k]])] + rest)
  }

  /** The text of deck cards reads back as the same cards. */
  lemma {:induction false} ParseCardsRoundTrip(cards: seq<Card>)
    requires forall c :: c in cards ==> KnownCard(c)
    ensures ParseCards(CardsToString(cards)) == Some(cards)
  {
    if |cards| > 0 {
      var c := cards[0];
      var s := CardsToString(cards);
      var t := CardsToString(cards[1..]);
      KnownCardShape(c);
      assert s == c.value + c.suit + t;
      assert s[|c.value|] == c.suit[0];
      var k := FirstSuitIndex(s);
      assert forall j :: 0 <= j < |c.value| ==> s[j] == c.value[j];
      assert k == |c.value|;
      assert s[..k] == c.value && [s[k]] == c.suit;
      assert s[k + 1..] == t;
      ParseCardsRoundTrip(cards[1..]);
      assert [c] + cards[1..] == cards;
    }
  }

  // ------------------------------------------------------------- snapshots

  /** The kind a player is logged as: a name with prefix "bot-" is a bot. */
  function PlayerKind(name: string): (r: string)
    ensures r == "bot" <==> HasPrefix(name, "bot-")
    ensures r == "human" <==> !HasPrefix(name, "bot-")
  {
    if HasPrefix(name, "bot-") then "bot" else "human"
  }

  /** One player's part of the players line. */
  function PlayerEntry(index: nat, p: Player): (r: string)
    ensures HasPrefix(r, "P=" + NatToString(index) + "(" + PlayerKind(p.name) + "):")
    ensures |r| > 0 && r[|r| - 1] == ';'
  {
    var head := "P=" + NatToString(index) + "(" + PlayerKind(p.name) + "):";
    var r := head + CardsToString(p.cards) + ";";
    assert r[..|head|] == head;
    r
  }

  /** The entries of the players line, one per seat, in seat order. */
  function PlayerEntries(players: seq<Player>): (r: seq<string>)
    ensures |r| == |players|
    ensures forall i :: 0 <= i < |players| ==> r[i] == PlayerEntry(i, players[i])
  {
    seq(|players|, i requires 0 <= i < |players| => PlayerEntry(i, players[i]))
  }

  /** getPlayersCards: the player entries separated by single spaces. */
  function PlayersCards(players: seq<Player>): (r: string)
    ensures |players| == 0 ==> r == ""
    ensures |players| == 1 ==> r == PlayerEntry(0, players[0])
  {
    Join(PlayerEntries(players), " ")
  }

  /** No character of `s` is a space or a line break. */
  predicate Plain(s: string) {
    NoChar(s, ' ') && NoChar(s, '\n')
  }

  lemma PlainAppend(a: string, b: string)
    requires Plain(a) && Plain(b)
    ensures Plain(a + b)
  {
    assert forall i :: 0 <= i < |a + b| ==> (a + b)[i] == if i < |a| then a[i] else b[i - |a|];
  }

  lemma {:induction false} PlainCards(cards: seq<Card>)
    requires forall c :: c in cards ==> KnownCard(c)
    ensures Plain(CardsToString(cards))
  {
    if |cards| > 0 {
      KnownCardShape(cards[0]);
      PlainCards(cards[1..]);
      PlainAppend(CardText(cards[0]), CardsToString(cards[1..]));
    }
  }

  lemma PlainNat(n: nat)
    ensures Plain(NatToString(n))
  {
    var s := NatToString(n);
    assert forall i :: 0 <= i < |s| ==> IsDigit(s[i]);
  }

  predicate HandsKnown(players: seq<Player>) {
    forall p, c :: p in players && c in p.cards ==> KnownCard(c)
  }

  lemma PlayerEntryPlain(i: nat, p: Player)
    requires forall c :: c in p.cards ==> KnownCard(c)
    ensures Plain(PlayerEntry(i, p))
  {
    var kind := PlayerKind(p.name);
    var digits := NatToString(i);
    var cards := CardsToString(p.cards);
    PlainNat(i);
    PlainCards(p.cards);
    assert Plain("P=") && Plain("(") && Plain(kind) && Plain("):") && Plain(";");
    PlainAppend("P=", digits);
    PlainAppend("P=" + digits, "(");
    PlainAppend("P=" + digits + "(", kind);
    PlainAppend("P=" + digits + "(" + kind, "):");
    PlainAppend("P=" + digits + "(" + kind + "):", cards);
    PlainAppend("P=" + digits + "(" + kind + "):" + cards, ";");
  }

  /** Splitting the players line at spaces gives one entry per player, in seat order. */
  lemma {:induction false} PlayersCardsSplit(players: seq<Player>)
    requires |players| > 0 && HandsKnown(players)
    ensures Split(PlayersCards(players), ' ') == PlayerEntries(players)
  {
    var entries := PlayerEntries(players);
    EntriesPlain(players);
    SplitJoin(entries, ' ');
    assert PlayersCards(players) == Join(entries, [' ']);
  }

  lemma EntriesPlain(players: seq<Player>)
    requires HandsKnown(players)
    ensures forall i :: 0 <= i < |players| ==> NoChar(PlayerEntries(players)[i], ' ')
  {
    forall i | 0 <= i < |players|
      ensures NoChar(PlayerEntries(players)[i], ' ')
    {
      assert players[i] in players;
      PlayerEntryPlain(i, players[i]);
    }
  }

  /** The table line of a snapshot. */
  function TableLine(g: Game): string
    requires g.trumpCard.Some?
  {
    "deck=" + NatToString(|g.deck.cards|) + ":" + CardsToString(g.deck.cards) + ";" +
    "battleground=" + NatToString(|g.battleground|) + ":" + CardsToString(g.battleground) + ";" +
    "attacker=" + IntToString(g.attackerIndex) + ";" +
    "defender=" + IntToString(g.defenderIndex) + ";" +
    "trump=" + CardText(g.trumpCard.value) + ";"
  }

  /** The players line of a snapshot. */
  function PlayersLine(g: Game): string {
    "players=" + NatToString(|g.players|) + " " + PlayersCards(g.players)
  }

  /**
   * getCurrentStateAsLines: a header line, the players line and the table
   * line.  The source reads the trump card unconditionally, so a snapshot
   * needs one.
   */
  function StateLines(g: Game): (r: string)
    requires g.trumpCard.Some?
  {
    "State:\n" + PlayersLine(g) + "\n" + TableLine(g) + "\n"
  }

  lemma JoinFour(a: string, b: string, c: string, d: string, sep: string)
    ensures Join([a, b, c, d], sep) == a + sep + b + sep + c + sep + d
  {
    assert [a, b, c, d][1..] == [b, c, d];
    assert [b, c, d][1..] == [c, d];
    assert [c, d][1..] == [d];
    assert Join([c, d], sep) == c + sep + d;
    assert Join([b, c, d], sep) == b + sep + (c + sep + d);
    assert Join([a, b, c, d], sep) == a + sep + (b + sep + (c + sep + d));
  }

  /** A snapshot is its three lines, each ended by a line break. */
  lemma StateLinesAreLines(g: Game)
    requires g.trumpCard.Some?
    ensures StateLines(g) == Join(["State:", PlayersLine(g), TableLine(g), ""], "\n")
  {
    var p := PlayersLine(g);
    var t := TableLine(g);
    JoinFour("State:", p, t, "", "\n");
    assert "State:\n" == "State:" + "\n";
  }

  /** Every card a snapshot prints is a card of the deck's values and suits. */
  predicate SnapshotKnown(g: Game) {
    g.trumpCard.Some? && KnownCard(g.trumpCard.value) && HandsKnown(g.players) &&
    (forall c :: c in g.deck.cards ==> KnownCard(c)) &&
    (forall c :: c in g.battleground ==> KnownCard(c))
  }

  /** The players line holds no line break when every hand holds known cards. */
  lemma PlayersLineUnbroken(g: Game)
    requires HandsKnown(g.players)
    ensures NoChar(PlayersLine(g), '\n')
  {
    var entries := PlayerEntries(g.players);
    forall i | 0 <= i < |entries|
      ensures NoChar(entries[i], '\n')
    {
      assert g.players[i] in g.players;
      PlayerEntryPlain(i, g.players[i]);
    }
    JoinNoChar(entries, " ", '\n');
    PlainNat(|g.players|);
    NoCharNotIn(NatToString(|g.players|), '\n');
    NoCharNotIn(PlayersCards(g.players), '\n');
    NoCharNotIn(PlayersLine(g), '\n');
  }

  /** The table line holds no line break when the deck, the table and the trump are known cards. */
  lemma TablePiecesUnbroken(g: Game)
    requires SnapshotKnown(g)
    ensures '\n' !in NatToString(|g.deck.cards|) && '\n' !in CardsToString(g.deck.cards)
    ensures '\n' !in NatToString(|g.battleground|) && '\n' !in CardsToString(g.battleground)
    ensures '\n' !in IntToString(g.attackerIndex) && '\n' !in IntToString(g.defenderIndex)
    ensures '\n' !in CardText(g.trumpCard.value)
  {
    PlainNat(|g.deck.cards|);
    PlainCards(g.deck.cards);
    PlainNat(|g.battleground|);
    PlainCards(g.battleground);
    KnownCardShape(g.trumpCard.value);
    NoCharNotIn(NatToString(|g.deck.cards|), '\n');
    NoCharNotIn(CardsToString(g.deck.cards), '\n');
    NoCharNotIn(NatToString(|g.battleground|), '\n');
    NoCharNotIn(CardsToString(g.battleground), '\n');
    NoCharNotIn(IntToString(g.attackerIndex), '\n');
    NoCharNotIn(IntToString(g.defenderIndex), '\n');
    NoCharNotIn(CardText(g.trumpCard.value), '\n');
  }

  lemma TableLineUnbroken(g: Game)
    requires SnapshotKnown(g)
    ensures NoChar(TableLine(g), '\n')
  {
    var deck, table := CardsToString(g.deck.cards), CardsToString(g.battleground);
    var deckSize, tableSize := NatToString(|g.deck.cards|), NatToString(|g.battleground|);
    var attacker, defender := IntToString(g.attackerIndex), IntToString(g.defenderIndex);
    var trump := CardText(g.trumpCard.value);
    TablePiecesUnbroken(g);
    var line := "deck=" + deckSize + ":" + deck + ";";
    assert '\n' !in line;
    line := line + "battleground=" + tableSize + ":" + table + ";";
    assert '\n' !in line;
    line := line + "attacker=" + attacker + ";";
    assert '\n' !in line;
    line := line + "defender=" + defender + ";";
    assert '\n' !in line;
    line := line + "trump=" + trump + ";";
    assert '\n' !in line;
    assert line == TableLine(g);
    NoCharNotIn(line, '\n');
  }

  /** When every printed card is known, a snapshot splits into exactly its three lines. */
  lemma StateLinesSplit(g: Game)
    requires SnapshotKnown(g)
    ensures Split(StateLines(g), '\n') == ["State:", PlayersLine(g), TableLine(g), ""]
  {
    StateLinesAreLines(g);
    PlayersLineUnbroken(g);
    TableLineUnbroken(g);
    LinesSplit(PlayersLine(g), TableLine(g));
  }

  /** The header, two line-free lines and the empty tail, joined by line breaks, split back into themselves. */
  lemma LinesSplit(p: string, t: string)
    requires NoChar(p, '\n') && NoChar(t, '\n')
    ensures Split(Join(["State:", p, t, ""], "\n"), '\n') == ["State:", p, t, ""]
  {
    var parts := ["State:", p, t, ""];
    assert NoChar("State:", '\n');
    assert forall i :: 0 <= i < |parts| ==> NoChar(parts[i], '\n');
    assert "\n" == ['\n'];
    SplitJoin(parts, '\n');
  }

  // ------------------------------------------------------------- entries

  /** The game events the log records. */
  datatype LogEntry =
    | GameBegins
    | AttackEntry(card: Card)
    | DefendEntry(attackingCard: Card, defendingCard: Card)
    | PickUpEntry
    | CompleteEntry
    | GameEnds(hasLoser: bool, loserIndex: int)

  function BoolText(b: bool): string {
    if b then "true" else "false"
  }

  /** The first line of each entry as the source writes it: the defend line lacks the "ENTRY " marker. */
  function HeadAsWritten(gameId: string, e: LogEntry): (r: string)
    ensures !e.DefendEntry? ==> HasPrefix(r, "ENTRY ")
  {
    match e
    case DefendEntry(a, d) =>
      "Defend. attackingCard=" + CardText(a) + "; defendingCard=" + CardText(d) + "\n"
    case _ => Head(gameId, e)
  }

  /** The first line of each entry, every one marked with "ENTRY ". */
  function Head(gameId: string, e: LogEntry): (r: string)
    ensures HasPrefix(r, "ENTRY ")
    ensures r[|r| - 1] == '\n'
  {
    var body := match e
      case GameBegins => "Game begins. ID=" + gameId
      case AttackEntry(c) => "Attack. card=" + CardText(c) + ";"
      case DefendEntry(a, d) => "Defend. attackingCard=" + CardText(a) + "; defendingCard=" + CardText(d)
      case PickUpEntry => "PickUp."
      case CompleteEntry => "Complete."
      case GameEnds(hasLoser, loserIndex) =>
        "Game ends. hasLoser=" + BoolText(hasLoser) + ";loserIndex=" + IntToString(loserIndex);
    var r := "ENTRY " + body + "\n";
    assert r[..6] == "ENTRY ";
    r
  }

  /** The marker is missing from exactly the defend entries. */
  lemma DefendHeadUnmarked(gameId: string, a: Card, d: Card)
    ensures !HasPrefix(HeadAsWritten(gameId, DefendEntry(a, d)), "ENTRY ")
    ensures HeadAsWritten(gameId, DefendEntry(a, d)) != Head(gameId, DefendEntry(a, d))
  {
    var w := HeadAsWritten(gameId, DefendEntry(a, d));
    assert w[0] == 'D';
    assert Head(gameId, DefendEntry(a, d))[0] == 'E';
  }

  // ------------------------------------------------------------- buffers

  datatype Logger = Logger(buffers: map<string, string>)

  /** One logged entry: its first line, then a snapshot of the game after the event. */
  function EntryText(g: Game, e: LogEntry): (r: string)
    requires g.trumpCard.Some?
    ensures HasPrefix(r, Head(g.id, e))
  {
    Head(g.id, e) + StateLines(g)
  }

  /** A game's buffer, "" when it has none (Go's zero value for a missing key). */
  function Buffer(l: Logger, gameId: string): string {
    if gameId in l.buffers then l.buffers[gameId] else ""
  }

  /**
   * LogGameBegins and the LogPlayerAction methods: the game's buffer gains
   * the entry and a snapshot; a beginning game starts its buffer afresh.
   */
  function Record(l: Logger, g: Game, e: LogEntry): (r: Logger)
    requires g.trumpCard.Some?
    ensures g.id in r.buffers
    ensures e.GameBegins? ==> r.buffers[g.id] == EntryText(g, e)
    ensures !e.GameBegins? ==> r.buffers[g.id] == Buffer(l, g.id) + EntryText(g, e)
    ensures forall id :: id != g.id ==> Buffer(r, id) == Buffer(l, id)
  {
    if e.GameBegins? then Logger(l.buffers[g.id := EntryText(g, e)])
    else Logger(l.buffers[g.id := Buffer(l, g.id) + EntryText(g, e)])
  }

  /** A game's log since it began: its entries, each followed by its snapshot. */
  function Entries(events: seq<(Game, LogEntry)>): string
    requires forall k :: 0 <= k < |events| ==> events[k].0.trumpCard.Some?
  {
    if |events| == 0 then ""
    else
      var (g, e) := events[|events| - 1];
      Entries(events[..|events| - 1]) + EntryText(g, e)
  }

  function RecordAll(l: Logger, events: seq<(Game, LogEntry)>): Logger
    requires forall k :: 0 <= k < |events| ==> events[k].0.trumpCard.Some?
  {
    if |events| == 0 then l else Record(RecordAll(l, events[..|events| - 1]), events[|events| - 1].0, events[|events| - 1].1)
  }

  /** After the game begins, its buffer is the beginning entry followed by the entries logged since, in order. */
  lemma {:induction false} BufferIsEntries(l: Logger, g: Game, events: seq<(Game, LogEntry)>)
    requires g.trumpCard.Some?
    requires forall k :: 0 <= k < |events| ==>
      events[k].0.trumpCard.Some? && events[k].0.id == g.id && !events[k].1.GameBegins?
    ensures Buffer(RecordAll(Record(l, g, GameBegins), events), g.id) == EntryText(g, GameBegins) + Entries(events)
  {
    var start := Record(l, g, GameBegins);
    if |events| == 0 {
      AppendEmpty(EntryText(g, GameBegins));
    } else {
      var init := events[..|events| - 1];
      var (h, e) := events[|events| - 1];
      BufferIsEntries(l, g, init);
      var before := RecordAll(start, init);
      assert RecordAll(start, events) == Record(before, h, e);
      AppendAssoc(EntryText(g, GameBegins), Entries(init), EntryText(h, e));
    }
  }

  // ------------------------------------------------------------- writing

  /** What the file system did when the log was written. */
  datatype WriteOutcome = DirectoryFailed | CreateFailed | WriteFailed | WriteSucceeded

  datatype LogFile = LogFile(path: string, content: string)

  datatype Flushed = Flushed(logger: Logger, file: Option<LogFile>, failed: bool)

  /** Go's %02d for a month number. */
  function TwoDigits(n: nat): (r: string)
    ensures n < 10 ==> r == "0" + NatToString(n)
    ensures n >= 10 ==> r == NatToString(n)
    ensures |r| >= 2
  {
    if n < 10 then "0" + NatToString(n) else NatToString(n)
  }

  /** The log file of a game: under a directory per year and month, named after the game id. */
  function LogPath(dir: string, year: nat, month: nat, gameId: string): string {
    dir + "/" + NatToString(year) + TwoDigits(month) + "/" + gameId + ".log"
  }

  /**
   * The log file lies in the folder named after the year and the two-digit
   * month under `dir`, carries the game id as its name and ".log" as its
   * extension.
   */
  lemma LogPathParts(dir: string, year: nat, month: nat, gameId: string)
    ensures var folder := dir + "/" + NatToString(year) + TwoDigits(month);
      var p := LogPath(dir, year, month, gameId);
      |p| == |folder| + |gameId| + 5 && p[..|folder|] == folder && p[|folder|] == '/' &&
      p[|folder| + 1..|p| - 4] == gameId && p[|p| - 4..] == ".log"
  {
    var folder := dir + "/" + NatToString(year) + TwoDigits(month);
    var named := folder + "/" + gameId;
    var p := named + ".log";
    assert p == LogPath(dir, year, month, gameId);
    assert p[..|named|] == named && p[|named|..] == ".log";
    assert named[..|folder|] == folder && named[|folder|] == '/' && named[|folder| + 1..] == gameId;
  }

  /**
   * write: the game's buffer goes to its file.  Failing to make the
   * directory or create the file keeps the buffer; once the file exists the
   * buffer is dropped whether or not writing succeeds.
   */
  function Write(l: Logger, dir: string, year: nat, month: nat, gameId: string, io: WriteOutcome): (r: Flushed)
    ensures r.failed <==> !io.WriteSucceeded?
    ensures io.DirectoryFailed? || io.CreateFailed? ==> r.logger == l && r.file == None
    ensures io.WriteFailed? || io.WriteSucceeded? ==> r.logger.buffers == l.buffers - {gameId}
    ensures r.file.Some? <==> io.WriteSucceeded?
    ensures r.file.Some? ==> r.file.value == LogFile(LogPath(dir, year, month, gameId), Buffer(l, gameId))
  {
    match io
    case DirectoryFailed => Flushed(l, None, true)
    case CreateFailed => Flushed(l, None, true)
    case WriteFailed => Flushed(Logger(l.buffers - {gameId}), None, true)
    case WriteSucceeded =>
      Flushed(Logger(l.buffers - {gameId}), Some(LogFile(LogPath(dir, year, month, gameId), Buffer(l, gameId))), false)
  }

  /** LogGameEnds: the ending entry is recorded, then the whole log is written. */
  function LogGameEnds(l: Logger, g: Game, hasLoser: bool, loserIndex: int,
                       dir: string, year: nat, month: nat, io: WriteOutcome): (r: Flushed)
    requires g.trumpCard.Some?
    ensures r.failed <==> !io.WriteSucceeded?
    ensures io.WriteSucceeded? ==> r.file == Some(LogFile(LogPath(dir, year, month, g.id),
      Buffer(l, g.id) + EntryText(g, GameEnds(hasLoser, loserIndex))))
    ensures io.WriteSucceeded? || io.WriteFailed? ==> g.id !in r.logger.buffers
    ensures forall id :: id != g.id ==> Buffer(r.logger, id) == Buffer(l, id)
  {
    Write(Record(l, g, GameEnds(hasLoser, loserIndex)), dir, year, month, g.id, io)
  }
}
