# Durak server and browser client, modelled in Dafny

This project models the core of the Durak card-game server (Go) and of its
browser client (JavaScript). Durak is played with the 36-card deck. One player
attacks, the defender beats each attacking card or picks the whole table up,
and the player left holding cards loses.

The server side covers the following:

- cards and their rank comparisons;
- the deck (talon) and the pile;
- the game: dealing, choosing the first attacker from the lowest trump, attack, defence, pick-up, completion, the end of a round and the end of the game;
- rooms and their owners;
- the lobby: client registration, nicknames, creating, joining and leaving rooms, and forwarding game commands;
- the game file logger.

The client side covers the page's state and every event handler that changes
it. That includes the commands it sends and how the server decodes them, the
`roomId` kept in the location hash, and the lists of clients, rooms and room
members.

Layout, one module per component:

| file | module | component |
|---|---|---|
| wrappers.dfy | Wrappers | `Option` / `Result` |
| strings.dfy | Strings | join, split, decimal text of numbers |
| cards.dfy | Cards | `Card`, rank index, `gt`/`gte`/`lt`/`lte` |
| card_stack.dfy | CardStack | the sequence logic shared by the deck and the pile |
| deck.dfy, pile.dfy | Decks, Piles | the talon and the pile |
| game_state.dfy | GameState | `Game`, `Player`, active-player arithmetic |
| game_rules.dfy | GameRules | the `canPlayer…` checks, the state info sent to players |
| game_deal.dfy | GameDeal | dealing, first attacker |
| game_start.dfy | GameStart | `prepare` and `begin` |
| game_turns.dfy | GameTurns | attack, defend, pick-up, complete, end of round and game |
| room.dfy | Rooms | rooms |
| lobby.dfy | Lobbies | the lobby and its command dispatch |
| game_log.dfy | GameLog | the game file logger |
| json.dfy | JsValues | JavaScript values, property access, `parseInt`, `camelize` |
| client_commands.dfy | ClientCommands | the commands the client sends, decoded as the server reads them |
| client_state.dfy | ClientState | the page's state (the Vue `data`) |
| client_game.dfy | ClientGame | the game handlers of the page |
| client_lobby.dfy | ClientLobby | the lobby and room handlers of the page |
| client_app.dfy | ClientApp | `onMessage` dispatch and end-to-end properties |

How the model represents things:

- The server state is immutable data. Each operation is a function from the old state to the new state, plus the events it emits.
- Shuffling takes the random picks as a parameter.
- The logger takes the clock and the outcome of the file operations as parameters.
- The client's page state is the `View` datatype.
- A JavaScript exception inside a handler is modelled as the state the handler had reached when it threw. For a nullish `data` this is the unchanged state.

The lobby events emitted by the server and the events the client reads do not
agree on field names. `events_lobby.go` tags its fields in snake case
(`your_id`, `owner_id`, `clients_num`), and its room info has `clients`. The
client reads `yourId`, `membersNum` and `room.members`. The client is therefore
modelled on the message shapes it reads, and the lemmas that join client and
server (`ClientApp.AttackReachesGame`, `ClientApp.RejoinAfterReload`) go only
through commands, whose JSON names (`type`, `subType`, `data`, `card`,
`attackingCard`, `defendingCard`, `value`, `suit`) do agree.

## Model

| member | source | states |
|---|---|---|
| Cards.LastIndexOf | card.go:8-16 | The index is the last position of the value in the list, or -1 exactly when the value is absent. |
| Cards.ValueIndex | card.go:8-16 | A card's rank is the position of its value among 6…A, or -1 exactly when the value is not a card value. |
| Cards.ValuesDistinct | card.go:8-16 | The card values are pairwise distinct, so the last index is the only index. |
| Cards.ValueIndexIsPosition | card.go:8-16 | A value at position i of the value list has rank i. |
| Cards.Gt | card.go:18-22 | A card is greater only when its value is a card value different from the other's; a known value is greater than an unknown one. |
| Cards.Gte | card.go:24-28 | Equal values, and any card against an unknown value, are greater or equal; an unknown value is greater or equal only to an unknown value. |
| Cards.Lt | card.go:30-34 | A card is lower only when the other's value is a card value different from its own; an unknown value is lower than a known one. |
| Cards.Lte | card.go:36-40 | Equal values, and an unknown value against any card, are lower or equal; nothing known is lower or equal to an unknown value. |
| Cards.NineHasRankThree | card_test.go:5-12 | A nine has rank 3 whatever its suit. |
| Cards.ComparisonsIgnoreSuit | card.go:18-40 | The four comparisons depend only on the two values, never on the suits. |
| Cards.SameValueIncomparable | card.go:18-40 | Two cards of the same value are neither greater nor lower than each other, and each is ≥ and ≤ the other. |
| Cards.Duality | card.go:18-40 | gt is lt with swapped arguments, gte is the negation of lt, lte is the negation of gt. |
| Cards.Trichotomy | card.go:18-40 | Two cards are lower, of equal rank or greater; never both lower and greater. |
| Cards.UnknownValueIsLowest | card.go:8-40 | A card with an unknown value ranks below every real card. |
| Cards.ComparisonExamples | card_test.go:14-112 | The comparisons of the source's card tests hold. |
| Cards.EqualsIsStructural | card_test.go:114-143 | Card equality holds exactly when value and suit both match. |
| CardStack.FreshCards | deck.go:15-28 | A fresh stack lists every value in every suit, value by value. |
| CardStack.FreshCardsDistinct | deck.go:15-28 | A fresh stack has 36 distinct cards and contains every card of the deck. |
| CardStack.Draw | deck.go:37-46 | Drawing from a non-empty stack takes the last card and keeps the rest in order; an empty stack gives the error and a zero card. |
| CardStack.Shuffle | deck.go:30-35 | Shuffling by the given swaps keeps the size and the multiset of cards. |
| CardStack.SwapKeepsMultiset | deck.go:30-35 | One swap is a permutation. |
| CardStack.Texts | deck.go:48-54 | Each card's text is its value followed by its suit, in stack order. |
| CardStack.AsStringShape | deck.go:48-54 | The text of a stack is its card texts separated by single spaces. |
| CardStack.AsStringSplits | deck.go:48-54 | Splitting a stack's text at spaces gives back the card texts. |
| CardStack.FreshPrefixText | deck_test.go:52-61 | The first four cards of a fresh stack print as "6♣ 6♦ 6♥ 6♠". |
| Decks.NewDeck | deck.go:15-28 | A new deck holds the 36 cards in fresh order, without duplicates. |
| Decks.GetCard | deck.go:37-46 | getCard returns the top (last) card and the deck without it, or the empty-deck error on an empty deck. |
| Decks.GetCardSize | deck.go:37-46 | getCard fails exactly on the empty deck; on success the deck shrinks by one and the card was in it; on failure the deck is unchanged. |
| Decks.Shuffle | deck.go:30-35 | Shuffling permutes the deck. |
| Decks.AsString | deck.go:48-54 | An empty deck prints as "" and a one-card deck as that card's text. |
| Decks.AsStringOfFreshFour | deck_test.go:52-61 | The four lowest cards of a new deck print as the deck test expects. |
| Decks.AsStringRoundTrip | deck.go:48-54 | The deck's text splits back into its card texts. |
| Piles.NewPile | pile.go:15-28 | A new pile holds the 36 cards in fresh order, without duplicates. |
| Piles.GetCard | pile.go:37-46 | getCard returns the top card and the pile without it, or the empty-pile error. |
| Piles.GetCardSize | pile.go:37-46 | getCard fails exactly on the empty pile; on success the pile shrinks by one; on failure it is unchanged. |
| Piles.Shuffle | pile.go:30-35 | Shuffling permutes the pile. |
| Piles.AsString | pile.go:48-54 | An empty pile prints as "" and a one-card pile as that card's text. |
| Piles.AsStringOfFreshFour | pile_test.go:53-62 | The four lowest cards of a new pile print as the pile test expects. |
| Piles.AsStringRoundTrip | pile.go:48-54 | The pile's text splits back into its card texts. |
| GameState.NewGame | game.go:57-80 | A new game is preparing, has the given players, an empty table and no pick-up. |
| GameState.RemoveCard | game.go:354-378 | Removing a card held removes exactly one copy of it; removing a card not held changes nothing. |
| GameState.SumHandsUpdate | game.go:354-378 | Replacing one player changes the total hand size by the difference of the two hands. |
| GameState.ResetCompleted | game.go:543-547 | Every player's completed flag is cleared and nothing else changes. |
| GameState.ResetCompletedKeepsHands | game.go:543-547 | Clearing the flags keeps the hands and the number of active players. |
| GameState.FirstActive | game.go:719-730 | The first active player, or -1 exactly when no player is active. |
| GameState.ActiveWitness | game.go:719-730 | A positive active count has an active player as witness. |
| GameState.NextActive | game.go:732-744 | The search from a seat stops at the first active seat going round the table. |
| GameState.NoFullCircle | game.go:732-744 | With an active player present, the search never goes round the whole table. |
| GameState.AdjustPlayerIndex | game.go:732-744 | With at least two active players the result is the first active seat at or after the index, taken round the table; otherwise -1. |
| GameState.AdjustActive | game.go:732-744 | An active seat adjusts to itself. |
| GameState.AdjustNextDiffers | game.go:732-744 | With two active players, the seat after an active seat adjusts to a different seat. |
| GameState.FindNewAttacker | game.go:238-259 | With two or more active players, attacker and defender are distinct active seats, and after a pick-up between two players both keep their seats; with fewer, both are -1. |
| GameState.BattlegroundIndex | game.go:746-753 | The first position of the card on the table, or -1 exactly when the card is not on it. |
| GameState.DefendingList | game.go:505-514 | Every listed defending card sits in the defending map under a slot of the table. |
| GameState.DefendingListSize | game.go:505-514 | The list has one card per defended slot. |
| GameState.DefendingListCount | game.go:505-514 | When every defended slot is a table position, every defending card is listed. |
| GameRules.CanAttack | game.go:295-316 | Attacking needs a playing game, an attacker who is not the defender and has not completed, fewer than six table cards, a defender who can still cover the table, and an opening attack only by the attacker. |
| GameRules.CanAttackWithCard | game.go:318-330 | The card must be in the attacker's hand and, once the table is not empty, its value must already be on the table. |
| GameRules.CanDefendWithCard | game.go:332-352 | A trump beats any non-trump. A trump is beaten exactly by a higher trump. Between two non-trumps only the value counts: a strictly higher value beats whatever the suits. Each case is stated in both directions. |
| GameRules.CanPickUp | game.go:415-434 | Only the active defender can pick up, only with cards on the table, and only once. |
| GameRules.CanComplete | game.go:455-478 | Completing needs an active player who has not completed. The defender needs every attack beaten and every attacker done. The opening attacker needs a table, and the table must be covered or picked up. |
| GameRules.BeatenMeansDefendedTable | game.go:415-478 | A player allowed both to complete and to pick up (the client's "beaten" state) is the defender. The table is not empty, every attacking card has a defending card, and every attacker is done. |
| GameRules.AllAttackersCompleted | game.go:700-707 | A table where everyone is done qualifies. An active attacker other than the defender must be done. |
| GameRules.AllPlayersCompleted | game.go:709-717 | Everyone done implies every attacker done. With every attacker done, a pick-up completes the round. Without a pick-up, every active player, the defender included, must be done. |
| GameRules.GetGameStateInfo | game.go:152-179 | The info holds each player's hand size, the completed players, the table, the defending cards, the deck size, the discard-pile size, the trump card, the pick-up flag, the attacker and defender indices, and the asking player's own hand. |
| GameRules.InfoCountsEveryCard | game.go:152-179 | The hand sizes, the deck size, the table, the defending cards and the discard-pile size of the info add up to every card of the game. |
| GameDeal.TopCards | game.go:123-140 | Taking k cards from the top gives k cards. |
| GameDeal.TopCardsSplit | game.go:123-140 | The cards taken and the cards left make up the deck. |
| GameDeal.FillCount | game.go:123-140 | A player never takes more cards than the deck holds. |
| GameDeal.Fill | game.go:123-140 | The hand grows by the cards taken from the top of the deck, and the deck keeps the rest. |
| GameDeal.FillKeepsCards | game.go:123-140 | Filling a hand moves cards without creating or losing any. |
| GameDeal.DealToPlayer | game.go:123-140 | Only the given player's hand and the deck change. An active player's hand gains the top cards the deck loses, and a player left without cards becomes inactive. |
| GameDeal.DealToPlayerBounds | game.go:123-140 | After dealing to a player, the hand reaches six cards or the deck is exhausted. |
| GameDeal.DealToPlayerKeepsCards | game.go:123-140 | Dealing conserves the cards of hands and deck together. |
| GameDeal.DealToPlayerGrows | game.go:123-140 | Dealing only adds cards to hands, only takes from the deck and conserves the total. An active player ends with six cards or an empty deck. |
| GameDeal.DealOthers | game.go:142-150 | Dealing the seats other than the first and the last only grows hands, conserves cards, and leaves those two seats alone. Every active seat it visits ends with six cards or an empty deck. |
| GameDeal.RoundDeal | game.go:142-150 | roundDeal deals to the first index, then to every other seat in seat order except the first and the last, then to the last. Afterwards every active seat holds six cards or the deck is empty. Hands only grow and cards are conserved. |
| GameDeal.DealPass | game.go:93-121 | A pass of the initial deal changes only the hands and the deck, keeps the last card held and conserves cards. |
| GameDeal.DealPassServes | game.go:98-108 | One pass gives one card to each seat of the run of active seats with fewer than six cards, from the current seat on. The top card goes first, then the next one. The pass stops when the deck runs out, and no other seat changes. |
| GameDeal.EvenPass | game.go:98-108 | A pass over active hands that all hold n cards, with a card for each, leaves every hand with n + 1 cards. |
| GameDeal.HandOut | game.go:102-107 | One step of the deal. With cards left, the seat gets the top card and becomes the last receiver. With none, nothing changes. Cards are conserved. |
| GameDeal.Deal | game.go:93-121 | The initial deal changes only hands, deck and trump, conserves cards and names the trump from the last card dealt. On empty active hands with six cards per player in the deck, every player gets exactly six cards and the deck shrinks by six per player. |
| GameDeal.DealRounds | game.go:97-109 | The six passes conserve cards and change only hands and deck. With enough cards, every hand grows by one card per pass. |
| GameDeal.NameTrump | game.go:93-121 | When cards remain in the deck, the trump card is its bottom card `deck.cards[0]`, the last one to be drawn, and no seat owns it. When the deck is empty, the trump card is the last card dealt: the last card of its owner's hand, whose seat is recorded as the owner. Either way the trump suit is that card's suit. |
| GameDeal.Holdings | game.go:202-236 | The holdings list is exactly the cards held by the players from a seat on. |
| GameDeal.HoldingsBlock | game.go:222-226 | The holdings visit the hands as the nested loops do: each seat's hand is one block in hand order, with earlier seats before it and later seats after it. |
| GameDeal.TrumpChoice | game.go:202-236 | Choosing a trump holder makes that seat (adjusted to an active one) the attacker and the next active seat the defender. With two active players these are distinct active seats; with fewer, both are -1. |
| GameDeal.TrumpPass | game.go:202-236 | The scan keeps a trump no higher than every trump held. |
| GameDeal.FallbackChoice | game.go:202-236 | Without a trump, the holder of the chosen card attacks and the next seat defends. |
| GameDeal.FallbackPass | game.go:202-236 | The scan keeps a card no higher than every card held. When some held card is no higher than the start card, the kept choice comes from a held card. |
| GameDeal.FallbackPassLast | game.go:227-231 | Because `lte` also lets an equal card take over, the scan ends on the last holding that took over, and no holding after it is no higher. When nothing took over, no holding was no higher than the start card. |
| GameDeal.LastHeldIsLast | game.go:221-233 | The last holding that nothing after it matches or undercuts is, in seat terms, a card that no later seat matches or undercuts and that no later card of its own hand matches or undercuts. |
| GameDeal.ActivePrefix | game.go:221-233 | The fallback scan stops at the first inactive seat: the prefix is the longest run of active players from seat 0. |
| GameDeal.FindFirstAttacker | game.go:202-236 | The holder of the lowest trump attacks. Without any trump, the holder of the lowest card of the seats before the first inactive one attacks. Among equal lowest cards, the last in seat order and then hand order wins. |
| GameDeal.TrumpCase | game.go:202-236 | When some trump is held, the trump scan picks the lowest trump. |
| GameDeal.NoTrumpCase | game.go:203-219 | When no trump is held, the trump scan keeps its start values and the fallback decides. |
| GameDeal.FallbackCase | game.go:221-233 | The fallback scan picks a lowest card of the seats before the first inactive one. No later seat of that run and no later card of the holder's hand is as low, so among equal lowest cards the last one wins. Its holder attacks and the next active seat defends. With no such card, nobody is chosen. |
| GameStart.ShuffledDeck | game.go:192-200 | The shuffled deck has 36 cards and all cards of the deck. |
| GameStart.Begin | game.go:271-293 | begin starts play with 36 fresh cards dealt and conserved, and picks the first attacker by the lowest trump or, with no trump held, by the lowest card. On a fresh table of two to six active players with empty hands, each player holds six cards, the deck keeps the rest, the game is well formed, and attacker and defender are two different active seats. |
| GameStart.FirstAttackerSeated | game.go:202-236 | After the deal of a table of active players who all hold cards, the first attacker and the defender are two different active seats. |
| GameStart.SamePlayersSameChoice | game.go:202-236 | The choice of the first attacker depends only on the players and the trump suit. |
| GameTurns.WithoutCard | game.go:354-378 | Only the given player's hand loses one copy of the card. |
| GameTurns.Attack | game.go:354-378 | An allowed attack moves the card from the hand to the end of the table, nothing else changes, and cards are conserved; a refused attack changes nothing. |
| GameTurns.DefendAsWritten | game.go:380-413 | An allowed defence as written stores the defending card in the attacking card's slot and removes it from the hand; a refused one changes nothing. |
| GameTurns.DefendAsWrittenLosesCard | game.go:380-413 | Defending an already defended slot as written loses one card. |
| GameTurns.LostCardExample | game.go:380-413 | The counterexample game is well formed. |
| GameTurns.DefendAsWrittenCounterexample | game.go:380-413 | In a concrete four-card game, a second defence of the same slot is allowed and the card total drops from 4 to 3. |
| GameTurns.Defend | game.go:380-413 | An allowed defence of an undefended slot moves the card onto that slot. A defence of a defended slot changes nothing. Cards are conserved. |
| GameTurns.DefendAgreesOnFreshCards | game.go:380-413 | On an undefended slot the corrected defence and the code as written agree. |
| GameTurns.EndGame | game.go:585-602 | Ending a playing game sets the status to ended and reports the loser once; any other game is unchanged. |
| GameTurns.EndGameOnce | game.go:585-602 | A game ends at most once. |
| GameTurns.PickedUpHand | game.go:505-511 | The defender's hand gains the table cards and then the defending cards, after the old hand. |
| GameTurns.DealRound | game.go:497-500 | The round deal clears the completed flags and conserves cards. |
| GameTurns.ClearTable | game.go:502-519 | After a pick-up the table goes to the defender; otherwise it goes to the discard pile. The table ends up empty either way, and cards are conserved counting the pile. |
| GameTurns.NextRound | game.go:516-541 | The table is cleared. With two or more active players, the new attacker and defender are distinct active seats. With fewer, the game ends, with a loser exactly when one active player remains. |
| GameTurns.EndRound | game.go:497-541 | endRound empties the table, clears the pick-up, keeps the players and conserves cards. |
| GameTurns.SettleTable | game.go:497-514 | Deal, then clear the table: the defender's hand ends with the table after a pick-up, or the discard pile grows by the table. The table itself is still in place, so the card count grows by exactly the table. |
| GameTurns.EndRoundRoles | game.go:516-531 | After endRound no player is marked done. With two active players the new roles go to two different active seats. Otherwise the game ends, and the loser is the one active player, if there is one. |
| GameTurns.PickUp | game.go:436-453 | A refused pick-up changes nothing. An allowed one marks the pick-up and ends the round when everyone is done. |
| GameTurns.Complete | game.go:480-495 | A refused complete changes nothing. An allowed one marks the player done and ends the round when everyone is done. Cards are conserved. |
| GameTurns.OnActivePlayerLeft | game.go:604-611 | A leaving active player ends a two-player game with that player as loser; otherwise nothing changes. |
| GameTurns.ActiveSeatOf | game.go:621-628 | The first active seat of the client, or -1 when there is none. |
| GameTurns.OnClientRemoved | game.go:621-628 | A removed client with an active seat leaves the game from that seat; otherwise nothing changes. |
| GameTurns.OnClientAction | game.go:558-576 | Each action name with matching data runs its operation, with the corrected defence; anything else changes nothing. |
| GameTurns.ActionKeepsCards | game.go:558-576 | With the corrected defence, every player action keeps the game well formed and conserves the cards. |
| Rooms.NewRoom | room.go:11-18 | A new room has its owner as only member and no game, and the owner's room is set. |
| Rooms.Name | room.go:20-23 | A room's name is its owner's nickname. |
| Rooms.Id | room.go:25-27 | A room's id is the id it was made with. |
| Rooms.Without | room.go:29-44 | Removing an id keeps exactly the members with other ids, and shrinks the list when the id was there. |
| Rooms.AddClient | room.go:46-49 | After adding, the client is a member and points at the room; adding a member again changes nothing. |
| Rooms.AddClientTwice | room.go:46-49 | Adding a client twice is the same as adding once. |
| Rooms.RemoveClient | room.go:29-44 | The client is no longer a member and has no room. When the owner leaves a room that still has members, ownership passes to a remaining member. The room reports whether it became empty. |
| Rooms.RemoveRegularClient | room_test.go:89-106 | Removing a member other than the owner keeps the owner and does not empty the room. |
| Rooms.WithoutRemovesOne | room.go:29-44 | Removing a present id that occurs once shrinks the list by exactly one. |
| Rooms.NoneToRemove | room.go:29-44 | Removing an absent id changes nothing. |
| Rooms.ToRoomInList | room.go:51-64 | The list entry carries the room's id, owner, name and member count, and a game status that is empty without a game. |
| Lobbies.NewLobby | lobby.go:39-50 | A new lobby has no clients and no rooms. |
| Lobbies.NewLobbyOk | lobby.go:39-50 | A new lobby satisfies the lobby invariant. |
| Lobbies.OwnerIsInOwnRoom | lobby.go:139-163 | Under the invariant, every room's owner is a registered client whose room is that room. |
| Lobbies.Register | lobby.go:71-76 | Registering adds a client under the next id, with no nickname and no room. That id was unused, and the invariant is kept. |
| Lobbies.OnJoinCommand | lobby.go:95-126 | Joining sets the nickname, broadcasts the arrival, and tells the client its id, the clients and the rooms. |
| Lobbies.LeaveRoom | lobby.go:174-194 | A client leaving its room is removed from it, has no room afterwards, and an empty room disappears from the lobby. |
| Lobbies.LeaveRoomOk | lobby.go:174-194 | Leaving a room keeps the lobby invariant. |
| Lobbies.OnClientLeft | lobby.go:128-137 | A leaving client leaves its room and everyone is told. |
| Lobbies.Unregister | lobby.go:77-83 | Unregistering removes exactly that client, after it has left its room. |
| Lobbies.LeaveRoomOkIfOk | lobby.go:174-194 | Leaving keeps the invariant from any lobby that had it. |
| Lobbies.OwnerLeavingHandsOver | lobby.go:174-194 | When an owner leaves a room with other members, the room stays, and another former member owns it. |
| Lobbies.OnCreateNewRoom | lobby.go:139-163 | A client that owns a room is refused a second one. Otherwise the client leaves its old room and owns a new room under the next room id. |
| Lobbies.OnCreateNewRoomOk | lobby.go:139-163 | Creating a room keeps the lobby invariant. |
| Lobbies.CreateTwiceRefused | lobby.go:139-163 | A second create by the same client is refused and changes nothing. |
| Lobbies.GetRoomById | lobby.go:165-172 | The room with the id, or the "room not found" error exactly when there is none. |
| Lobbies.OnJoinRoom | lobby.go:196-215 | Joining the room one is in does nothing. Otherwise the client leaves its room and joins the requested one, or is told the room does not exist. |
| Lobbies.JoinExistingOk | lobby.go:196-215 | Joining an existing room keeps the invariant. |
| Lobbies.OnJoinRoomOk | lobby.go:196-215 | Every join-room command keeps the invariant. |
| Lobbies.FindPlayerOfClient | game.go:655-662 | The first seat of the client, or -1 when it has none. |
| Lobbies.DispatchGameEvent | lobby.go:244-284 | A game command reaches the game only from a seated client of a playing game, with a known subtype and decodable data. |
| Lobbies.GameCommandDelivered | lobby.go:244-284 | An attack or defence with decoded cards, a pick-up or a complete from a seated player of a playing game is delivered. |
| Lobbies.RoomIdOf | lobby.go:227-232 | A room id is read only from a number that fits in 64 unsigned bits. |
| Lobbies.OnClientCommand | lobby.go:217-242 | Each command type and subtype goes to its handler. Room commands go to the client's room, and undecodable data is ignored. |
| Lobbies.OnClientCommandOk | lobby.go:217-242 | Every client command keeps the lobby invariant. |
| GameLog.CardsToString | game_file_logger.go:130-138 | The cards' texts back to back, starting with the first card's text. |
| GameLog.CardsToStringAppend | game_file_logger.go:130-138 | Printing two stacks in a row prints their concatenation. |
| GameLog.KnownCardShape | game_file_logger.go:130-138 | A deck card's text is its value followed by exactly one suit sign. |
| GameLog.FirstSuitIndex | game_file_logger.go:130-138 | The first suit sign of a text, or -1 when there is none. |
| GameLog.ParseCardsRoundTrip | game_file_logger.go:130-138 | The logged text of deck cards reads back as the same cards. |
| GameLog.PlayerKind | game_file_logger.go:119-122 | A player is "bot" exactly when the name starts with "bot-", otherwise "human". |
| GameLog.PlayerEntry | game_file_logger.go:124 | A player's entry starts with its index and kind and ends with ';'. |
| GameLog.PlayersCards | game_file_logger.go:112-128 | No players print as "" and one player prints as that player's entry. |
| GameLog.PlayersCardsSplit | game_file_logger.go:112-128 | The players part splits at spaces into exactly the player entries, one per seat in seat order. |
| GameLog.PlayersLineUnbroken | game_file_logger.go:101 | When every hand holds deck cards, the players line has no line break. |
| GameLog.TableLineUnbroken | game_file_logger.go:103-107 | When the deck, the table and the trump are deck cards, the table line has no line break. |
| GameLog.StateLinesAreLines | game_file_logger.go:99-110 | A snapshot is the header, the players line and the table line, each ended by a line break. |
| GameLog.StateLinesSplit | game_file_logger.go:99-110 | When the hands, the deck, the table and the trump are deck cards, a snapshot splits at line breaks into exactly the header, the players line, the table line and a final empty part. |
| GameLog.HeadAsWritten | game_file_logger.go:24-67 | As written, every entry except the defence starts with "ENTRY ". |
| GameLog.DefendHeadUnmarked | game_file_logger.go:39-50 | The defence entry as written lacks the "ENTRY " marker. |
| GameLog.Head | game_file_logger.go:24-67 | Every entry's first line starts with "ENTRY " and ends with a line break. |
| GameLog.EntryText | game_file_logger.go:24-64 | An entry is its first line followed by a snapshot. |
| GameLog.Record | game_file_logger.go:24-64 | With the corrected defence head, a beginning game restarts its buffer and every other entry is appended to the buffer. Other games' buffers are unchanged. |
| GameLog.BufferIsEntries | game_file_logger.go:24-64 | With the corrected defence head, a game's buffer is the begin entry followed by every later entry in order. |
| GameLog.TwoDigits | game_file_logger.go:77 | The month is written with at least two digits. |
| GameLog.LogPathParts | game_file_logger.go:77-83 | The log file lies in the folder named after the year and the two-digit month under the log directory, is named after the game id and ends in ".log". |
| GameLog.Write | game_file_logger.go:75-97 | The write fails exactly when the file operations fail. The buffer is dropped once the file was created, and the file holds the buffer. |
| GameLog.LogGameEnds | game_file_logger.go:66-73 | The end entry is appended and the buffer written to dir/YYYYMM/id.log. |
| Strings.Join | deck.go:48-54 | Joining no parts gives "" and one part gives that part. |
| Strings.Split | html/js/index.js:533-542 | Splitting gives at least one part, no part holds the separator, and joining the parts gives the text back. |
| Strings.SplitJoin | html/js/index.js:533-542 | Splitting a join of separator-free parts gives the parts back. |
| Strings.NatToString | game_file_logger.go:67 | The decimal text of a number is non-empty digits without a leading zero, and it reads back as the number. |
| Strings.IntToString | game_file_logger.go:105-106 | The text is non-empty and starts with "-" exactly for a negative number. Every other character is a decimal digit, and the digits read back as the magnitude. |
| JsValues.LastValue | html/js/index.js:362-369 | The last value of a key, or None exactly when the key is absent. |
| JsValues.Object2 | html/js/index.js:473-481 | An object literal with two keys yields each value back. |
| JsValues.OwnEntries | html/js/index.js:362-369 | for…in visits an object's own fields, an array's indices and a string's characters. |
| JsValues.Assign | html/js/index.js:362-369 | After assignment, every key assigned holds its last value and every other key is as before. |
| JsValues.AssignTwice | html/js/index.js:362-369 | Assigning the same fields twice is assigning them once. |
| JsValues.AssignKeys | html/js/index.js:362-369 | The keys afterwards are the old keys and the assigned keys. |
| JsValues.ParseInt | html/js/index.js:445-447 | parseInt keeps numbers, reads a string as text, and always gives a number or NaN (null in JSON). A digit string reads as its value. |
| JsValues.TrimStart | html/js/index.js:446 | Trimming drops exactly the leading white space and line terminators. |
| JsValues.Magnitude | html/js/index.js:446 | After "0x" or "0X" the leading hexadecimal digits are read in base 16, otherwise the leading decimal digits in base 10. No digit gives nothing. |
| JsValues.ParseIntSkipsSpace | html/js/index.js:446 | Leading white space does not change what parseInt reads. |
| JsValues.ParseIntHex | html/js/index.js:446 | A text "0x" followed only by hexadecimal digits reads as the base-16 value of those digits. |
| JsValues.ParseIntNoDigit | html/js/index.js:446 | Text that starts with something other than white space, a sign or a digit reads as NaN. |
| JsValues.ParseIntNonNumeric | html/js/index.js:446 | null, undefined, booleans and objects read as NaN. |
| JsValues.ParseIntOfNat | html/js/index.js:445-447 | parseInt reads back the decimal text of any natural number. |
| JsValues.ParseIntOfInt | html/js/index.js:445-447 | parseInt reads back the decimal text of every integer, negative ones included. |
| JsValues.Upper | html/js/index.js:523-527 | Upper-casing turns a lower-case letter into an upper-case one and leaves other characters alone. |
| JsValues.Lower | html/js/index.js:523-527 | Lower-casing inverts upper-casing. |
| JsValues.Camelize | html/js/index.js:523-527 | camelize never lengthens a key. |
| JsValues.CamelizePlain | html/js/index.js:523-527 | A key without '_' is left unchanged. |
| JsValues.CamelizeSnakify | html/js/index.js:523-527 | camelize inverts the snake-casing of an underscore-free camel-case key. |
| JsValues.CamelizeAppend | html/js/index.js:523-527 | camelize works piecewise on keys split after a character other than '_'. |
| ClientCommands.CardJson | html/js/index.js:473-481 | A card is sent as an object with its value and suit. |
| ClientCommands.JoinRoom | html/js/index.js:445-447 | The join-room command carries parseInt of the room id. |
| ClientCommands.CreateRoom | html/js/index.js:449-451 | The create-room command carries null. |
| ClientCommands.WantToPlay | html/js/index.js:453-455 | The play button sends the room command wantToPlay with null data. |
| ClientCommands.WantToSpectate | html/js/index.js:457-459 | The spectate button sends the room command wantToSpectate with null data. |
| ClientCommands.SetPlayerStatus | html/js/index.js:461-463 | The status control sends the room command setPlayerStatus, carrying the member id and the status. |
| ClientCommands.StartGame | html/js/index.js:465-467 | The start button sends the room command startGame with null data. |
| ClientCommands.DeleteGame | html/js/index.js:469-471 | The delete button sends the room command deleteGame with null data. |
| ClientCommands.AttackWith | html/js/index.js:473-475 | The attack command is a game command carrying the card. |
| ClientCommands.DefendWith | html/js/index.js:477-481 | The defend command carries the attacking and the defending card. |
| ClientCommands.PickUp | html/js/index.js:483-489 | The pick-up command is a game command without data. |
| ClientCommands.Complete | html/js/index.js:483-489 | The complete command is a game command without data. |
| ClientCommands.FieldText | player_actions.go:23-31 | A string field gives its text and a null or missing field gives "". Any other value does not decode. |
| ClientCommands.CardOf | player_actions.go:23-31 | A card decodes exactly when it is an object whose value and suit each decode as a field. The card holds the decoded texts. |
| ClientCommands.DecodeData | lobby.go:217-284 | Missing data cannot be decoded. A room id comes from a number, and null reads as 0. A nickname comes from a string, and null reads as "". Cards come from card objects. |
| ClientCommands.Received | client_command.go:45-50 | The server receives the type and subtype the client sent, from the sending client. |
| ClientCommands.AttackArrives | lobby.go:263-268 | The client's attack arrives at the server as that card. |
| ClientCommands.DefendArrives | lobby.go:269-274 | The client's defence arrives as the two cards. |
| ClientCommands.AttackWithoutSuitArrives | lobby.go:263-268 | An attack card without a suit arrives as that value with an empty suit. |
| ClientCommands.AttackWithNumberRejected | lobby.go:263-268 | An attack card whose value is a number is malformed. |
| ClientCommands.JoinRoomArrives | lobby.go:227-232 | A room id the client read from the hash arrives as the same room id. |
| ClientState.InitialInfo | html/js/index.js:107-146 | The initial game info has attacker and defender -1, an empty table, and neither pick-up nor complete allowed. |
| ClientState.Initial | html/js/index.js:107-146 | The page starts with nothing sent, no picked card, no game end and no seat. |
| ClientState.Info | html/js/index.js:107-146 | Reading an absent info key gives undefined. |
| ClientState.Send | html/js/index.js:440-443 | Sending appends one command and changes nothing else. |
| ClientState.AreYouAttacker | html/js/index.js:211-213 | Without an attacker index in the info, a seated page is not the attacker; a numeric seat is the attacker only under a numeric index. |
| ClientState.AreYouDefender | html/js/index.js:214-216 | Without a defender index, a seated page is not the defender; a defender is also the attacker exactly when both indices are the same. |
| ClientState.AreBeaten | html/js/index.js:217-219 | "Beaten" needs both the complete and the pick-up permission in the info. |
| ClientState.IsWaitingForOthers | html/js/index.js:220-224 | "Waiting" needs a table in the info and never shows together with "beaten". |
| ClientState.InitialHasNoRole | html/js/index.js:211-225 | A fresh page is neither attacker nor defender. |
| ClientState.SeatName | html/js/index.js:226-244 | The name at a seat, or undefined for a negative or empty seat. |
| ClientState.AttackerNickname | html/js/index.js:225-234 | A non-negative attacker seat holding a player gives that player's name. A negative seat or an empty seat gives undefined. |
| ClientState.LoserNickname | html/js/index.js:235-244 | A non-negative loser seat holding a player gives that player's name. A negative seat or an empty seat gives undefined. |
| ClientGame.UseCard | html/js/index.js:177-183 | Clicking the picked card unpicks it; clicking another card picks it; nothing else changes. |
| ClientGame.UseCardToggles | html/js/index.js:177-183 | Clicking a card twice restores the page. |
| ClientGame.Attack | html/js/index.js:184-190 | The attacker with a picked card sends it and clears the pick; otherwise nothing happens. |
| ClientGame.Defend | html/js/index.js:191-202 | The defender with a picked card sends it against the attacking card and clears the pick; otherwise nothing happens. |
| ClientGame.AttackOnce | html/js/index.js:184-190 | A second click on attack sends nothing more. |
| ClientGame.PickUpClicked | html/js/index.js:203-205 | The pick-up button appends exactly one game command, pickUp, and changes nothing else. |
| ClientGame.CompleteClicked | html/js/index.js:206-208 | The complete button appends exactly one game command, complete, and changes nothing else. |
| ClientGame.UpdateGameStateInfo | html/js/index.js:362-369 | Each key received gets its last value, and other keys keep theirs. |
| ClientGame.UpdateGameStateInfoIdempotent | html/js/index.js:362-369 | Applying the same info twice is applying it once. |
| ClientGame.Camelized | html/js/index.js:371-384 | Each received key is camelized and its value kept. |
| ClientGame.OnGameDealEvent | html/js/index.js:371-384 | A deal clears the game end. Each property of the event is stored under its camel-case key. Every other key takes its value from a truthy gameStateInfo when that has the key, and otherwise keeps its old value. Nothing outside gameStateInfo changes. |
| ClientGame.DealDeliversState | html/js/index.js:371-384 | The deal the server sends (gameStateInfo and trumpCardIsOwnedByPlayerIndex, events_game.go:28-31) leaves every key of its state in gameStateInfo, so the dealt hand, hand sizes and deck size arrive with it. |
| ClientGame.DealSnakeKeyArrives | html/js/index.js:371-384 | A key the server sends in snake case arrives under its camel-case name. |
| ClientGame.OnGameFirstAttackerEvent | html/js/index.js:386-390 | Only the attacker and defender indices and the reason card change. |
| ClientGame.FirstAttackerGivesRole | html/js/index.js:386-390 | A player named first attacker is the attacker on the page. |
| ClientGame.OnGameMoveEvent | html/js/index.js:392-404 | An attack or defence event merges its game info into the page's info: received keys take their last value and the other keys keep theirs. Without info nothing changes. |
| ClientGame.OnGameStateEvent | html/js/index.js:406-412 | A state event with game info merges that info the same way and clears the reason card. Without info nothing changes. |
| ClientGame.StateGivesDefence | html/js/index.js:406-412 | A state naming the player as defender makes the page show the defence. |
| ClientGame.OnGameEndEvent | html/js/index.js:414-417 | The game is shown as ended. The loser named on the page is the player at the loser's seat. Nothing else changes. |
| ClientGame.DealAfterEnd | html/js/index.js:371-417 | A deal after the end of a game clears the end. |
| ClientGame.OnGamePlayersEvent | html/js/index.js:357-360 | The page takes the players and its own seat from the event; nothing else changes. |
| ClientGame.OnGamePlayerLeftEvent | html/js/index.js:419-430 | The page shows "player left", or "player left (AFK)" for an AFK leave. The message names the player at that seat, the same name the seat shows elsewhere, or "" for an unknown seat. Nothing else changes. |
| ClientLobby.PairValue | html/js/index.js:533-542 | A pair yields a value only when it is "property=value". |
| ClientLobby.FirstValue | html/js/index.js:533-542 | The value of the first matching pair, or None exactly when no pair matches. |
| ClientLobby.GetFromHash | html/js/index.js:533-542 | A value read from the hash comes from a "property=value" pair of it. |
| ClientLobby.SetRoomHash | html/js/index.js:529-531 | Only the hash changes; it names the room id, which reads back through the hash parser (see HashRoundTrip). |
| ClientLobby.HashRoundTrip | html/js/index.js:529-542 | A room id written to the hash reads back. |
| ClientLobby.IndexById | html/js/index.js:491-498 | The first position with the id, or -1 exactly when none has it. |
| ClientLobby.RoomIndexById | html/js/index.js:491-498 | The room's position in the room list. |
| ClientLobby.MemberIndexById | html/js/index.js:500-511 | The member's position; -1 without a room; a throw when the room has no members. |
| ClientLobby.PlayersCount | html/js/index.js:513-521 | The count is 0 exactly when no member plays, and the member count exactly when all do. |
| ClientLobby.PlayersInRoom | html/js/index.js:513-521 | The counter counts the playing members of the room. |
| ClientLobby.Put | html/js/index.js:339-355 | Setting an existing key changes only that key's value. |
| ClientLobby.SetMember | html/js/index.js:339-355 | Only the member at the position changes. |
| ClientLobby.OnClientJoinedEvent | html/js/index.js:264-282 | Arrival stores who the client is and the lists, changes nothing else, and sends at most one lobby command. It asks for a new room exactly when the room list is empty. It joins a lone room that has one member, and sends nothing when the lone room is null. Otherwise it joins the room named in the hash, if any. Without a room list it sends nothing. |
| ClientLobby.ArrivalCommand | html/js/index.js:264-282 | Arrival asks for a new room exactly when the room list is empty. It joins the lone room when that room has one member, and sends nothing when the lone room is null. With other rooms it joins the room named in a non-empty hash entry, else it sends nothing. Without a room list it sends nothing. |
| ClientLobby.OnClientBroadcastJoinedEvent | html/js/index.js:284-286 | The newcomer ends the client list, the earlier clients stay in order, and nothing else on the page changes. |
| ClientLobby.RemoveById | html/js/index.js:288-296 | Removing by id drops exactly the matching clients. |
| ClientLobby.RemoveByIdKeepsOthers | html/js/index.js:288-296 | Exactly the clients without the id remain. |
| ClientLobby.SpliceLoop | html/js/index.js:288-296 | The loop as written never grows the list, keeps every entry before the current index, and keeps only entries of the list. |
| ClientLobby.SpliceLoopKeepsAdjacentDuplicate | html/js/index.js:288-296 | As written, two adjacent entries with the leaving id leave one behind. |
| ClientLobby.SpliceLoopAgrees | html/js/index.js:288-296 | With at most one matching entry, the loop as written removes exactly the matching clients. |
| ClientLobby.OnClientLeftEvent | html/js/index.js:288-296 | Exactly the clients without the leaving id remain, one entry fewer per match, and nothing else changes. This is the intended removal; the loop as written is the finding below. |
| ClientLobby.OnRoomInListUpdatedEvent | html/js/index.js:298-303 | A known room is replaced at its position while every other room stays put. An unknown room changes nothing. |
| ClientLobby.RoomUpdateKeepsPlace | html/js/index.js:298-303 | The updated room is found at the same position. |
| ClientLobby.OnRoomInListRemovedEvent | html/js/index.js:305-312 | A known room leaves the list. The rooms before it keep their places, the rooms after it move up by one, and nothing else changes. |
| ClientLobby.RoomRemovedIsGone | html/js/index.js:305-312 | When the room id occurs at most once, no room with that id is left after the removal, so getRoomIndexById gives -1. |
| ClientLobby.OnClientCreatedRoomEvent | html/js/index.js:335-337 | The new room ends the room list, the earlier rooms stay in order, and nothing else changes. |
| ClientLobby.OnClientCommandError | html/js/index.js:327-333 | Only the error shown changes. |
| ClientLobby.OnRoomJoinedEvent | html/js/index.js:314-320 | The joined room is shown. When it has a member list, the counter counts its players, the hash names the room, and one startGame command is sent. Without one, the handler throws after storing the room. Nothing else changes. |
| ClientLobby.JoinedWritesHash | html/js/index.js:314-320 | Joining room n writes "roomId=n" to the hash. |
| ClientLobby.ArrivalJoinsFromHash | html/js/index.js:264-282 | With two or more rooms and a room id in the hash, arrival sends that join. |
| ClientLobby.OnRoomUpdatedEvent | html/js/index.js:322-325 | The room is replaced. The player counter is recounted when the room has members and kept when it does not. Nothing else changes. |
| ClientLobby.ReplaceMember | html/js/index.js:339-355 | The member with the id is replaced; an unknown member changes nothing. |
| ClientLobby.OnRoomMemberChangedStatusEvent | html/js/index.js:339-347 | The member's entry is replaced. The page's own want-to-play flag follows only when the member is this client. |
| ClientLobby.OnRoomMemberChangedPlayerStatusEvent | html/js/index.js:349-355 | The member's entry is replaced and the player counter recounted; nothing else changes. |
| ClientLobby.PromotionCounts | html/js/index.js:349-355 | Making a spectator a player raises the count by one. |
| ClientApp.Handle | html/js/index.js:248-262 | A name with no handler leaves the page unchanged. |
| ClientApp.OnMessage | html/js/index.js:248-262 | A null message changes nothing. A message whose "on" + name is a handler of the App goes to that handler with the message's data; one that names no handler, and is not "Message", changes nothing. The lemmas below state the same for messages of the form `{name, data}`. |
| ClientApp.WrappedMessage | html/js/index.js:248-262 | A "Message" event is handled as the message it carries. |
| ClientApp.UnknownMessageIgnored | html/js/index.js:248-262 | An event without a handler changes nothing. |
| ClientApp.KnownMessageHandled | html/js/index.js:248-262 | An event with a handler runs "on" + its name. |
| ClientApp.RejoinAfterReload | html/js/index.js:264-320 | After joining room n and reloading, arrival sends a join the server reads as room n. |
| ClientApp.AttackReachesGame | lobby.go:244-284 | The page's attack reaches the game as an attack with the picked card. |
| ClientApp.ButtonsReachGame | lobby.go:275-278 | The pick-up and complete buttons reach the game as that player's pick-up and complete. |
| ClientApp.RoomCommandReachesRoom | lobby.go:236-241 | A room command leaves the lobby unchanged. From a client in a room it is handed to that room, subtype intact. From a client outside any room it is dropped. |

## Left out

- Networking, channels, goroutines and the websocket client are left out. Outputs are values: events broadcast or sent to one client.
- The AFK timers and `restartAfkTimers` are left out; they are clock driven.
- The contents of game events sent to each player are left out, apart from the state info in `getGameStateInfo`.
- Randomness is left out: shuffling takes the swap picks as a parameter.
- The logger's clock and the file system are left out; both are parameters.
- The server's JSON decoding is taken as already done. Commands carry a decoded payload, and the client model shows which JSON values decode to which payload.
- The Vue templates, translations, timers and WebSocket reconnects are left out, because they only change what is displayed. `showInfoMessage` is modelled as setting the message, without the timer that clears it.
- Lobbies.Register: the 64-bit wrap-around of `lastClientId` and `lastRoomId` is not modelled; ids are unbounded naturals.
- Go map iteration order is unspecified. The model fixes it:
  - Rooms.RemoveClient: the new owner is the first remaining member, where Go takes whichever member its map yields first.
  - GameTurns.ClearTable: the defending cards are appended in ascending slot order.
- Lobbies keeps rooms keyed by room id, where the source keys them by owner client. An owner has at most one room, so lookups agree.
- Nicknames are copied into a room when a client joins it. The source reads them through the client pointer, so a later nickname change is not seen by the room.
- `room.onClientCommand` is not part of this model: room commands are forwarded as an output. `toRoomInfo` is not part of this model either.
- The error messages' texts are named constants without their wording. That wording is not part of this model.
- `Player.hasCard`, `removeCard` and the completed flag are not part of this model. hasCard is modelled as membership by value and suit, removeCard as removing the first equal card.
- JavaScript objects are compared by value, not by identity.
- A handler that throws is modelled as the state it had reached when it threw. This covers the throws the model names, such as ClientLobby.ArrivalCommand. It does not cover a null or undefined list entry; the four lines below say how those are read.
- ClientLobby.IndexById: a null or undefined entry of the list reads as an object without fields, so its id matches nothing and the search goes on. JavaScript throws at `rooms[i].id` and `members[i].id` instead (index.js:493, index.js:506). The server does not send such an entry: lobby.go:104-117 fills the room and client lists with non-nil pointers only, built by room.go:51-64 for rooms. ClientLobby.RoomIndexById, ClientLobby.MemberIndexById and the handlers built on them inherit this reading.
- ClientLobby.PlayersCount: a null or undefined member reads as an object without fields and is counted as no player. JavaScript throws at `members[i].isPlayer` (index.js:516). ClientLobby.PlayersInRoom and the handlers that update the counter inherit this reading.
- ClientLobby.RemoveById: a null or undefined client reads as an object without fields and is kept. The page's own loop throws at `clients[ind].id` (index.js:291). The client list comes from lobby.go:104-117, which holds no nil entry.
- ClientLobby.SpliceLoop: a null or undefined client reads as an object without fields and is skipped, where JavaScript throws at `clients[ind].id` (index.js:291).
- Lists that are not arrays are treated as no-ops.
- Upper- and lower-casing covers the ASCII letters only.
- for…in visits fields in declaration order.
- A card that is `null` or absent decodes as malformed. Go would decode it to a nil pointer that the game then dereferences; that crash is not modelled.
- ClientCommands.CardOf: Go's JSON decoder also matches field names that differ only in case, such as "Value"; the model matches the exact names "value" and "suit".
- JsValues.ParseInt: numbers are integers only. Fractions, exponents, Infinity and the double-precision rounding of long digit runs are not modelled, and the text of a number is its decimal integer text.
- ClientState.SeatName: a seat that is not a number gives undefined. JavaScript would index the player list with a numeric string, so a seat such as "1" would name a player.
- ClientGame.OnGamePlayerLeftEvent: inherits the reading of ClientState.SeatName, so a seat sent as a numeric string such as "0" names the empty string, where the page would name the player at that seat. The server sends the seat as an integer (events_game.go:46).
- GameTurns.OnClientAction: runs the corrected defence, GameTurns.Defend, and not the defence as written. The code as written is the first finding below.
- GameLog.Record: writes the corrected defence entry, which starts with "ENTRY ". The head as written is the third finding below.
- ClientLobby.OnClientLeftEvent: removes with ClientLobby.RemoveById, the corrected removal, and not with the splice loop that index.js:288-296 runs. ClientApp.Handle routes the clientLeft message to it. The loop as written is ClientLobby.SpliceLoop, the second finding below. ClientLobby.SpliceLoopAgrees shows the two agree whenever the leaving id occurs at most once.
- Seats are identified by their index. getPlayerIndex (game.go:664-671) finds a player by client id, which agrees with the index only while no client holds two seats. This affects GameRules.AllAttackersCompleted, GameRules.AllPlayersCompleted and the loser chosen by GameTurns.NextRound.
- ClientGame.OnGameMoveEvent models both `onGameAttackEvent` and `onGameDefendEvent`, which are identical.
- JsValues.Camelize: the stated contract is only "never longer". What it computes is stated by JsValues.CamelizePlain, JsValues.CamelizeSnakify and JsValues.CamelizeAppend.
- The client and server lobby events disagree on field names, as described above. The client is modelled on the names it reads.

## Findings

| source | as written | input that shows it | evidently intended | confidence | as-written member | corrected member |
|---|---|---|---|---|---|---|
| game.go:380-413 | `defend` accepts a defence of an attacking card that already has a defending card and overwrites the map slot | a 9♠ on the table already beaten by the 10♠, then defended again with the J♠: the 10♠ disappears and the card total drops from 4 to 3 | a slot that is already defended cannot be defended again, so no card is lost | not executed | GameTurns.DefendAsWritten (GameTurns.DefendAsWrittenCounterexample, GameTurns.DefendAsWrittenLosesCard) | GameTurns.Defend (GameTurns.DefendAgreesOnFreshCards) |
| html/js/index.js:288-296 | `onClientLeftEvent` splices inside an ascending index loop, so the entry after a removed one is skipped | clients `[{id:1},{id:1}]` and a leaving id 1: one entry remains | every entry with the leaving id is removed | not executed | ClientLobby.SpliceLoop (ClientLobby.SpliceLoopKeepsAdjacentDuplicate) | ClientLobby.RemoveById (ClientLobby.RemoveByIdKeepsOthers, ClientLobby.SpliceLoopAgrees) |
| game_file_logger.go:39-50 | the defence entry's first line lacks the "ENTRY " marker that every other entry has | any defence: its line starts with "Defend." | every entry starts with "ENTRY " | not executed | GameLog.HeadAsWritten (GameLog.DefendHeadUnmarked) | GameLog.Head (GameLog.Record) |
