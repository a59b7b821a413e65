# Simple Rummy: a verified model of the game engine

This project models the game-state engine of a small Rummy simulation
(`assignment_4.py`) in Dafny and proves what the engine does to its cards.

The entities:

- **Cards.** A card is a rank and a suit, and it carries the value that the
  rank-value table gives its rank. Two cards are equal when rank and suit are.
- **The deck.** It is built by nested loops over packs, suits and the seven
  dealt ranks (A to 7), shuffled in place, and drawn from the front.
- **Players.** A player holds a stash of cards. The player can take a card,
  drop a card onto its game's pile, meld, and add up its stash score.
  Melding moves every group of three or more cards of one rank into the
  game's meld list.
- **The game (`RummyAgent`).** It holds the players, the deck, the discard
  pile, the melds and a turn counter. Its operations:
  - deal at reset;
  - put a card on the pile, shuffling the whole pile back into an empty deck first;
  - pick from the pile or the deck;
  - score a pick or a drop with the shaped rewards;
  - play the computer's baseline turn;
  - test whether the game is over;
  - count turns down;
  - look a player up by name.
- **The learner.** Its greedy choice returns the first index that attains
  the maximum of a row of the action-value table.

The model takes the source's own form:

- `Deck`, `Player` and `RummyAgent` are classes whose methods update their
  fields. These loops of the source are loops here, with their invariants:
  building the deck, dealing, grouping a stash by rank, moving the heavy
  groups, removing cards, adding up a score, testing for the end and counting
  down the turns. The shuffle is the swap loop that `random.shuffle` runs.
  The meld's last loop, which pops the melded ranks from a local dictionary
  that is then discarded, changes nothing visible and is left out.
- The list comprehensions become functions: the values of a stash (`Values`,
  a set) and the players with a name (`PlayersNamed`, by recursion).
- Cards, the rank table, the reward formulas and the greedy argmax are
  datatypes and functions.
- Each method is proved against specification functions on sequences. Melding
  is specified by `Kept` and `MeldGroups`, shuffling by `Shuffled`, putting a
  card on the pile by `AddedToPile`, and picking by `Picked`. Lemmas prove
  what those functions promise.

Where the cards are is also a value: `Table` holds the deck, the pile, the
stashes and the melds. Each game method that moves a player's cards (a pick,
a meld, a drop, the computer's turn) states its new table as a transition of
the old one (`PickTable`, `MeldTable`, `DropTable`, `ComputerTurn`). The
transition lemmas prove that no card is created or lost. At reset, every card
of the pack is on the table exactly once.

Randomness becomes parameters:

- `random.shuffle` is the Fisher–Yates swap loop. The caller supplies the
  swap positions `js`, where `js[k] <= k`.
- `random.randint` becomes the `coin` and `pos` arguments of the computer's turn.
- `np.random` becomes the draw `u` and the random index of `EpsilonGreed`.

## Model

| member | source | states |
|---|---|---|
| Cards.Card.RankToVal | assignment_4.py:9-17 | a card's value lies in 1..10, and in 1..7 for the dealt ranks |
| Cards.ParseRank | assignment_4.py:10 | a rank symbol is found exactly when it is a key of the rank-value table (A, 2-9, T, Q, K), and the rank found has that symbol |
| Cards.NewCard | assignment_4.py:13-17 | building a card succeeds exactly when its rank symbol is in the table, and keeps that rank and the suit |
| Cards.ParseRankSymbol | assignment_4.py:10 | every rank's symbol looks up to that rank |
| Decks.FullDeckContents | assignment_4.py:29-36 | a deck of `packs` packs has 28 × packs cards, and each (suit, dealt rank) card occurs exactly `packs` times and no other card occurs |
| Decks.Deck.constructor | assignment_4.py:30-36 | the new deck's cards are the packs in pack, suit, rank order, 28 × packs of them, each card `packs` times |
| Decks.Deck.AppendPacks | assignment_4.py:33-36 | the outer loop appends the packs one after the other |
| Decks.Deck.AppendPack | assignment_4.py:34-36 | the suit and rank loops append one run of ranks per suit |
| Decks.ShufflePermutes | assignment_4.py:38-39 | shuffling keeps the length and the multiset of cards |
| Decks.Deck.Shuffle | assignment_4.py:38-39 | the in-place swap loop leaves `Shuffled(old cards, js)`, a permutation of the old cards |
| Decks.Deck.DrawCard | assignment_4.py:41-44 | on a non-empty deck, the result is the old first card and the deck keeps the rest in order |
| Hands.ScoreAppend | assignment_4.py:93-97 | the score of a stash is additive over concatenation |
| Hands.ScoreBounds | assignment_4.py:93-97 | a stash scores between its size and ten times its size |
| Hands.DistinctAfterAppend | assignment_4.py:171-179 | adding a card keeps the number of distinct values exactly when its value is already held |
| Hands.RemoveFirstMultiset | assignment_4.py:73 | removing a held card takes exactly one copy of it out and shortens the stash by one |
| Hands.RemoveFirstCuts | assignment_4.py:73 | removal cuts out the first position holding the card, and the rest stays in order |
| Hands.RemoveFirstWithin | assignment_4.py:86-87 | when a group's cards are all held, each removal in turn finds its card, and the rest of the group stays held |
| Hands.ScoreRemove | assignment_4.py:72-75 | dropping a held card lowers the stash score by its value |
| Hands.ValuesRemove | assignment_4.py:212-217 | the values held before a drop are those held after plus the dropped card's |
| Hands.DistinctAfterRemove | assignment_4.py:212-217 | dropping keeps the number of distinct values exactly when another held card has the dropped card's value |
| Hands.FlattenUpdate | assignment_4.py:72-87 | replacing one stash changes the cards held by all stashes by exactly that replacement |
| Melds.RanksInOrderSpec | assignment_4.py:78-80 | the grouping's keys are exactly the ranks held, each once |
| Melds.HeavyRanksSpec | assignment_4.py:82-85 | the melded ranks are exactly the keys whose group has three or more cards, without repeats |
| Melds.MeldsOfSpec | assignment_4.py:82-84 | one meld group per melded rank, holding every held card of that rank |
| Melds.MeldsOfConserve | assignment_4.py:82-87 | the cards kept plus the cards melded are exactly the cards held before |
| Melds.MeldedRanksSpec | assignment_4.py:77-91 | a rank is melded exactly when it occurs three or more times in the stash |
| Melds.MeldGroupsSpec | assignment_4.py:77-91 | the groups appended are, rank by rank, all held cards of a rank that occurs three or more times |
| Melds.MeldedIff | assignment_4.py:91 | the meld reports success exactly when some rank occurs three or more times |
| Melds.KeptExactly | assignment_4.py:86-87 | the stash loses exactly the cards of ranks occurring three or more times, and keeps every other copy |
| Melds.KeptInOrder | assignment_4.py:86-87 | the cards kept keep their relative order |
| Melds.MeldConservation | assignment_4.py:77-91 | kept cards plus melded cards are exactly the old stash |
| Melds.KeptHasNoMeld | assignment_4.py:82-91 | after a meld no rank occurs three or more times |
| Melds.NoMeldNoChange | assignment_4.py:82-91 | with no rank three times, the meld reports false and changes neither stash nor melds |
| Melds.MeldIdempotent | assignment_4.py:82-91 | a second meld finds nothing and keeps the stash as it is |
| Melds.RemoveAllGroup | assignment_4.py:86-87 | removing one rank's group card by card leaves the stash without that rank |
| Melds.WithRankWithin | assignment_4.py:78-87 | a rank's bucket is part of the stash it was built from, so its removal finds every card |
| Melds.MeldStep | assignment_4.py:82-87 | one heavy group's removal extends the cards removed by that rank |
| Rewards.PickRewardValue | assignment_4.py:178-190 | the pick reward is 100 on a meld, else 80 when the picked card's value was held, else -3 times that value |
| Rewards.DropRewardValue | assignment_4.py:216-224 | the drop reward is -80 when another held card has the dropped value, else 3 times that value |
| Rewards.PickRewardRange | assignment_4.py:185-190 | with dealt cards a pick earns 100, 80, or between -21 and -3 |
| Rewards.DropRewardRange | assignment_4.py:221-224 | with dealt cards a drop earns -80, or between 3 and 21 |
| Game.Player.constructor | assignment_4.py:56-62 | a new player has the given name, stash, kind and points, and no game |
| Game.Player.DealCard | assignment_4.py:64-70 | the dealt card goes to the end of the stash |
| Game.Player.DropCard | assignment_4.py:72-75 | the first equal card leaves the stash and goes to the game's pile as `AddedToPile` says, and the result is -1 |
| Game.Player.Meld | assignment_4.py:77-91 | the stash becomes `Kept(old stash)`, the game's melds gain `MeldGroups(old stash)`, and the result is true exactly when a group was melded |
| Game.Player.GroupByRank | assignment_4.py:78-80 | the first loop builds the rank dictionary: keys in first-seen order, each bucket all held cards of its rank |
| Game.Player.MoveHeavyGroups | assignment_4.py:81-87 | the second loop melds exactly the heavy keys in dictionary order and removes their cards from the stash |
| Game.Player.MoveGroup | assignment_4.py:84-87 | one heavy group, whose cards are all held, is appended to the melds and its cards removed from the stash |
| Game.Player.RemoveCards | assignment_4.py:86-87 | for a group whose cards are all held, removes the first copy of each card in turn; each removal finds its card |
| Game.Player.StashScore | assignment_4.py:93-97 | the loop's total is the stash score |
| Game.AddedToPileConserves | assignment_4.py:163-168 | putting a card on the pile adds exactly that card to deck and pile, grows their total size by one, and leaves it on top |
| Game.PickedConserves | assignment_4.py:195-201 | a pick takes exactly the picked card out of deck and pile |
| Game.PlayersNamedCount | assignment_4.py:204 | the players named `name` are as many as the positions holding that name |
| Game.DealtGame | assignment_4.py:254-261 | after dealing n hands of m cards and turning one card up, 27 - n × m cards stay in the deck and every card of the pack is on the table exactly once |
| Game.PickMoves | assignment_4.py:195-201 | a pick into stash k moves a card without creating or losing any |
| Game.MeldMoves | assignment_4.py:77-91 | a meld of stash k moves cards to the melds without creating or losing any |
| Game.DropMoves | assignment_4.py:72-75 | a drop from stash k onto the pile moves a card without creating or losing any |
| Game.ComputerTurnConserves | assignment_4.py:227-241 | a whole computer turn keeps exactly the cards on the table |
| Game.RummyAgent.constructor | assignment_4.py:148-151 | a new game keeps the card length, starts with 20 turns, and seats and deals the players as a reset does, on a newly allocated deck and newly allocated players |
| Game.RummyAgent.Reset | assignment_4.py:254-261 | a newly allocated one-pack deck, no melds, newly allocated players dealt `maxCardLength` cards each, one card on the pile, and every card on the table once |
| Game.RummyAgent.Deal | assignment_4.py:261 | dealing a full pack onto an empty table seats the new players, leaves one card on the pile and 27 - n × m in the deck, and puts every card on the table once. The hands, in seat order, then the pile card, then the rest of the deck are the old deck: each hand is the next run of `maxCardLength` cards from the front |
| Game.RummyAgent.FreshDeck | assignment_4.py:256-257 | the reset's new deck of `packs` packs holds 28 cards per pack, every card once per pack |
| Game.RummyAgent.UpdatePlayerCards | assignment_4.py:153-161 | one new distinct player per entry, with the same name, kind and points and `maxCardLength` cards from the deck's front; then one card turned up as the pile |
| Game.RummyAgent.SeatPlayers | assignment_4.py:154-160 | the dealing loop hands out consecutive runs of the deck, in seat order |
| Game.RummyAgent.SeatPlayer | assignment_4.py:155-159 | a fresh player of this game with the next `maxCardLength` cards of the deck |
| Game.RummyAgent.AddPile | assignment_4.py:163-168 | deck and pile become `AddedToPile`: an empty deck is refilled with the old pile, shuffled, and the pile becomes just the card; otherwise only the card is added to the pile |
| Game.RummyAgent.PickFromPile | assignment_4.py:195-198 | the pile's top card moves to the end of the stash, and the table makes the `PickTable` transition |
| Game.RummyAgent.PickFromDeck | assignment_4.py:200-201 | the deck's front card moves to the end of the stash, and the table makes the `PickTable` transition |
| Game.RummyAgent.Pick | assignment_4.py:174-177 | a pick from the pile or from the deck, as chosen |
| Game.RummyAgent.MeldHand | assignment_4.py:185 | the player's meld as the game sees it: the `MeldTable` transition |
| Game.RummyAgent.PickAndScore | assignment_4.py:171-181 | the pick with the number of distinct values and the score before and after it |
| Game.RummyAgent.PickCard | assignment_4.py:170-191 | action 0 picks from the pile and any other from the deck, then the player melds. The state is the first four values held after the pick. The reward is 100 on a meld, else 80 when the picked value was held, else -3 times it. The table makes the pick then the meld transition |
| Game.RummyAgent.DropCard | assignment_4.py:211-225 | the first equal card goes from the stash to the pile of the player's game. The reward is -80 when another held card has its value, else 3 times its value. For a player of this game, the table makes the `DropTable` transition |
| Game.RummyAgent.Discard | assignment_4.py:215 | the player's drop as its game sees it: stash, deck and pile change as the drop says, and for a player of this game the table makes the `DropTable` transition |
| Game.RummyAgent.ComputerPlay | assignment_4.py:227-241 | a pick chosen by the coin, a meld, then, if anything is left, a drop of the card at `pos`. The new table is `ComputerTurn` of the old |
| Game.RummyAgent.PickThenMeld | assignment_4.py:229-236 | the coin's pick, then the meld: the new card joins the stash, the groups go to the melds, the rest stays held, and the table makes the pick then the meld transition |
| Game.RummyAgent.DropAt | assignment_4.py:239-241 | an empty stash changes nothing; otherwise the card at `pos` goes to the pile |
| Game.RummyAgent.Play | assignment_4.py:243-249 | the game is over exactly when some player's stash is empty or no turns are left |
| Game.RummyAgent.UpdateTurn | assignment_4.py:251-252 | one turn is used up |
| Game.RummyAgent.PlayOutTurns | assignment_4.py:350-352 | calling `Play` and `UpdateTurn` until the game is over ends it. No turn is used when it is over already; otherwise exactly the turns that were left are used up |
| Game.RummyAgent.GetPlayer | assignment_4.py:203-209 | a player is returned exactly when one player has the name; it is that player |
| Learner.Row | assignment_4.py:327-332 | the pick row has 2 entries and the drop row 4 |
| Learner.FirstArgMax | assignment_4.py:327 | the result is the first index attaining the row's maximum |
| Learner.FirstMaxUnique | assignment_4.py:327 | the first index attaining the maximum is unique |
| Learner.EpsilonGreed | assignment_4.py:318-333 | below epsilon, the random index; otherwise the first maximal entry of the state's pick or drop row, which is always a valid action |
| Learner.GreedyWhenEpsilonZero | assignment_4.py:318-333 | with epsilon 0 the choice ignores the random draws and is the first maximal entry |

## Left out

- The temporal-difference update of the action-value table and the whole
  training loop, the `test` function and the script driver. They are
  floating-point numpy arithmetic over a global game, with printing.
- The learner's constructor, `printQ`, `get_states` and `get_actions`:
  enumeration and printing. The table is a parameter of `EpsilonGreed`.
- `get_info`, which only reports the stash and the top of the pile, and
  `coord_convert`, which is unused. Card printing (`__str__`, `__repr__`) is
  also left out.
- Cards.NewCard: a suit is one of the four suits of the suit list, the only
  suits the engine builds cards with. The source's `Card` stores any suit
  string it is given.
- The network connection `conn` of a player, which the engine only copies.
- Randomness: the shuffle's swap positions, the computer's coin and drop
  position, and the learner's draws are parameters.
- Game.Player.DealCard: only the append is modelled. The capacity check after
  it reads `cardsLength`, a field the game does not have, so every call ends in
  an uncaught `AttributeError` after the card is appended. Nothing in the
  source calls `deal_card`.
- Game.Player.constructor: the shared default `stash=list()` makes every
  player built without a stash share one list. Here every stash is a value of
  its own, so that aliasing is not modelled.
- Game.RummyAgent.constructor: the `max_turns` argument is stored and then
  overwritten by the reset's default of 20, as in the source. The source's
  default card length of 5 is not a default here, so callers pass it.
- Game.RummyAgent.Reset: states the sizes, the seating, and that every card of
  the pack is in play exactly once. It does not state which cards each hand
  holds. That is stated one level down: `Deal` and `UpdatePlayerCards` deal
  runs from the front of the deck they are given. The shuffled order of a fresh
  pack is not carried up to the reset, so the reset does not name that deck.
- Game.RummyAgent.PickCard: requires `player.game == this` and at least
  three cards before the pick. The source fails with an index error below
  four cards after the pick, and only means to be called on its own players.
- Game.RummyAgent.ComputerPlay: requires `player.game == this`, which
  `Player.drop_card` and `meld` rely on.
- Game.RummyAgent.PickFromPile, PickFromDeck, Pick, MeldHand, PickAndScore,
  PickCard, ComputerPlay, PickThenMeld and DropAt require `Valid()`: the seated players are
  distinct objects of this game. The reset establishes this and they preserve
  it. `RummyAgent.DropCard` and `AddPile` act on whatever game the player
  belongs to, as the source does, and need no such precondition.
  `DropCard` states its table transition when that game is this one and
  `Valid()` holds.
- Errors the source raises are preconditions, not modelled results: an empty
  deck or pile on a draw, a drop or meld removal of a card not held, an index
  past the stash.
- Game.RummyAgent.PlayOutTurns: the players' moves inside the training loop
  are left out, so no stash changes while the turns are counted down.
- Learner.EpsilonGreed: states are the values 1..7 of four cards. A value of
  0, which numpy would turn into index -1, is excluded by `IsState`. Table
  entries are `real`, not floating point.
