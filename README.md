# Hearts rules engine in Dafny

This project models the core of a small Python engine for the card game Hearts. It covers two files.

`hearts.py` holds:
- the `Card` value type: validated construction, a two-character text form and the 52-card deck;
- the four pass-target maps of `Game` (left, right, across, hold) and the cycle that hands them to successive rounds;
- `Round` setup: pass-map validation, the deal of four 13-card hands and the choice of the player who holds the two of clubs;
- `Round.is_complete`;
- `Round.advance`, including the left fold that picks the trick winner.

`players.py` holds `ConservativePlayer`:
- a sort key over cards (points, value, suit order clubs < diamonds < spades < hearts);
- `pass_cards`, which passes the three lowest cards;
- `move`, which leads its lowest card, otherwise plays its highest card that cannot take the trick, and otherwise its lowest card.

Modelling choices:
- Players are seats 0 to 3, their positions in the game's list of players. A list of players is modelled only by its length, where `hearts.py` checks that there are four.
- A card is a value of the subset type `Cards.Card`: value 0 (a two) to 12 (an ace), suit one of `c`, `d`, `s`, `h`. `Cards.MakeCard` models the raising constructor with a `Result`.
- The shuffle of the deck is not modelled. The shuffled deck is a parameter, required to be some ordering of `Cards.Deck()`.
- `hearts_points` and `Round.is_legal` do not appear in the modelled files. Both are parameters of the player functions: `pts: Card -> int` and `isLegal: Card -> bool`.
- `Round` is a class whose fields `Round.Advance` updates in place. `Game` is a class holding the scores, the position in the cycle of pass maps and the current round. The stateful `cycle` iterator becomes `PassTargets.TargetsFor(roundIndex)`, a function of the round's position.
- `ConservativePlayer` is pure, so it is modelled by functions.

`hearts.py` is a draft, and `advance` is modelled as the code is written, not as a finished game of Hearts would behave:
- Line 99 removes the card from `self.cards`, which `Round` never defines. The model reads it as `self.hands`.
- Line 102 calls `reduce`, which `hearts.py` does not import. The model reads it as `functools.reduce`.
- The pile is never cleared.
- Only the winning card goes to the winner's captured list, not all four cards.
- The active player changes only when a trick is resolved, and then to the winner.

A finished game would clear the pile after each trick, pass the turn on after every play, and give all four cards to the winner. The model follows the code instead. `Rounds.Round.Valid` records what follows from this:
- every play in the pile is by the same player, the one who was active when the round began;
- only the fourth play resolves a trick, so at most one card is ever captured, and exactly one from the fourth play on;
- the hands and the pile together still hold the whole deck;
- the active player holds `13 - |pile|` cards, so the round is complete exactly when the pile holds 13 plays.

Conservation of the deck across hands, pile and captured lists, as a finished game would keep it, does not hold in this draft and is not claimed.

## Model

| member | source | states |
|---|---|---|
| Cards.MakeCard | hearts.py:10-14 | construction succeeds exactly when the suit is one of c, d, s, h and the value is in 0..12; a success stores both unchanged; a failure carries the message "invalid suit or rank" |
| Cards.MakeCardRoundTrip | hearts.py:10-14 | every card is accepted when constructed again from its own value and suit, and comes back unchanged |
| Cards.CardString | hearts.py:16-17 | every card prints as exactly two characters: the rank symbol (2..9, T, J, Q, K, A for values 0..12), then the suit letter |
| Cards.CardStringInjective | hearts.py:16-17 | two cards that print the same are the same card |
| Cards.Deck | hearts.py:22-24 | the deck has 52 entries, value-major with suits in c, d, s, h order: position i holds the card whose value is i / 4 and whose suit is the (i mod 4)-th suit |
| Cards.DeckEnumeratesCards | hearts.py:22-24 | every card, of every valid value and suit, sits in the deck at position 4 * value + suit index |
| Cards.DeckHoldsEachCardOnce | hearts.py:22-24 | the deck has no repeated card and holds each of the 52 cards exactly once |
| Sequences.IndexOf | players.py:53 | `list.index` returns a position of the element with no earlier occurrence |
| Sequences.RemoveFirst | hearts.py:99 | `list.remove` drops the first occurrence only, keeping the order of the rest, and takes exactly one copy out of the multiset |
| Sequences.Filter | players.py:39 | a list comprehension with a condition keeps exactly the elements that satisfy it and is no longer than its input |
| Sequences.FilterCounts | players.py:39 | the comprehension keeps each element that satisfies the condition as many times as it occurs in the input, and no element that does not |
| Sequences.FilterAppend | players.py:39 | the comprehension keeps the input's order: filtering a concatenation is the concatenation of the filtered parts |
| PassTargets.LeftTargets | hearts.py:63-64 | passing left has exactly the seats 0..3 as keys and sends them to 3, 0, 1, 2, with Python's index -1 meaning the last player |
| PassTargets.LeftIsBijection | hearts.py:63-64 | the left map is a bijection on the four seats that `Round` accepts |
| PassTargets.RightTargets | hearts.py:66-67 | passing right has exactly the seats 0..3 as keys and sends them to 1, 2, 3, 0 |
| PassTargets.RightIsBijection | hearts.py:66-67 | the right map is a bijection on the four seats that `Round` accepts |
| PassTargets.CrossTargets | hearts.py:69-70 | passing across has exactly the seats 0..3 as keys and sends them to 2, 3, 0, 1 |
| PassTargets.CrossIsBijection | hearts.py:69-70 | the across map is a bijection on the four seats that `Round` accepts |
| PassTargets.SelfTargets | hearts.py:72-73 | in the hold round exactly the seats 0..3 are keys and every seat maps to itself |
| PassTargets.SelfIsBijection | hearts.py:72-73 | the hold map is a bijection on the four seats that `Round` accepts |
| PassTargets.LeftRightInverse | hearts.py:63-67 | passing left then right, or right then left, returns every seat to itself |
| PassTargets.CrossIsFixedPointFreeInvolution | hearts.py:69-70 | no seat passes across to itself, and passing across twice returns every seat to itself |
| PassTargets.TargetsFor | hearts.py:60-61 | the map handed to any round has exactly the seats 0..3 as keys |
| PassTargets.RotationOrder | hearts.py:60-61 | the first round passes left; rounds go left, right, across, hold, in that order |
| PassTargets.RotationPeriodic | hearts.py:60 | the cycle repeats with period four: round k + 4 receives the map of round k |
| PassTargets.RotationValid | hearts.py:60 | the map every round receives is a bijection on the four seats: exactly the seats are keys, every target is a seat, no two seats share a target, and every seat is a target |
| PassTargets.RotationAccepted | hearts.py:78-79 | the map every round receives from the cycle passes the key-and-value check of `Round.__init__` |
| Tricks.Keep | hearts.py:102 | one step of the fold keeps one of its two plays, always of the best play's suit and at least its value; a play of the same suit as the best and higher in value displaces it, and a tie keeps the earlier play |
| Tricks.TrickWinner | hearts.py:101-102 | the fold's result is a play of the pile, of the led suit, whose value is at least that of every led-suit play |
| Tricks.WinnerIsFirstHighest | hearts.py:102 | the winner is the earliest play of the led suit with the highest value, since a later play displaces the best only with a strictly higher value |
| Tricks.LeaderWinsUnfollowed | hearts.py:102 | when nobody follows the led suit, the first play wins, so off-suit cards never win |
| Tricks.ClubTrickExample | hearts.py:102 | for seven, king and ace of clubs around a two of hearts, the ace's player wins |
| Rounds.DealHands | hearts.py:91 | the deal gives four hands of 13 cards each |
| Rounds.FindHolder | hearts.py:92 | the search returns the first seat whose hand holds the two of clubs, or none when no remaining seat holds it |
| Rounds.InitialHandsAndPlayer | hearts.py:88-93 | the starting player holds the two of clubs and no other player does |
| Rounds.DealCoversDeck | hearts.py:88-92 | a shuffled deck has 52 cards, the four hands together are the whole deck, and some hand holds the two of clubs |
| Rounds.DealIsPartition | hearts.py:88-91 | every hand has 13 different cards, no card is dealt to two players, and the hands together are the deck |
| Rounds.PlayKeepsInPlay | hearts.py:98-104 | a play of a held card keeps the round invariant: the pile's plays are all by the active player, hands and pile hold the deck, and on the fourth play the winner is the active player and captures the winning card |
| Rounds.PlayConservesCards | hearts.py:99-100 | the card leaving the hand is the card joining the pile, so hands and pile together hold the same cards |
| Rounds.PlayCaptures | hearts.py:101-103 | only the play that brings the pile to four changes the captured lists, adding the winning card to the winner's list |
| Rounds.HandsAfterRemove | hearts.py:99 | removing one copy of a card from one hand removes exactly that card from the four hands |
| Rounds.Round.constructor | hearts.py:77-86 | a valid round starts with empty captured lists, broken false, an empty pile, and the hands and first player of the deal |
| Rounds.Round.TryNew | hearts.py:77-86 | construction fails with "Invalid inputs to round of Hearts" exactly when there are not four players or some player is missing as a key or as a value of the pass map; otherwise it gives a fresh round in its initial state |
| Rounds.Round.IsComplete | hearts.py:95-96 | the round is complete, meaning the active hand is empty, exactly when the pile holds 13 plays |
| Rounds.Round.Advance | hearts.py:98-104 | a card not in the active hand fails as `list.remove` does and changes nothing; otherwise the card leaves that hand and `(card, active)` ends the pile; at four plays the winner becomes active and captures exactly the winning card; at any other count, active and captured are unchanged; the round invariant holds afterwards |
| Games.Game.constructor | hearts.py:55-61 | a new game has four zero scores and a first round in its initial state with the left map |
| Games.Game.TryNew | hearts.py:55-61 | construction fails with "Game requires four players" exactly when there are not four players; otherwise all scores are zero and the first round receives the left map |
| Conservative.SortKey | players.py:53 | the key of a card is its points, then its value, then the position of its suit in `SUIT_ORDER` (c, d, s, h) |
| Conservative.KeyOrderIsStrict | players.py:35 | the sort key orders any two cards, and two cards with the same key are the same card |
| Conservative.Insert | players.py:54 | inserting a card into a sorted list keeps it sorted and adds exactly that card |
| Conservative.SortedHand | players.py:51-54 | `sorted_hand` is non-decreasing in the key and is a permutation of its input, with the same multiset and length |
| Conservative.SortedHandIsStrict | players.py:51-54 | a hand without repeated cards comes out strictly increasing in the key |
| Conservative.SortedArrangementIsUnique | players.py:54 | two sorted arrangements of the same cards are equal, so `SortedHand` is the one result `sorted` can give |
| Conservative.SortedFirstIsLeast | players.py:42 | the first card of a sorted list is key-minimal among its cards |
| Conservative.SortedLastIsGreatest | players.py:45 | the last card of a sorted list is key-maximal among its cards |
| Conservative.FilterKeepsSorted | players.py:43 | filtering a sorted list keeps it sorted |
| Conservative.PassCards | players.py:48-49 | `pass_cards` returns three cards of the hand, or the whole hand if it holds fewer, sorted, and every passed card sorts no later than every card kept |
| Conservative.PrefixSortsFirst | players.py:49 | the first k cards of a sorted list are sorted, and sort no later than every card that remains once they are taken out |
| Conservative.PrefixBeforeSuffix | players.py:49 | in a sorted list every card before position k sorts no later than every card from position k on |
| Conservative.LegalMoves | players.py:39 | `moves` is sorted and holds exactly the legal cards of the hand |
| Conservative.LastNonCapturing | players.py:43-45 | the last card of the non-capturing list cannot take the trick and is key-maximal among the non-capturing moves |
| Conservative.Move | players.py:37-46 | `move` returns a card exactly when some card is legal, and that card is legal and in the hand; on an empty pile it is the key-minimal legal card; on a non-empty pile it is the key-maximal card that cannot take the trick from the lead card, if there is one, and otherwise the key-minimal legal card |

## Left out

- The demo lines at the end of hearts.py (106-112): they only build a game and print.
- Randomness: `shuffle` becomes the parameter `shuffled`, an arbitrary ordering of the deck. `DumbPlayer` in both files is not modelled.
- Logging in players.py, and `Card.__repr__`, which only returns `__str__`.
- The abstract `Player` classes of both files: they only dispatch.
- `Round.is_legal`, `Card.hearts_points`, a `play_game` loop, round scoring, and a pass phase that moves cards are not part of this model. The two functions are called but not defined in the modelled files. They are parameters here.
- The hearts-broken flag is only set to false in `hearts.py`, so the model never changes it.
- Player objects and their names: players are seats 0..3. The dictionaries keyed by player become sequences indexed by seat. `Round.TryNew` and `Game.TryNew` take only the number of players.
- Games.Game.TryNew: assumes four distinct player objects. With a repeated player, as in `[A, A, B, C]`, hearts.py:56 accepts the list. The comprehension of hearts.py:64 then has only three keys and the values A and B, so the check of hearts.py:78-79 fails and `Round` raises the ValueError of hearts.py:80. The model has no repeated seats, so it cannot reach this failure.
- Rounds.Round.TryNew: assumes four distinct player objects. With `[A, A, B, C]` and the map `{A: A, B: B, C: C}`, the check of hearts.py:78-79 passes. The comprehension of hearts.py:91 then keeps only the second hand dealt to A, so 13 cards go to nobody. When the two of clubs is among them, hearts.py:92 indexes an empty list and raises IndexError. The model deals to four distinct seats and does not model this.
- Python object identity: `Card` defines no `__eq__`, and players.py:43 compares suits with `is not`. Cards are values here, and the suit comparison is `!=`.
- Rounds.Round.Advance: reads `self.cards` as `self.hands` and `reduce` as `functools.reduce`. Written literally, line 99 would raise before changing anything.
- PassTargets.RightTargets: the right map is written keyed by the passer (seat j passes to j + 1). It is the same map that hearts.py:67 builds keyed through `players[i - 1]`, and its ensures states the entries.
- Conservative.Move: with no legal card, players.py:42 (empty pile) or players.py:46 indexes an empty list and raises an `IndexError`; the model returns `None` instead.
