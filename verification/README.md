# Gin rummy rule engine in Dafny

A model of the rule engine of the two-player gin rummy web game in
`gin_rummy.py`, with the page building around it removed, and proofs about it.

- **Card catalogue** (`cards.dfy`). The constant `deck` is a 13 x 4 table of
  card images: rank rows 0 (Ace) to 12 (King) by suit columns 0..3. A card
  image becomes `Face(id)`; the image in row `r`, column `c` is
  `Face(4 * r + c)`. Any image outside the table is a `Face` with an id of 52
  or more. The card-backing image is `Back`. `GetCardCoordinates` is
  built from `Lookup`, which gives a catalogue card its `[id / 4, id % 4]`
  and an unknown image nothing. The literal row-major scan of
  `get_card_coordinates` over the table is `LookupFrom`, and
  `Cards.LookupIsScan` proves it equal to `Lookup`. The flatten step of `shuffle_deck` lists card `i` at position `i`.
- **Meld checks** (`melds.dfy`). The model states each of
  `check_standard_rank_set` and `check_standard_suit_set` twice:
  - as a predicate of what the check accepts;
  - as a method that follows the source's loops, proved to return exactly
    that predicate.

  `valid_set` is their disjunction. The suit check's scan is connected to
  "the longest stretch of sorted same-suit ranks rising by one through the
  anchor position". The selecting-mode verdicts are characterised outright:
  - three or more cards of one rank;
  - or three or more cards of one suit whose sorted ranks rise by one at
    every step.

  The `assert_equal` cases of the source are proved as lemmas.
- **Game state** (`gamestate.dfy`). `Player` and `State` are immutable
  datatypes. The boolean `current_player` selects one of two player fields.
  This file also defines:
  - the card-conservation invariant (every catalogue card in play exactly
    once, the backing in pile slot 0);
  - the rule that every laid-down set is a meld;
  - the game-over test of `play_turn`.
- **Turn routes** (`turns.dfy`). Each of `discard`, `pick_up_card`,
  `select_sets`, `confirm_sets` and the dealing part of `deal_cards` is a pure
  state update. Where a turn route returns `play_turn(state)`, the update is
  followed by `play_turn`, which may score a finished game. `deal_cards` also
  returns `play_turn(state)` (gin_rummy.py:394), but `DealCards` leaves it
  out: its result is never a finished game, so `play_turn` would change
  nothing. Every turn route (all but the deal) conserves the cards and keeps
  every laid-down set a meld. So does any sequence of allowed requests
  (in-range indices, a selection without repeats), from any state that holds
  the invariant. The deal adds the shuffled cards to those in play; dealing
  any permutation of the table onto the start state establishes the
  invariant.
- **Scoring** (`scoring.dfy`). The loops of `win_conditions` are modelled
  as methods. They are proved to add the worth of the laid-down cards and to
  subtract the worth of the hand, where Ace to 9 are worth 5, 10 to King 10,
  and any other image 0. The result is added onto the points the player
  already has.
- `lists.dfy` holds the generic sequence operations the routes use:
  - `pop(i)`;
  - `remove(x)`;
  - picking by index;
  - flattening.

The shuffle is a parameter: `DealCards` takes the shuffled deck as input.
`DealtFromStart` assumes only that this input is a permutation of the
flattened table.

Notes on how the source behaves, which the model follows:
- **Missing anchor.** `target_rank_index` starts at 0 and is set only where
  the sorted ranks hold the anchor rank (gin_rummy.py:466-470). An absent
  rank therefore starts the scan at position 0, and a repeated rank starts
  it at its last occurrence.
- **Low pickup indices.** `pick_up_card` takes the pile only for an index
  above 0 (gin_rummy.py:528); any other index draws from the deck
  (gin_rummy.py:551-552). Slot 0 of the pile is the card backing the game
  starts with (gin_rummy.py:877).
- **Points.** `win_conditions` adds to and subtracts from `player.points`
  as it stands (gin_rummy.py:632-641), so scoring a game twice adds the gain
  twice.
- **Ranks.** A rank is the table row 0 (Ace) to 12 (King).
- **Discard and the selection.** `discard` changes the hand, the pile, the
  player and the phase, and leaves `selected_cards` as it is
  (gin_rummy.py:369-371).
- **Choice of anchor.** `confirm_sets` anchors on the first selected card
  (gin_rummy.py:595-596). `Melds.SelectingAnchorIsIrrelevant` proves that
  every selected card gives the same verdict.

## Model

| member | source | states |
|---|---|---|
| Cards.CatalogueIsBijection | gin_rummy.py:37-88 | row `r`, column `c` of the table holds a catalogue card whose position is `[r, c]`, and a catalogue card sits exactly at its own position |
| Cards.FullDeckLists | gin_rummy.py:99-102 | the row-major flatten lists 52 cards, card `i` at position `i`; it holds exactly the catalogue cards and never the backing |
| Cards.LookupFromFinds | gin_rummy.py:408-413 | the table scan from slot `k` yields `[row, col]` of a catalogue card once if its slot is not passed yet, and nothing for any other image |
| Cards.LookupIsScan | gin_rummy.py:408-413 | scanning the whole table yields the card's own `[id / 4, id % 4]` for a catalogue card, nothing otherwise, and that slot holds the card |
| Cards.GetCardCoordinates | gin_rummy.py:399-414 | at most one coordinate per input image |
| Cards.CoordinatesMeaning | gin_rummy.py:399-414 | the coordinates are the table positions of the recognised images, in input order, unknown images dropped |
| Cards.CoordinatesOfKnown | gin_rummy.py:399-414 | a list of catalogue cards yields exactly one position per card, in order |
| Cards.FirstCoordinate | gin_rummy.py:399-414 | a list starting with a catalogue card has that card's position as its first coordinate |
| Melds.CheckStandardRankSet | gin_rummy.py:416-440 | the counting loop returns true iff at least three coordinates have the anchor rank and, when selecting, none has another rank |
| Melds.SelectingRankSetMeaning | gin_rummy.py:433-440 | in selecting mode the rank check accepts exactly three or more cards all of the anchor rank |
| Melds.RankSetExamples | gin_rummy.py:852-854 | the three rank-set cases the source asserts have the asserted verdicts |
| Melds.Sort | gin_rummy.py:464 | `ranks.sort()` yields a sorted permutation of the collected ranks |
| Melds.AnchorIndex | gin_rummy.py:466-470 | the scan start is the last position of the anchor rank, or 0 when the rank is absent |
| Melds.CollectSuitRanks | gin_rummy.py:457-463 | the first loop collects the ranks of the anchor suit in input order, and gives up exactly when selecting and some card has another suit |
| Melds.FindAnchor | gin_rummy.py:466-470 | the second loop ends on the last position of the anchor rank, 0 if absent |
| Melds.ScanRun | gin_rummy.py:458-488 | the two scans, starting from 1, count the anchor plus its neighbours that continue a run rising by one |
| Melds.CheckStandardSuitSet | gin_rummy.py:442-495 | the suit check returns true iff the run through the anchor position has at least three ranks and, when selecting, every card is of the anchor suit and inside the run |
| Melds.RunLengthIsLongestRun | gin_rummy.py:472-488 | the scanned stretch rises by one at every step, and no stretch rising by one through the anchor position is longer |
| Melds.RunCoversAll | gin_rummy.py:490-494 | the run through any start position covers the whole list iff the whole list rises by one at every step |
| Melds.RunOfThree | gin_rummy.py:472-495 | the scan reaches three iff some stretch of three or more positions rising by one contains the start position |
| Melds.ProbingSuitSetMeaning | gin_rummy.py:457-495 | in probing mode the suit check accepts iff some stretch of three or more sorted same-suit ranks rising by one contains the anchor position; off-suit cards play no part |
| Melds.SelectingSuitSetMeaning | gin_rummy.py:457-495 | in selecting mode the suit check accepts iff there are three or more cards, all of the anchor suit, whose sorted ranks rise by one at every step, whatever the anchor rank |
| Melds.CheckValidSet | gin_rummy.py:498-511 | `valid_set` returns true iff the cards pass the rank check or the suit check for the given anchor and mode |
| Melds.ProbingValidSetMeaning | gin_rummy.py:498-511 | picking up accepts exactly when three or more candidates have the anchor rank, or a stretch of three or more sorted anchor-suit ranks rising by one runs through the anchor position |
| Melds.SelectingValidSetMeaning | gin_rummy.py:498-513 | confirming accepts exactly three or more catalogue cards of the anchor rank, or of the anchor suit with sorted ranks rising by one |
| Melds.SelectingAnchorIsIrrelevant | gin_rummy.py:595-598 | anchoring the selecting check on any selected card gives the same verdict as anchoring it on the first |
| Melds.SuitSetProbingExample | gin_rummy.py:856 | the probing suit-set case the source asserts is accepted |
| Melds.SuitSetSelectingRejects | gin_rummy.py:857-858 | the two selecting suit-set cases with an off-suit card are rejected |
| Melds.SuitSetSelectingAccepts | gin_rummy.py:859 | the exact run Eight to Ten of hearts, anchored on its lowest card, is accepted when selecting |
| Melds.CoordinatesExample | gin_rummy.py:847-850 | the Two of hearts and the Two of diamonds sit at `[1, 0]` and `[1, 1]` |
| Melds.ValidSetSelectingExample | gin_rummy.py:861-865 | Two, Three and Four of hearts are a valid set when selecting |
| Melds.ValidSetProbingExample | gin_rummy.py:866-871 | three Nines and a Six hold a valid set when probing, anchored on the Nine of diamonds |
| GameState.Start | gin_rummy.py:877 | the server starts with no card in play, only the backing on the pile, no set laid down, and the game-over test true until the cards are dealt |
| GameState.ConservedHandDistinct | gin_rummy.py:600-601 | under conservation no card appears twice in the current hand, so each `hand.remove(url)` takes the card at its selected position |
| GameState.WithActive | gin_rummy.py:162-169 | replacing the current player's record leaves the other player and every other field alone |
| GameState.DealtSeats | gin_rummy.py:393 | putting one card on the pile adds exactly that card to the cards in play |
| GameState.ConservedCardsAreKnown | gin_rummy.py:143-160 | under conservation the deck, the current hand and every pile slot after 0 hold only catalogue cards |
| GameState.AllMeldsSnoc | gin_rummy.py:599 | appending a meld to a list of melds keeps every set a meld |
| GameState.MeldMeaning | gin_rummy.py:595-599 | a laid-down set has three or more cards, all of its first card's rank, or all of its suit with ranks rising by one |
| Turns.DiscardCard | gin_rummy.py:369-371 | the hand loses exactly position `i`, order kept; that card goes on top of the pile; the turn passes; the phase becomes "pick"; deck, sets and the other player are unchanged |
| Turns.Discard | gin_rummy.py:359-372 | the route changes no card beyond the discard itself |
| Turns.DiscardKeeps | gin_rummy.py:369-372 | discarding conserves the cards and the backing in slot 0, keeps every meld, and moves one card from the hand to the pile |
| Turns.MoveTail | gin_rummy.py:538-539 | the pop loop moves the pile from `card_index` on to the end of the candidate hand, in order, and leaves the cards before it |
| Turns.TakeFromPile | gin_rummy.py:542-545 | a committed pickup makes the hand `hand ++ pile[i..]` and the pile `pile[..i]` and enters the discard phase, the rest unchanged |
| Turns.DrawFromDeck | gin_rummy.py:551-552 | a draw moves the deck's front card to the end of the hand and enters the discard phase, the rest unchanged |
| Turns.PickUpCard | gin_rummy.py:518-553 | an index of 0 or less draws from the deck; a higher index takes the pile tail when the candidate hand holds a set through the chosen card, and otherwise changes no card |
| Turns.PickupAnchorInRun | gin_rummy.py:466-470 | the chosen card's rank is among the sorted ranks of its suit in the candidate hand, and the anchor search stops on a position holding that rank, so the suit scan starts from the chosen card's rank and the fallback to position 0 never applies on a pickup |
| Cards.KnownCoordinate | gin_rummy.py:399-414 | every catalogue card in the input contributes its own position to the coordinates |
| Turns.PickupAnchor | gin_rummy.py:530-532 | the pickup anchors on the chosen card's own position, and that card is among the cards the hand gains |
| Turns.PickUpKeeps | gin_rummy.py:518-553 | every pickup outcome conserves the cards and the backing in slot 0, and keeps every meld |
| Turns.SelectSets | gin_rummy.py:569-575 | selecting appends the position; either way nothing but the selection changes |
| Turns.UnselectRemoves | gin_rummy.py:571-574 | on a selection without repetitions, unselecting removes exactly that position, keeps the order of the others, and leaves no repetition |
| Turns.SelectThenUnselect | gin_rummy.py:569-574 | unselecting a position just selected restores the selection |
| Turns.UnselectSkipsDuplicate | gin_rummy.py:572-574 | with a position selected twice, one unselect leaves one copy, because the loop skips the element after the one it removes |
| Turns.SelectedCards | gin_rummy.py:591-593 | the selected cards are the hand cards at the selected positions, in selection order |
| Turns.LayDown | gin_rummy.py:599-602 | the selected cards become one new set and leave the hand; when no card repeats in the hand, the hand left is the old hand without the selected positions, in order; the selection is cleared, the rest unchanged |
| Turns.ConfirmSets | gin_rummy.py:580-606 | an empty selection changes no card; a selection that passes the selecting check, anchored on its first card, is laid down; otherwise only the selection is cleared |
| Turns.ConservedConfirmable | gin_rummy.py:595-596 | under conservation a non-empty selection always has a first coordinate to anchor on |
| Turns.ConfirmKeeps | gin_rummy.py:588-606 | confirming conserves the cards and the backing in slot 0, and every set laid down is a meld |
| Turns.ConfirmRaisesGain | gin_rummy.py:599-601 | a successful confirm raises the end-of-game gain by twice the worth of the laid-down cards |
| Turns.DealRounds | gin_rummy.py:390-392 | seven rounds give the even-position cards to the first player and the odd ones to the second, in order, leave the rest as the deck, and lose no card |
| Turns.DealCards | gin_rummy.py:376-394 | both names are set, 7 cards go to each hand, the 15th card goes on the pile, the rest is the deck, the game is not over, and exactly the shuffled cards are added to those in play |
| Turns.ShuffledLength | gin_rummy.py:91-104 | any permutation of the flattened table has 52 cards |
| Turns.DealtFromStart | gin_rummy.py:387-393 | dealing any permutation of the table onto the start state conserves every card once, with no sets laid down |
| Turns.PlayTurnMovesNoCard | gin_rummy.py:294-295 | `play_turn` changes nothing but the points |
| Turns.Step | gin_rummy.py:359-606 | every allowed request (in-range indices, a selection without repeats) keeps conservation and the meld rule |
| Turns.Play | gin_rummy.py:359-606 | any sequence of allowed requests (in-range indices, a selection without repeats) keeps every card in play exactly once and every laid-down set a meld |
| Scoring.CardPointsByRank | gin_rummy.py:619-641 | a card is worth 5 with rank Ace to 9, 10 with rank 10 to King, and 0 when it is not a catalogue card |
| Scoring.AddSetCards | gin_rummy.py:631-635 | the loop over one set adds the worth of its cards |
| Scoring.SubtractHandCards | gin_rummy.py:637-641 | the loop over the hand subtracts the worth of its cards |
| Scoring.ScorePlayer | gin_rummy.py:630-641 | one player's points become the old points plus set worth minus hand worth |
| Scoring.WinConditions | gin_rummy.py:609-641 | both players' points rise by their gain and nothing else changes |
| Scoring.WinConditionsKeepsCards | gin_rummy.py:609-641 | scoring moves no card: conservation, melds and the game-over test are unaffected |
| Scoring.ScoringAccumulates | gin_rummy.py:629-641 | scoring twice adds the gain twice |
| Scoring.PlayTurn | gin_rummy.py:294-295 | a state whose deck or current hand is empty is scored; any other state is left as it is |
| Scoring.PointsOfPermutation | gin_rummy.py:630-641 | worth depends only on which cards there are |
| Scoring.DeckWorth | gin_rummy.py:619-626 | the 52 cards are worth 36 x 5 + 16 x 10 = 340 points |
| Scoring.GainBounded | gin_rummy.py:629-641 | under conservation one scoring pass moves a player's points by at most 340 either way |
| Lists.RemovePicked | gin_rummy.py:591-601 | distinct in-range positions pick a sub-multiset of the hand, and on a hand without repeats the `remove` loop over the picked cards drops exactly those positions, keeping the order of the rest |
| Lists.PickIsSubMultiset | gin_rummy.py:591-601 | distinct in-range positions pick a sub-multiset of the hand, so each `hand.remove(url)` finds its card |

## Left out

- Page building is left out: the `Page` values, `display_*`, `format_cards`, the instruction pages, `make_set`'s rendering, the server setup and the page-level `assert_equal` cases. It is rendering with no rule logic.
- `random.shuffle` is left out. `DealCards` takes the shuffled deck as a parameter, and `DealtFromStart` assumes only that it is a permutation of the flattened table.
- The image URL strings and the card-backing URL are left out. They are replaced by `Face(id)` and `Back`; an unknown URL is a `Face` with an id of 52 or more.
- Python's negative indexing in `pop`, `hand[i]` and `discard_pile[i]` is left out. Every route requires in-range indices instead, because an out-of-range index makes the source fail.
- Turns.PickUpCard requires a non-empty deck for a draw. It also requires the chosen pile slot to hold a catalogue card, because otherwise `selected_card_coordinates[0]` fails.
- Turns.ConfirmSets requires the selection to be in range and free of repetitions. The selection buttons rule out repetitions: a selected position shows only an unselect button (gin_rummy.py:201-204). They do not keep the positions in range: `discard` never clears `selected_cards` (gin_rummy.py:369-371), so the next player can inherit positions beyond their hand, and then `get_hand(state)[card_index]` fails (gin_rummy.py:593). The model requires in-range positions instead of modelling that failure.
- Turns.ConfirmSets also requires some selected card to be a catalogue card, because otherwise `get_card_coordinates(card_urls)[0]` fails.
- Turns.LayDown states the order of the hand left only when no card repeats in the hand. With a repeated card, `hand.remove(url)` takes the first copy, which need not be the selected one. Under conservation the hand never repeats a card (`GameState.ConservedHandDistinct`).
- Turns.DealCards requires exactly 52 cards, the length of any shuffle of the table (`Turns.ShuffledLength`).
- Turns.Play stops at the first request outside `Allowed`. That includes every request the source fails on, and also negative discard positions and selections with repeats, which the source serves but the model does not cover.
- Turns.Play covers the four turn routes only. A second `deal_cards` and a bare `play_turn` are not requests of the model; dealing twice would add a second deck to the cards in play (`Turns.DealCards`), so conservation holds only for a game dealt once.
- Turns.Discard, Turns.PickUpCard and Turns.ConfirmSets: `play_turn`'s scoring pass is stated through `SameCards` (everything but the points, names included). The exact points are stated by `Scoring.PlayTurn`.
- Cards.GetCardCoordinates states only a length bound in its own contract. Its meaning is in `Cards.CoordinatesMeaning`.
- The players' names are left out beyond their assignment in `deal_cards`. They are display text.
- The phase is recorded but never checked, as in the source. No route is guarded by it.
