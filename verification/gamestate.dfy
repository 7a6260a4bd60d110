/** The game-state aggregate (`Player` and `State`), the card-conservation
    invariant the turn routes keep, and the game-over test that `play_turn`
    runs before showing any turn. */
module GameState {
  import opened Lists
  import opened Cards
  import opened Melds

  /** The turn phase, a plain string `"pick"` / `"discard"` in the source. */
  datatype Phase = Picking | Discarding

  /** A player: display name, hand, the sets laid down so far, and the score
      the end of the game adds onto. */
  datatype Player = Player(name: string, hand: seq<Card>, sets: seq<seq<Card>>, points: int)

  /** The game state. The source keeps the players in a two-element list
      indexed by the boolean `current_player`; `current == true` selects
      `player1`. The discard pile starts with the card backing in slot 0. */
  datatype State = State(
    deck: seq<Card>,
    player0: Player,
    player1: Player,
    current: bool,
    pile: seq<Card>,
    phase: Phase,
    selected: seq<int>)

  /** `state.players[state.current_player]`. */
  function Active(s: State): Player {
    if s.current then s.player1 else s.player0
  }

  /** The player whose turn it is not. */
  function Waiting(s: State): Player {
    if s.current then s.player0 else s.player1
  }

  /** `get_hand`. */
  function Hand(s: State): seq<Card> {
    Active(s).hand
  }

  /** The state with the active player replaced. */
  function WithActive(s: State, p: Player): (r: State)
    ensures Active(r) == p && Waiting(r) == Waiting(s)
    ensures r.deck == s.deck && r.pile == s.pile && r.current == s.current
    ensures r.phase == s.phase && r.selected == s.selected
  {
    if s.current then s.(player1 := p) else s.(player0 := p)
  }

  /** The state the server starts with: no cards dealt, both players blank,
      the first player to move, and only the card backing on the pile. No
      card is in play yet, no set is laid down, and by the test of
      `play_turn` the game counts as over until the cards are dealt. */
  function Start(): (r: State)
    ensures InPlay(r) == multiset{} && r.pile == [Back]
    ensures MeldsValid(r)
    ensures GameOver(r)
  {
    State([], Player("", [], [], 0), Player("", [], [], 0), false, [Back], Picking, [])
  }

  /** The cards a player holds, in hand or laid down. */
  function PlayerCards(p: Player): multiset<Card> {
    multiset(p.hand) + multiset(Flatten(p.sets))
  }

  /** The real cards of the discard pile: everything after the backing slot. */
  function Discarded(s: State): seq<Card> {
    if s.pile == [] then [] else s.pile[1..]
  }

  /** Every card in play: deck, discard pile after slot 0, both hands and all
      laid-down sets. */
  function InPlay(s: State): multiset<Card> {
    multiset(s.deck) + multiset(Discarded(s)) + PlayerCards(Active(s)) + PlayerCards(Waiting(s))
  }

  /** The cards in play counted by seat rather than by turn. */
  lemma InPlayBySeat(s: State)
    ensures InPlay(s) == multiset(s.deck) + multiset(Discarded(s)) + PlayerCards(s.player0) + PlayerCards(s.player1)
  {
  }

  /** The cards in play once one card has been put on the pile, counted by
      seat. */
  lemma DealtSeats(s: State, r: State, top: Card)
    requires |s.pile| > 0 && r.pile == s.pile + [top]
    ensures InPlay(r) == multiset(r.deck) + multiset(Discarded(s)) + multiset{top}
                         + PlayerCards(r.player0) + PlayerCards(r.player1)
  {
    InPlayBySeat(r);
    PileGrows(s, r, top);
    var before, after := multiset(Discarded(s)), multiset(Discarded(r));
    forall z ensures InPlay(r)[z] == (multiset(r.deck) + before + multiset{top}
                                      + PlayerCards(r.player0) + PlayerCards(r.player1))[z] {
      assert after[z] == before[z] + multiset{top}[z];
    }
  }

  /** Putting a card on the pile adds it to the discarded cards. */
  lemma PileGrows(s: State, r: State, top: Card)
    requires |s.pile| > 0 && r.pile == s.pile + [top]
    ensures multiset(Discarded(r)) == multiset(Discarded(s)) + multiset{top}
  {
    assert Discarded(r) == Discarded(s) + [top];
  }

  /** Card conservation: slot 0 of the pile is the card backing, and the cards
      in play are the 52 catalogue cards, each exactly once. */
  predicate Conserved(s: State) {
    && |s.pile| > 0
    && s.pile[0] == Back
    && InPlay(s) == multiset(FullDeck())
  }

  /** A state holding the same cards in play as a conserving one, with the
      backing still in slot 0, conserves too. */
  lemma ConservedByInPlay(r: State, s: State)
    requires Conserved(s) && InPlay(r) == InPlay(s)
    requires |r.pile| > 0 && r.pile[0] == Back
    ensures Conserved(r)
  {
  }

  /** Only the card backing and catalogue cards are in play. */
  lemma InPlayIsKnown(s: State, c: Card)
    requires Conserved(s) && c in InPlay(s)
    ensures Known(c)
  {
    FullDeckLists(c);
  }

  /** Under conservation the pile's real cards, both hands and the deck hold
      only catalogue cards; in particular every pile slot after 0 can anchor
      a pickup and every selection anchors on a known card. */
  lemma ConservedCardsAreKnown(s: State)
    requires Conserved(s)
    ensures forall i :: 0 < i < |s.pile| ==> Known(s.pile[i])
    ensures forall i :: 0 <= i < |Hand(s)| ==> Known(Hand(s)[i])
    ensures forall i :: 0 <= i < |s.deck| ==> Known(s.deck[i])
  {
    forall i | 0 < i < |s.pile| ensures Known(s.pile[i]) {
      assert s.pile[i] == Discarded(s)[i - 1];
      InPlayIsKnown(s, s.pile[i]);
    }
    forall i | 0 <= i < |Hand(s)| ensures Known(Hand(s)[i]) {
      assert Hand(s)[i] in multiset(Hand(s));
      InPlayIsKnown(s, Hand(s)[i]);
    }
    forall i | 0 <= i < |s.deck| ensures Known(s.deck[i]) {
      assert s.deck[i] in multiset(s.deck);
      InPlayIsKnown(s, s.deck[i]);
    }
  }

  /** Under conservation no card is held twice, so the routes that remove
      cards by value (`hand.remove(url)`) remove the card at the intended
      position. */
  lemma ConservedHandDistinct(s: State)
    requires Conserved(s)
    ensures Distinct(Hand(s))
  {
    FullDeckLists(Back);
    assert Distinct(FullDeck());
    assert multiset(Hand(s)) <= InPlay(s);
    DistinctWithin(Hand(s), FullDeck());
  }

  /** A selection of hand positions the confirm route can resolve: in range,
      and no position twice (the selection buttons offer each position once). */
  predicate SelectionOk(s: State) {
    && Distinct(s.selected)
    && forall j :: 0 <= j < |s.selected| ==> 0 <= s.selected[j] < |Hand(s)|
  }

  /** A laid-down set as the confirm route accepts it: its first card is a
      catalogue card and the cards pass the selecting check anchored there. */
  predicate IsMeld(cards: seq<Card>) {
    var coords := GetCardCoordinates(cards);
    |coords| > 0 && ValidSet(Selecting, cards, coords[0].rank, coords[0].suit)
  }

  /** Every set of the list is a meld. */
  predicate AllMelds(sets: seq<seq<Card>>) {
    forall k :: 0 <= k < |sets| ==> IsMeld(sets[k])
  }

  /** Laying down one more meld keeps every set a meld. */
  lemma AllMeldsSnoc(sets: seq<seq<Card>>, cards: seq<Card>)
    requires AllMelds(sets) && IsMeld(cards)
    ensures AllMelds(sets + [cards])
  {
    forall k | 0 <= k < |sets + [cards]| ensures IsMeld((sets + [cards])[k]) {
      if k < |sets| {
        assert (sets + [cards])[k] == sets[k];
      }
    }
  }

  /** Every set either player has laid down is a meld. */
  predicate MeldsValid(s: State) {
    AllMelds(s.player0.sets) && AllMelds(s.player1.sets)
  }

  /** The melds are a property of the laid-down sets alone. */
  lemma MeldsValidBySets(r: State, s: State)
    requires r.player0.sets == s.player0.sets && r.player1.sets == s.player1.sets
    ensures MeldsValid(r) <==> MeldsValid(s)
  {
  }

  /** A laid-down meld is three or more catalogue cards of one rank, or of one
      suit with ranks rising by one. */
  lemma MeldMeaning(cards: seq<Card>)
    requires IsMeld(cards)
    ensures var coords := GetCardCoordinates(cards);
            |coords| >= 3 && (AllOfRank(coords, coords[0].rank) || SuitRun(coords, coords[0].suit))
  {
    var coords := GetCardCoordinates(cards);
    SelectingValidSetMeaning(cards, coords[0].rank, coords[0].suit);
  }

  /** The test at the top of `play_turn`: the deck is empty or the player to
      move has no cards left. */
  predicate GameOver(s: State) {
    s.deck == [] || Hand(s) == []
  }
}
