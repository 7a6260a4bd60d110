/** The turn routes with their pages stripped: each is a state update,
    followed by `play_turn` (and so possibly by scoring) where the source
    returns `play_turn(state)`. */
module Turns {
  import opened Lists
  import opened Cards
  import opened Melds
  import opened GameState
  import opened Scoring

  /** Everything but the points is the same: the only thing `play_turn` can
      change is the points. */
  predicate SameCards(r: State, s: State) {
    && r.deck == s.deck && r.pile == s.pile && r.current == s.current
    && r.phase == s.phase && r.selected == s.selected
    && r.player0.hand == s.player0.hand && r.player0.sets == s.player0.sets
    && r.player1.hand == s.player1.hand && r.player1.sets == s.player1.sets
    && r.player0.name == s.player0.name && r.player1.name == s.player1.name
  }

  lemma PlayTurnMovesNoCard(s: State)
    ensures SameCards(PlayTurn(s), s)
    ensures InPlay(PlayTurn(s)) == InPlay(s)
    ensures Conserved(PlayTurn(s)) <==> Conserved(s)
    ensures MeldsValid(PlayTurn(s)) <==> MeldsValid(s)
  {
    WinConditionsKeepsCards(s);
  }

  // ------------------------------------------------------------- discard

  /** The body of `discard`: the card at position `i` leaves the hand and goes
      on top of the discard pile, the turn passes and the phase becomes
      "pick". The selection is left as it is. */
  function DiscardCard(s: State, i: int): (r: State)
    requires 0 <= i < |Hand(s)|
    ensures Active(r) == Waiting(s)
    ensures Waiting(r) == Active(s).(hand := Pop(Hand(s), i))
    ensures r.pile == s.pile + [Hand(s)[i]]
    ensures r.current == !s.current && r.phase == Picking
    ensures r.deck == s.deck && r.selected == s.selected
  {
    var p := Active(s);
    WithActive(s, p.(hand := Pop(p.hand, i))).(pile := s.pile + [p.hand[i]], current := !s.current, phase := Picking)
  }

  /** The `discard` route. */
  function Discard(s: State, i: int): (r: State)
    requires 0 <= i < |Hand(s)|
    ensures SameCards(r, DiscardCard(s, i))
  {
    PlayTurnMovesNoCard(DiscardCard(s, i));
    PlayTurn(DiscardCard(s, i))
  }

  /** Discarding moves one card from the hand to the pile: nothing is lost or
      created, slot 0 keeps the backing, and no meld changes. */
  lemma DiscardKeeps(s: State, i: int)
    requires 0 <= i < |Hand(s)|
    ensures |s.pile| > 0 ==> InPlay(Discard(s, i)) == InPlay(s)
    ensures Conserved(s) ==> Conserved(Discard(s, i))
    ensures MeldsValid(s) ==> MeldsValid(Discard(s, i))
    ensures |Waiting(Discard(s, i)).hand| == |Hand(s)| - 1 && |Discard(s, i).pile| == |s.pile| + 1
  {
    var d := DiscardCard(s, i);
    PlayTurnMovesNoCard(d);
    if |s.pile| > 0 {
      DiscardCardInPlay(s, i);
    }
    MeldsValidBySets(Discard(s, i), s);
    if Conserved(s) {
      ConservedByInPlay(Discard(s, i), s);
    }
  }

  lemma DiscardCardInPlay(s: State, i: int)
    requires 0 <= i < |Hand(s)| && |s.pile| > 0
    ensures InPlay(DiscardCard(s, i)) == InPlay(s)
  {
    var d := DiscardCard(s, i);
    var h := Hand(s);
    assert PlayerCards(Waiting(d)) + multiset{h[i]} == PlayerCards(Active(s));
    assert PlayerCards(Active(d)) == PlayerCards(Waiting(s));
    assert Discarded(d) == Discarded(s) + [h[i]];
  }

  // ------------------------------------------------------------- pick up

  /** The `pop(card_index)` loop of `pick_up_card`: it runs once per card from
      `card_index` to the end of the pile, each time moving the card now at
      `card_index` to the end of the candidate hand. */
  method MoveTail(hand: seq<Card>, pile: seq<Card>, i: int) returns (hand': seq<Card>, pile': seq<Card>)
    requires 0 <= i <= |pile|
    ensures hand' == hand + pile[i..]
    ensures pile' == pile[..i]
  {
    hand', pile' := hand, pile;
    for j := i to |pile|
      invariant |pile'| == |pile| - (j - i)
      invariant pile' == pile[..i] + pile[j..]
      invariant hand' == hand + pile[i..j]
    {
      assert pile'[i] == pile[j];
      hand' := hand' + [pile'[i]];
      pile' := Pop(pile', i);
      assert pile[i..j + 1] == pile[i..j] + [pile[j]];
      assert pile' == pile[..i] + pile[j + 1..];
    }
  }

  /** The state after a successful pickup from the pile at position `i`: the
      hand gains every pile card from `i` on, the pile keeps the cards before
      `i`, and the phase becomes "discard". */
  function TakeFromPile(s: State, i: int): (r: State)
    requires 0 < i < |s.pile|
    ensures Hand(r) == Hand(s) + s.pile[i..] && r.pile == s.pile[..i] && r.phase == Discarding
    ensures Active(r) == Active(s).(hand := Hand(s) + s.pile[i..]) && Waiting(r) == Waiting(s)
    ensures r.deck == s.deck && r.current == s.current && r.selected == s.selected
  {
    WithActive(s, Active(s).(hand := Hand(s) + s.pile[i..])).(pile := s.pile[..i], phase := Discarding)
  }

  /** The state after drawing from the deck: its front card goes to the end of
      the hand and the phase becomes "discard". */
  function DrawFromDeck(s: State): (r: State)
    requires |s.deck| > 0
    ensures Hand(r) == Hand(s) + [s.deck[0]] && r.deck == s.deck[1..] && r.phase == Discarding
    ensures Active(r) == Active(s).(hand := Hand(s) + [s.deck[0]]) && Waiting(r) == Waiting(s)
    ensures r.pile == s.pile && r.current == s.current && r.selected == s.selected
  {
    WithActive(s, Active(s).(hand := Hand(s) + [s.deck[0]])).(deck := s.deck[1..], phase := Discarding)
  }

  /** Whether the pile card at `i` may be taken: the candidate hand (hand plus
      every pile card from `i` on) holds a set through that card, extra cards
      allowed. */
  predicate PickupAllowed(s: State, i: int)
    requires 0 < i < |s.pile| && Known(s.pile[i])
  {
    var anchor := GetCardCoordinates([s.pile[i]])[0];
    ValidSet(Probing, Hand(s) + s.pile[i..], anchor.rank, anchor.suit)
  }

  /** The `pick_up_card` route. Index 0 and below draw from the deck (slot 0
      of the pile is the backing, never a real card); a higher index takes
      the pile from that card on when the candidate hand holds a set through
      it and otherwise leaves the state alone. The deck must not be empty and
      the chosen pile card must be a catalogue card, or the source fails. */
  function PickUpCard(s: State, i: int): (r: State)
    requires i <= 0 ==> |s.deck| > 0
    requires i > 0 ==> i < |s.pile| && Known(s.pile[i])
    ensures i <= 0 ==> SameCards(r, DrawFromDeck(s))
    ensures i > 0 && PickupAllowed(s, i) ==> r == TakeFromPile(s, i)
    ensures i > 0 && !PickupAllowed(s, i) ==> SameCards(r, s)
  {
    if i > 0 then
      FirstCoordinate([s.pile[i]]);
      if PickupAllowed(s, i) then TakeFromPile(s, i)
      else
        PlayTurnMovesNoCard(s);
        PlayTurn(s)
    else
      PlayTurnMovesNoCard(DrawFromDeck(s));
      PlayTurn(DrawFromDeck(s))
  }

  /** The pickup anchors on the chosen card's own rank and suit, and the pile
      card it anchors on is always among the cards the hand gains. */
  lemma PickupAnchor(s: State, i: int)
    requires 0 < i < |s.pile| && Known(s.pile[i])
    ensures GetCardCoordinates([s.pile[i]]) == [CoordOf(s.pile[i])]
    ensures s.pile[i] in Hand(TakeFromPile(s, i))
  {
    FirstCoordinate([s.pile[i]]);
    assert Hand(TakeFromPile(s, i))[|Hand(s)|] == s.pile[i];
  }

  /** The set a pickup looks for always goes through the chosen card: its
      rank is among the sorted ranks of its suit in the candidate hand, so
      the anchor search finds it and never falls back to position 0. */
  lemma PickupAnchorInRun(s: State, i: int)
    requires 0 < i < |s.pile| && Known(s.pile[i])
    ensures var a := CoordOf(s.pile[i]);
            var ranks := Sort(SuitRanks(GetCardCoordinates(Hand(s) + s.pile[i..]), a.suit));
            a.rank in ranks && ranks[AnchorIndex(ranks, a.rank)] == a.rank
  {
    var a := CoordOf(s.pile[i]);
    var candidates := Hand(s) + s.pile[i..];
    var coords := GetCardCoordinates(candidates);
    assert candidates[|Hand(s)|] == s.pile[i];
    KnownCoordinate(candidates, |Hand(s)|);
    var j :| 0 <= j < |coords| && coords[j] == a;
    var ranks := SuitRanks(coords, a.suit);
    assert a.rank in ranks;
    assert a.rank in multiset(Sort(ranks));
  }

  /** A pickup of either kind moves cards without losing or creating any, the
      backing stays in slot 0, and no meld changes. */
  lemma PickUpKeeps(s: State, i: int)
    requires i <= 0 ==> |s.deck| > 0
    requires i > 0 ==> i < |s.pile| && Known(s.pile[i])
    ensures InPlay(PickUpCard(s, i)) == InPlay(s)
    ensures Conserved(s) ==> Conserved(PickUpCard(s, i))
    ensures MeldsValid(s) ==> MeldsValid(PickUpCard(s, i))
  {
    var r := PickUpCard(s, i);
    if i <= 0 {
      PlayTurnMovesNoCard(DrawFromDeck(s));
      DrawInPlay(s);
    } else if PickupAllowed(s, i) {
      TakeInPlay(s, i);
    } else {
      PlayTurnMovesNoCard(s);
    }
    MeldsValidBySets(r, s);
    if Conserved(s) {
      ConservedByInPlay(r, s);
    }
  }

  lemma DrawInPlay(s: State)
    requires |s.deck| > 0
    ensures InPlay(DrawFromDeck(s)) == InPlay(s)
  {
    var d := DrawFromDeck(s);
    assert s.deck == [s.deck[0]] + s.deck[1..];
    assert PlayerCards(Active(d)) == PlayerCards(Active(s)) + multiset{s.deck[0]};
  }

  lemma TakeInPlay(s: State, i: int)
    requires 0 < i < |s.pile|
    ensures InPlay(TakeFromPile(s, i)) == InPlay(s)
  {
    var t := TakeFromPile(s, i);
    assert s.pile == s.pile[..i] + s.pile[i..];
    assert Discarded(s) == Discarded(t) + s.pile[i..];
    assert PlayerCards(Active(t)) == PlayerCards(Active(s)) + multiset(s.pile[i..]);
  }

  // ------------------------------------------------------------- select

  /** The unselect loop of `select_sets` as Python runs it: the loop walks
      the list by position while the body removes the first occurrence of the
      unselected index, so the element after a removed one is skipped. */
  function UnselectFrom(list: seq<int>, pos: nat, k: int): seq<int>
    decreases |list| + 1 - pos
  {
    if pos >= |list| then list
    else if list[pos] == k then UnselectFrom(RemoveFirst(list, k), pos + 1, k)
    else UnselectFrom(list, pos + 1, k)
  }

  /** The `select_sets` route: selecting appends the hand position, unselecting
      runs the removal loop. Nothing but the selection changes. */
  function SelectSets(s: State, k: int, selected: bool): (r: State)
    ensures selected ==> r.selected == s.selected + [k]
    ensures r == s.(selected := r.selected)
  {
    if selected then s.(selected := s.selected + [k])
    else s.(selected := UnselectFrom(s.selected, 0, k))
  }

  lemma {:induction false} UnselectAbsent(list: seq<int>, pos: nat, k: int)
    requires k !in list
    ensures UnselectFrom(list, pos, k) == list
    decreases |list| + 1 - pos
  {
    if pos < |list| {
      UnselectAbsent(list, pos + 1, k);
    }
  }

  lemma {:induction false} UnselectPast(list: seq<int>, pos: nat, k: int)
    requires Distinct(list)
    requires forall j :: 0 <= j < pos && j < |list| ==> list[j] != k
    ensures UnselectFrom(list, pos, k) == Without(list, k)
    decreases |list| + 1 - pos
  {
    if pos >= |list| {
      assert k !in list;
      WithoutAbsent(list, k);
    } else if list[pos] == k {
      RemoveFirstOfDistinct(list, k);
      UnselectAbsent(Without(list, k), pos + 1, k);
    } else {
      UnselectPast(list, pos + 1, k);
    }
  }

  /** On a selection without repetitions the loop removes exactly the
      unselected position and keeps the others in order. */
  lemma UnselectRemoves(s: State, k: int)
    requires Distinct(s.selected)
    ensures SelectSets(s, k, false).selected == Without(s.selected, k)
    ensures Distinct(SelectSets(s, k, false).selected)
  {
    UnselectPast(s.selected, 0, k);
    WithoutKeepsDistinct(s.selected, k);
  }

  lemma {:induction false} RemoveFirstOfLast(list: seq<int>, k: int)
    requires k !in list
    ensures RemoveFirst(list + [k], k) == list
  {
    if list != [] {
      assert (list + [k])[1..] == list[1..] + [k];
      RemoveFirstOfLast(list[1..], k);
      assert list == [list[0]] + list[1..];
    }
  }

  /** Unselecting a position just selected gives back the selection as it
      was, when that position was not selected already. */
  lemma SelectThenUnselect(s: State, k: int)
    requires Distinct(s.selected) && k !in s.selected
    ensures SelectSets(SelectSets(s, k, true), k, false) == s
  {
    var sel := s.selected + [k];
    assert Distinct(sel) by {
      forall i, j | 0 <= i < j < |sel| ensures sel[i] != sel[j] {
        if j == |sel| - 1 {
          assert sel[i] == s.selected[i];
        }
      }
    }
    UnselectPast(sel, 0, k);
    RemoveFirstOfLast(s.selected, k);
    RemoveFirstOfDistinct(sel, k);
  }

  /** With a position selected twice, one unselect leaves a copy behind: the
      loop skips the second copy after removing the first. */
  lemma UnselectSkipsDuplicate(k: int)
    ensures UnselectFrom([k, k], 0, k) == [k]
  {
    assert RemoveFirst([k, k], k) == [k];
  }

  // ------------------------------------------------------------- confirm

  /** The selected cards, in selection order (`card_urls`). */
  function SelectedCards(s: State): (cards: seq<Card>)
    requires forall j :: 0 <= j < |s.selected| ==> 0 <= s.selected[j] < |Hand(s)|
    ensures |cards| == |s.selected|
    ensures forall j :: 0 <= j < |cards| ==> cards[j] == Hand(s)[s.selected[j]]
  {
    Pick(Hand(s), s.selected)
  }

  /** The state after a successful confirm: the selected cards become a new
      set and leave the hand, and the selection is cleared. On a hand without
      repeated cards (`GameState.ConservedHandDistinct`), the cards left keep
      their order, so later positions mean what they meant before. */
  function LayDown(s: State): (r: State)
    requires SelectionOk(s)
    ensures Active(r).sets == Active(s).sets + [SelectedCards(s)]
    ensures multiset(Hand(r)) + multiset(SelectedCards(s)) == multiset(Hand(s))
    ensures |Hand(r)| == |Hand(s)| - |s.selected|
    ensures Distinct(Hand(s)) ==> Hand(r) == Drop(Hand(s), s.selected)
    ensures Waiting(r) == Waiting(s) && Active(r) == Active(s).(hand := Hand(r), sets := Active(r).sets)
    ensures r.deck == s.deck && r.pile == s.pile && r.current == s.current
    ensures r.phase == s.phase && r.selected == []
  {
    var cards := SelectedCards(s);
    RemovePicked(Hand(s), s.selected);
    var p := Active(s);
    WithActive(s, p.(sets := p.sets + [cards], hand := RemoveEach(p.hand, cards))).(selected := [])
  }

  /** The `confirm_sets` route. An empty selection changes nothing; otherwise
      the selected cards, anchored on the first of them, are laid down when
      they pass the selecting check and the selection is cleared either way.
      The selection must be in range and free of repetitions, and some
      selected card must be a catalogue card, or the source fails. */
  function ConfirmSets(s: State): (r: State)
    requires SelectionOk(s)
    requires s.selected != [] ==> |GetCardCoordinates(SelectedCards(s))| > 0
    ensures s.selected == [] ==> SameCards(r, s)
    ensures s.selected != [] && IsMeld(SelectedCards(s)) ==> SameCards(r, LayDown(s))
    ensures s.selected != [] && !IsMeld(SelectedCards(s)) ==> r == s.(selected := [])
  {
    if s.selected == [] then
      PlayTurnMovesNoCard(s);
      PlayTurn(s)
    else
      var cards := SelectedCards(s);
      var anchor := GetCardCoordinates(cards)[0];
      if ValidSet(Selecting, cards, anchor.rank, anchor.suit) then
        PlayTurnMovesNoCard(LayDown(s));
        PlayTurn(LayDown(s))
      else
        s.(selected := [])
  }

  /** Under conservation a non-empty selection always has a catalogue card
      to anchor on. */
  lemma ConservedConfirmable(s: State)
    requires Conserved(s) && SelectionOk(s) && s.selected != []
    ensures |GetCardCoordinates(SelectedCards(s))| > 0
  {
    ConservedCardsAreKnown(s);
    FirstCoordinate(SelectedCards(s));
  }

  /** Confirming moves cards from the hand into a new set without losing or
      creating any, and every set laid down is a meld. */
  lemma ConfirmKeeps(s: State)
    requires SelectionOk(s)
    requires s.selected != [] ==> |GetCardCoordinates(SelectedCards(s))| > 0
    ensures InPlay(ConfirmSets(s)) == InPlay(s)
    ensures Conserved(s) ==> Conserved(ConfirmSets(s))
    ensures MeldsValid(s) ==> MeldsValid(ConfirmSets(s))
  {
    ConfirmInPlay(s);
    ConfirmMelds(s);
    if Conserved(s) {
      ConservedByInPlay(ConfirmSets(s), s);
    }
  }

  lemma ConfirmInPlay(s: State)
    requires SelectionOk(s)
    requires s.selected != [] ==> |GetCardCoordinates(SelectedCards(s))| > 0
    ensures InPlay(ConfirmSets(s)) == InPlay(s)
    ensures ConfirmSets(s).pile == s.pile
  {
    if s.selected != [] && IsMeld(SelectedCards(s)) {
      PlayTurnMovesNoCard(LayDown(s));
      LayDownInPlay(s);
    } else {
      PlayTurnMovesNoCard(s);
    }
  }

  lemma ConfirmMelds(s: State)
    requires SelectionOk(s)
    requires s.selected != [] ==> |GetCardCoordinates(SelectedCards(s))| > 0
    ensures MeldsValid(s) ==> MeldsValid(ConfirmSets(s))
  {
    var r := ConfirmSets(s);
    if s.selected != [] && IsMeld(SelectedCards(s)) {
      if MeldsValid(s) {
        LaidDownSetsAreMelds(s);
        MeldsValidBySets(r, LayDown(s));
      }
    } else {
      MeldsValidBySets(r, s);
    }
  }

  lemma LayDownInPlay(s: State)
    requires SelectionOk(s)
    ensures InPlay(LayDown(s)) == InPlay(s)
  {
    LaidDownCards(s);
    var l := LayDown(s);
    assert Discarded(l) == Discarded(s) && Waiting(l) == Waiting(s);
  }

  /** Laying down moves cards between the hand and the sets of one player. */
  lemma LaidDownCards(s: State)
    requires SelectionOk(s)
    ensures PlayerCards(Active(LayDown(s))) == PlayerCards(Active(s))
  {
    var l, cards, sets := LayDown(s), SelectedCards(s), Active(s).sets;
    assert multiset(Flatten(Active(l).sets)) == multiset(Flatten(sets)) + multiset(cards) by {
      FlattenAppend(sets, cards);
    }
    MoveBetween(multiset(Hand(l)), multiset(Flatten(Active(l).sets)),
                multiset(Hand(s)), multiset(Flatten(sets)), multiset(cards));
  }

  /** Moving `x` from one part of a collection to another keeps the whole. */
  lemma MoveBetween<T>(from': multiset<T>, to': multiset<T>, from: multiset<T>, to: multiset<T>, x: multiset<T>)
    requires from' + x == from && to' == to + x
    ensures from' + to' == from + to
  {
    forall z ensures (from' + to')[z] == (from + to)[z] {
      assert (from' + x)[z] == from[z];
    }
  }

  lemma LaidDownSetsAreMelds(s: State)
    requires SelectionOk(s) && s.selected != [] && IsMeld(SelectedCards(s)) && MeldsValid(s)
    ensures MeldsValid(LayDown(s))
  {
    AllMeldsSnoc(Active(s).sets, SelectedCards(s));
  }

  /** A successful confirm raises what the end of the game will add to the
      player's points by twice the worth of the cards laid down: they stop
      counting against the player and start counting for. */
  lemma ConfirmRaisesGain(s: State)
    requires SelectionOk(s) && s.selected != [] && IsMeld(SelectedCards(s))
    ensures Gain(Active(ConfirmSets(s))) == Gain(Active(s)) + 2 * Points(SelectedCards(s))
  {
    var l := LayDown(s);
    var cards := SelectedCards(s);
    PlayTurnMovesNoCard(l);
    FlattenAppend(Active(s).sets, cards);
    PointsAppend(Flatten(Active(s).sets), cards);
    PickIsSubMultiset(Hand(s), s.selected);
    PointsRemoveEach(Hand(s), cards);
    assert Active(ConfirmSets(s)).hand == Hand(l) && Active(ConfirmSets(s)).sets == Active(l).sets;
  }

  // ------------------------------------------------------------- dealing

  /** The dealing part of `deal_cards`. `shuffled` is what `shuffle_deck`
      returns: some order of the flattened table, so 52 cards
      (`ShuffledLength`). Seven rounds hand the front
      card to the first player and the next to the second, then the next card
      goes onto the discard pile; the rest is the deck. Cards already in the
      hands or on the pile stay where they are. */
  method DealCards(s: State, shuffled: seq<Card>, name0: string, name1: string) returns (r: State)
    requires |shuffled| == DeckSize
    ensures r.deck == shuffled[15..] && r.pile == s.pile + [shuffled[14]]
    ensures r.player0.name == name0 && r.player1.name == name1
    ensures |r.player0.hand| == |s.player0.hand| + 7 && r.player0.hand[..|s.player0.hand|] == s.player0.hand
    ensures |r.player1.hand| == |s.player1.hand| + 7 && r.player1.hand[..|s.player1.hand|] == s.player1.hand
    ensures forall k :: 0 <= k < 7 ==> r.player0.hand[|s.player0.hand| + k] == shuffled[2 * k]
    ensures forall k :: 0 <= k < 7 ==> r.player1.hand[|s.player1.hand| + k] == shuffled[2 * k + 1]
    ensures r.player0.sets == s.player0.sets && r.player1.sets == s.player1.sets
    ensures r.player0.points == s.player0.points && r.player1.points == s.player1.points
    ensures r.current == s.current && r.phase == s.phase && r.selected == s.selected
    ensures !GameOver(r)
    ensures |s.pile| > 0 ==> InPlay(r) + multiset(s.deck) == InPlay(s) + multiset(shuffled)
    ensures MeldsValid(r) <==> MeldsValid(s)
  {
    var hand0, hand1, deck := DealRounds(s.player0.hand, s.player1.hand, shuffled);
    assert deck == [deck[0]] + deck[1..];
    var pile := s.pile + [deck[0]];
    deck := deck[1..];
    r := s.(deck := deck, pile := pile,
            player0 := s.player0.(name := name0, hand := hand0),
            player1 := s.player1.(name := name1, hand := hand1));
    assert |Hand(r)| > 0;
    MeldsValidBySets(r, s);
    if |s.pile| > 0 {
      DealtInPlay(s, r, shuffled);
    }
  }

  lemma ShuffledLength(shuffled: seq<Card>)
    requires multiset(shuffled) == multiset(FullDeck())
    ensures |shuffled| == DeckSize
  {
    FullDeckLists(Back);
    assert |multiset(shuffled)| == |multiset(FullDeck())|;
  }

  /** The seven dealing rounds. */
  method DealRounds(h0: seq<Card>, h1: seq<Card>, shuffled: seq<Card>)
      returns (hand0: seq<Card>, hand1: seq<Card>, deck: seq<Card>)
    requires |shuffled| >= 14
    ensures deck == shuffled[14..]
    ensures |hand0| == |h0| + 7 && hand0[..|h0|] == h0
    ensures |hand1| == |h1| + 7 && hand1[..|h1|] == h1
    ensures forall k :: 0 <= k < 7 ==> hand0[|h0| + k] == shuffled[2 * k]
    ensures forall k :: 0 <= k < 7 ==> hand1[|h1| + k] == shuffled[2 * k + 1]
    ensures multiset(hand0) + multiset(hand1) + multiset(deck) == multiset(h0) + multiset(h1) + multiset(shuffled)
  {
    hand0, hand1, deck := h0, h1, shuffled;
    for i := 0 to 7
      invariant deck == shuffled[2 * i..]
      invariant |hand0| == |h0| + i && hand0[..|h0|] == h0
      invariant |hand1| == |h1| + i && hand1[..|h1|] == h1
      invariant forall k :: 0 <= k < i ==> hand0[|h0| + k] == shuffled[2 * k]
      invariant forall k :: 0 <= k < i ==> hand1[|h1| + k] == shuffled[2 * k + 1]
      invariant multiset(hand0) + multiset(hand1) + multiset(deck) == multiset(h0) + multiset(h1) + multiset(shuffled)
    {
      assert deck == [deck[0]] + [deck[1]] + deck[2..];
      hand0 := hand0 + [deck[0]];
      deck := deck[1..];
      hand1 := hand1 + [deck[0]];
      deck := deck[1..];
    }
  }

  lemma DealtInPlay(s: State, r: State, shuffled: seq<Card>)
    requires |shuffled| == DeckSize && |s.pile| > 0
    requires r.pile == s.pile + [shuffled[14]] && r.deck == shuffled[15..]
    requires multiset(r.player0.hand) + multiset(r.player1.hand) + multiset(shuffled[14..])
             == multiset(s.player0.hand) + multiset(s.player1.hand) + multiset(shuffled)
    requires r.player0.sets == s.player0.sets && r.player1.sets == s.player1.sets
    ensures InPlay(r) + multiset(s.deck) == InPlay(s) + multiset(shuffled)
  {
    var top, deckR, pile := multiset{shuffled[14]}, multiset(r.deck), multiset(Discarded(s));
    var dealt0, dealt1 := multiset(r.player0.hand), multiset(r.player1.hand);
    var held0, held1 := multiset(s.player0.hand), multiset(s.player1.hand);
    var laid0, laid1 := multiset(Flatten(s.player0.sets)), multiset(Flatten(s.player1.sets));
    assert InPlay(r) == deckR + pile + top + (dealt0 + laid0) + (dealt1 + laid1) by {
      DealtSeats(s, r, shuffled[14]);
    }
    assert InPlay(s) == multiset(s.deck) + pile + (held0 + laid0) + (held1 + laid1) by {
      InPlayBySeat(s);
    }
    assert dealt0 + dealt1 + (top + deckR) == held0 + held1 + multiset(shuffled) by {
      SplitAt(shuffled, 14);
    }
    Rebalance(InPlay(r), InPlay(s), deckR, multiset(s.deck), pile, top,
              dealt0, dealt1, held0, held1, laid0, laid1, multiset(shuffled));
  }

  /** Multiset bookkeeping of a deal: what the hands and the pile gained plus
      what is left in the deck is what was held plus the shuffle. */
  lemma Rebalance<T>(inR: multiset<T>, inS: multiset<T>, deckR: multiset<T>, deckS: multiset<T>,
                     pile: multiset<T>, top: multiset<T>, dealt0: multiset<T>, dealt1: multiset<T>,
                     held0: multiset<T>, held1: multiset<T>, laid0: multiset<T>, laid1: multiset<T>,
                     shuffled: multiset<T>)
    requires inR == deckR + pile + top + (dealt0 + laid0) + (dealt1 + laid1)
    requires inS == deckS + pile + (held0 + laid0) + (held1 + laid1)
    requires dealt0 + dealt1 + (top + deckR) == held0 + held1 + shuffled
    ensures inR + deckS == inS + shuffled
  {
    forall z ensures (inR + deckS)[z] == (inS + shuffled)[z] {
      assert (dealt0 + dealt1 + (top + deckR))[z] == (held0 + held1 + shuffled)[z];
    }
  }

  /** Dealing any shuffle of the table onto the start state gives a game
      that keeps the invariant: every catalogue card in play once, the backing
      in slot 0, no sets laid down. The requirements are what `DealCards`
      ensures for the start state. */
  lemma DealtFromStart(r: State, shuffled: seq<Card>)
    requires |shuffled| == DeckSize && multiset(shuffled) == multiset(FullDeck())
    requires InPlay(r) + multiset(Start().deck) == InPlay(Start()) + multiset(shuffled)
    requires r.pile == Start().pile + [shuffled[14]]
    requires MeldsValid(r) <==> MeldsValid(Start())
    ensures Invariant(r)
  {
    forall z ensures InPlay(r)[z] == multiset(shuffled)[z] {
      assert (InPlay(r) + multiset(Start().deck))[z] == (InPlay(Start()) + multiset(shuffled))[z];
    }
    assert InPlay(r) == multiset(shuffled);
  }


  // ------------------------------------------------------------- a whole game

  /** A request the players can make once the cards are dealt. */
  datatype Action =
    | DiscardAt(i: int)
    | PickUp(i: int)
    | Select(k: int, on: bool)
    | Confirm

  /** Conservation together with the rule that every laid-down set is a meld. */
  predicate Invariant(s: State) {
    Conserved(s) && MeldsValid(s)
  }

  /** The requests the model covers, given the invariant: an in-range hand
      position for a discard, a non-empty deck or an in-range pile position
      for a pickup, and an in-range selection without repeats for a confirm.
      Every request the source fails on is outside; so are negative discard
      positions and repeated selections, which the source serves. */
  predicate Allowed(s: State, a: Action) {
    match a
    case DiscardAt(i) => 0 <= i < |Hand(s)|
    case PickUp(i) => (i <= 0 ==> |s.deck| > 0) && (i > 0 ==> i < |s.pile|)
    case Select(_, _) => true
    case Confirm => SelectionOk(s)
  }

  /** One request served by its route. Every route keeps the invariant. */
  function Step(s: State, a: Action): (r: State)
    requires Invariant(s) && Allowed(s, a)
    ensures Invariant(r) && InPlay(r) == InPlay(s)
  {
    match a
    case DiscardAt(i) =>
      DiscardKeeps(s, i);
      Discard(s, i)
    case PickUp(i) =>
      ConservedCardsAreKnown(s);
      PickUpKeeps(s, i);
      PickUpCard(s, i)
    case Select(k, on) =>
      MeldsValidBySets(SelectSets(s, k, on), s);
      ConservedByInPlay(SelectSets(s, k, on), s);
      SelectSets(s, k, on)
    case Confirm =>
      if s.selected != [] then ConservedConfirmable(s); ConfirmKeeps(s); ConfirmSets(s)
      else ConfirmKeeps(s); ConfirmSets(s)
  }

  /** A sequence of requests, served until the first one outside `Allowed`.
      However the players play, every card stays in play exactly once and
      every laid-down set is a meld. */
  function Play(s: State, actions: seq<Action>): (r: State)
    requires Invariant(s)
    ensures Invariant(r) && InPlay(r) == InPlay(s)
    decreases |actions|
  {
    if actions == [] || !Allowed(s, actions[0]) then s
    else Play(Step(s, actions[0]), actions[1..])
  }
}
