/** The point arithmetic of `win_conditions`: Ace to 9 are worth 5, 10 to King
    are worth 10, laid-down cards count for a player and cards left in hand
    against, and the result is added onto the points the player already has. */
module Scoring {
  import opened Lists
  import opened Cards
  import opened GameState

  /** `five_point_cards`: rows 0..8 of the table, flattened. */
  function FivePointCards(): seq<Card> {
    Flatten(Catalogue()[..9])
  }

  /** `ten_point_cards`: rows 9..12 of the table, flattened. */
  function TenPointCards(): seq<Card> {
    Flatten(Catalogue()[9..])
  }

  /** The two membership tests the scoring loops apply to one card. */
  function CardPoints(c: Card): nat {
    (if c in FivePointCards() then 5 else 0) + (if c in TenPointCards() then 10 else 0)
  }

  /** A card is worth 5 when its rank is Ace to 9, 10 when it is 10 to King,
      and nothing when it is not a catalogue card. */
  lemma CardPointsByRank(c: Card)
    ensures CardPoints(c) == if !Known(c) then 0 else if CoordOf(c).rank < 9 then 5 else 10
  {
    FlattenRows(0, 9);
    FlattenRows(9, RankCount);
    assert Catalogue()[..9] == Catalogue()[0..9];
    assert Catalogue()[9..] == Catalogue()[9..RankCount];
    if c in FivePointCards() {
      var i :| 0 <= i < |FivePointCards()| && FivePointCards()[i] == c;
      assert c == Face(i);
    }
    if c in TenPointCards() {
      var i :| 0 <= i < |TenPointCards()| && TenPointCards()[i] == c;
      assert c == Face(36 + i);
    }
    if Known(c) && c.id < 36 {
      assert FivePointCards()[c.id] == c;
    }
    if Known(c) && c.id >= 36 {
      assert TenPointCards()[c.id - 36] == c;
    }
  }

  /** The total worth of a list of cards. */
  function Points(cs: seq<Card>): (v: nat) {
    if cs == [] then 0 else CardPoints(cs[0]) + Points(cs[1..])
  }

  lemma {:induction false} PointsAppend(a: seq<Card>, b: seq<Card>)
    ensures Points(a + b) == Points(a) + Points(b)
  {
    if a != [] {
      assert (a + b)[0] == a[0];
      assert (a + b)[1..] == a[1..] + b;
      PointsAppend(a[1..], b);
    } else {
      assert a + b == b;
    }
  }

  lemma {:induction false} PointsRemoveFirst(s: seq<Card>, x: Card)
    requires x in s
    ensures Points(s) == CardPoints(x) + Points(RemoveFirst(s, x))
  {
    if s[0] != x {
      assert x in s[1..] by {
        var k :| 0 <= k < |s| && s[k] == x;
        assert s[1..][k - 1] == x;
      }
      PointsRemoveFirst(s[1..], x);
      assert ([s[0]] + RemoveFirst(s[1..], x))[1..] == RemoveFirst(s[1..], x);
    }
  }

  /** Worth depends only on which cards there are, not on their order. */
  lemma {:induction false} PointsOfPermutation(a: seq<Card>, b: seq<Card>)
    requires multiset(a) == multiset(b)
    ensures Points(a) == Points(b)
    decreases |a|
  {
    if a != [] {
      assert a == [a[0]] + a[1..];
      assert a[0] in multiset(b);
      var b' := RemoveFirst(b, a[0]);
      assert multiset(a[1..]) == multiset(b');
      PointsOfPermutation(a[1..], b');
      PointsRemoveFirst(b, a[0]);
    }
  }

  /** Removing cards one by one (`hand.remove(url)` for each url) removes
      exactly their worth. */
  lemma PointsRemoveEach(s: seq<Card>, xs: seq<Card>)
    requires multiset(xs) <= multiset(s)
    ensures Points(RemoveEach(s, xs)) + Points(xs) == Points(s)
  {
    var r := RemoveEach(s, xs);
    PointsAppend(r, xs);
    assert multiset(r + xs) == multiset(s) by {
      forall z ensures multiset(r + xs)[z] == multiset(s)[z] {
        assert multiset(r)[z] == multiset(s)[z] - multiset(xs)[z];
      }
    }
    PointsOfPermutation(r + xs, s);
  }

  /** What the end of the game adds to a player's points: the worth of the
      laid-down cards minus the worth of the hand. */
  function Gain(p: Player): int {
    Points(Flatten(p.sets)) - Points(p.hand)
  }

  /** The scoring loops for one player: every card of every set in order, then
      every card of the hand, each adding or subtracting its worth. */
  method ScorePlayer(p: Player) returns (points: int)
    ensures points == p.points + Gain(p)
  {
    points := p.points;
    for k := 0 to |p.sets|
      invariant points == p.points + Points(Flatten(p.sets[..k]))
    {
      assert p.sets[..k + 1][..k] == p.sets[..k];
      PointsAppend(Flatten(p.sets[..k]), p.sets[k]);
      points := AddSetCards(points, p.sets[k]);
    }
    assert p.sets[..|p.sets|] == p.sets;
    points := SubtractHandCards(points, p.hand);
  }

  /** The loop over one laid-down set: each card adds 5 when it is a
      five-point card and 10 when it is a ten-point card. */
  method AddSetCards(start: int, cards: seq<Card>) returns (points: int)
    ensures points == start + Points(cards)
  {
    points := start;
    for j := 0 to |cards|
      invariant points == start + Points(cards[..j])
    {
      assert cards[..j + 1] == cards[..j] + [cards[j]];
      PointsAppend(cards[..j], [cards[j]]);
      if cards[j] in FivePointCards() {
        points := points + 5;
      }
      if cards[j] in TenPointCards() {
        points := points + 10;
      }
    }
    assert cards[..|cards|] == cards;
  }

  /** The loop over the hand: each card takes its worth away again. */
  method SubtractHandCards(start: int, cards: seq<Card>) returns (points: int)
    ensures points == start - Points(cards)
  {
    points := start;
    for j := 0 to |cards|
      invariant points == start - Points(cards[..j])
    {
      assert cards[..j + 1] == cards[..j] + [cards[j]];
      PointsAppend(cards[..j], [cards[j]]);
      if cards[j] in FivePointCards() {
        points := points - 5;
      }
      if cards[j] in TenPointCards() {
        points := points - 10;
      }
    }
    assert cards[..|cards|] == cards;
  }

  /** `win_conditions`: both players' points are raised by their gain. Nothing
      else in the state changes. */
  function WinConditions(s: State): (r: State)
    ensures r.player0.points == s.player0.points + Gain(s.player0)
    ensures r.player1.points == s.player1.points + Gain(s.player1)
    ensures r.player0 == s.player0.(points := r.player0.points)
    ensures r.player1 == s.player1.(points := r.player1.points)
    ensures r.deck == s.deck && r.pile == s.pile && r.current == s.current
    ensures r.phase == s.phase && r.selected == s.selected
  {
    s.(player0 := s.player0.(points := s.player0.points + Gain(s.player0)),
       player1 := s.player1.(points := s.player1.points + Gain(s.player1)))
  }

  /** Scoring moves no card: conservation, the laid-down melds and the
      game-over test are all unaffected. */
  lemma WinConditionsKeepsCards(s: State)
    ensures InPlay(WinConditions(s)) == InPlay(s)
    ensures Conserved(WinConditions(s)) <==> Conserved(s)
    ensures MeldsValid(WinConditions(s)) <==> MeldsValid(s)
    ensures GameOver(WinConditions(s)) <==> GameOver(s)
  {
  }

  /** Points accumulate rather than being assigned: every further scoring pass
      over a finished game adds the same gain again. */
  lemma {:induction false} ScoringAccumulates(s: State)
    ensures var twice := WinConditions(WinConditions(s));
            && twice.player0.points == s.player0.points + 2 * Gain(s.player0)
            && twice.player1.points == s.player1.points + 2 * Gain(s.player1)
  {
    var once := WinConditions(s);
    assert once.player0.hand == s.player0.hand && once.player0.sets == s.player0.sets;
    assert once.player1.hand == s.player1.hand && once.player1.sets == s.player1.sets;
  }

  /** `play_turn` with the page stripped: a finished game is scored, any other
      state is left as it is. */
  function PlayTurn(s: State): (r: State)
    ensures GameOver(s) ==> r == WinConditions(s)
    ensures !GameOver(s) ==> r == s
  {
    if GameOver(s) then WinConditions(s) else s
  }

  /** Every card of a list worth the same amount. */
  lemma {:induction false} PointsOfUniform(cs: seq<Card>, v: nat)
    requires forall i :: 0 <= i < |cs| ==> CardPoints(cs[i]) == v
    ensures Points(cs) == v * |cs|
  {
    if cs != [] {
      PointsOfUniform(cs[1..], v);
    }
  }

  /** The whole deck is worth 36 * 5 + 16 * 10 = 340 points, so no player can
      gain more than 340 or lose more than 340 in one scoring pass of a game
      that conserves its cards. */
  lemma DeckWorth()
    ensures Points(FullDeck()) == 340
  {
    FiveWorth();
    TenWorth();
    assert Catalogue() == Catalogue()[..9] + Catalogue()[9..];
    FlattenConcat(Catalogue()[..9], Catalogue()[9..]);
    PointsAppend(FivePointCards(), TenPointCards());
  }

  lemma FiveWorth()
    ensures Points(FivePointCards()) == 180
  {
    FlattenRows(0, 9);
    assert Catalogue()[..9] == Catalogue()[0..9];
    forall i | 0 <= i < |FivePointCards()| ensures CardPoints(FivePointCards()[i]) == 5 {
      CardPointsByRank(FivePointCards()[i]);
    }
    PointsOfUniform(FivePointCards(), 5);
  }

  lemma TenWorth()
    ensures Points(TenPointCards()) == 160
  {
    FlattenRows(9, RankCount);
    assert Catalogue()[9..] == Catalogue()[9..RankCount];
    forall i | 0 <= i < |TenPointCards()| ensures CardPoints(TenPointCards()[i]) == 10 {
      CardPointsByRank(TenPointCards()[i]);
    }
    PointsOfUniform(TenPointCards(), 10);
  }

  /** Cards drawn from the deck, each at most once, are worth at most the
      whole deck. */
  lemma PointsWithinDeck(held: seq<Card>)
    requires multiset(held) <= multiset(FullDeck())
    ensures Points(held) <= 340
  {
    DeckWorth();
    PointsRemoveEach(FullDeck(), held);
  }

  /** Under conservation one scoring pass moves a player's points by at most
      the worth of the whole deck, in either direction. */
  lemma GainBounded(s: State)
    requires Conserved(s)
    ensures -340 <= Gain(Active(s)) <= 340
    ensures -340 <= Gain(Waiting(s)) <= 340
  {
    var a, w := Active(s), Waiting(s);
    assert multiset(a.hand) <= multiset(FullDeck()) && multiset(Flatten(a.sets)) <= multiset(FullDeck());
    assert multiset(w.hand) <= multiset(FullDeck()) && multiset(Flatten(w.sets)) <= multiset(FullDeck());
    PointsWithinDeck(a.hand);
    PointsWithinDeck(Flatten(a.sets));
    PointsWithinDeck(w.hand);
    PointsWithinDeck(Flatten(w.sets));
  }
}
