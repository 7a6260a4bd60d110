/** The card catalogue: 52 card images laid out as a 13 x 4 table, rank rows
    (0 = Ace … 12 = King) by suit columns (0..3 = hearts, diamonds, clubs,
    spades), plus the card-backing image that fills slot 0 of the discard pile.
    Image URLs are replaced by abstract identities: the image in row `r`,
    column `c` is `Face(4 * r + c)`. */
module Cards {
  import opened Lists

  const RankCount: nat := 13
  const SuitCount: nat := 4
  const DeckSize: nat := 52

  /** A card image. `Face(id)` with `id < DeckSize` is a catalogue image; a
      `Face` with a larger id stands for any other image string, which the
      catalogue lookup does not recognise. `Back` is the card-backing image. */
  datatype Card = Face(id: nat) | Back

  predicate Known(c: Card) {
    c.Face? && c.id < DeckSize
  }

  /** A `[row, col]` pair as the meld checks receive it: row is the rank, col
      the suit. The checks accept any integers, so the fields are unbounded. */
  datatype Coord = Coord(rank: int, suit: int)

  /** The unshuffled table `deck`. */
  function Catalogue(): seq<seq<Card>> {
    seq(RankCount, row requires 0 <= row < RankCount => CatalogueRow(row))
  }

  /** One rank row of the table, in suit order. */
  function CatalogueRow(row: nat): seq<Card> {
    seq(SuitCount, col requires 0 <= col < SuitCount => Face(4 * row + col))
  }

  /** The position of a catalogue card in the table. */
  function CoordOf(c: Card): (p: Coord)
    requires Known(c)
    ensures 0 <= p.rank < RankCount && 0 <= p.suit < SuitCount
    ensures c.id == 4 * p.rank + p.suit
  {
    Coord(c.id / 4, c.id % 4)
  }

  /** `deck[rank][suit]`. */
  function CardAt(rank: int, suit: int): Card
    requires 0 <= rank < RankCount && 0 <= suit < SuitCount
  {
    Catalogue()[rank][suit]
  }

  /** The table lists every catalogue card exactly once: position and identity
      determine each other. */
  lemma CatalogueIsBijection(c: Card, rank: int, suit: int)
    requires 0 <= rank < RankCount && 0 <= suit < SuitCount
    ensures Known(CardAt(rank, suit)) && CoordOf(CardAt(rank, suit)) == Coord(rank, suit)
    ensures Known(c) ==> CardAt(CoordOf(c).rank, CoordOf(c).suit) == c
    ensures Known(c) ==> (CardAt(rank, suit) == c <==> CoordOf(c) == Coord(rank, suit))
  {
    var d := CardAt(rank, suit);
    assert d == Face(4 * rank + suit);
    assert CoordOf(d) == Coord(rank, suit) by {
      DivModUnique(d.id, rank, suit);
    }
  }

  lemma DivModUnique(n: nat, q: int, r: int)
    requires 0 <= r < SuitCount && n == 4 * q + r
    ensures n / 4 == q && n % 4 == r
  {
  }

  /** The inner double loop of `get_card_coordinates` for one image, from the
      `k`-th table slot on in row-major order: one `[row, col]` per slot
      holding that image. */
  function LookupFrom(c: Card, k: nat): seq<Coord>
    requires k <= DeckSize
    decreases DeckSize - k
  {
    if k == DeckSize then []
    else
      var p := Coord(k / 4, k % 4);
      (if Catalogue()[p.rank][p.suit] == c then [p] else []) + LookupFrom(c, k + 1)
  }

  /** The scan from slot `k` finds a catalogue card exactly once, at its own
      position, provided it has not been passed yet; it finds nothing else. */
  lemma {:induction false} LookupFromFinds(c: Card, k: nat)
    requires k <= DeckSize
    ensures LookupFrom(c, k) == if Known(c) && k <= c.id then [CoordOf(c)] else []
    decreases DeckSize - k
  {
    if k < DeckSize {
      var p := Coord(k / 4, k % 4);
      SlotHolds(k);
      LookupFromFinds(c, k + 1);
      assert LookupFrom(c, k) == (if Face(k) == c then [p] else []) + LookupFrom(c, k + 1);
      if c == Face(k) {
        assert CoordOf(c) == p;
      }
    }
  }

  /** Slot `k` of the row-major scan holds the card with identity `k`. */
  lemma SlotHolds(k: nat)
    requires k < DeckSize
    ensures k / 4 < RankCount && k % 4 < SuitCount
    ensures Catalogue()[k / 4][k % 4] == Face(k)
  {
    var row, col := k / 4, k % 4;
    assert 4 * row + col == k;
    assert Catalogue()[row] == CatalogueRow(row);
  }

  /** The images the catalogue recognises, in their original order. */
  function KnownCards(urls: seq<Card>): (r: seq<Card>)
    ensures |r| <= |urls|
    ensures forall i :: 0 <= i < |r| ==> Known(r[i])
  {
    if urls == [] then []
    else
      var n := |urls| - 1;
      KnownCards(urls[..n]) + (if Known(urls[n]) then [urls[n]] else [])
  }

  /** The table positions of a list of catalogue cards, in order. */
  function Positions(cs: seq<Card>): (r: seq<Coord>)
    requires forall i :: 0 <= i < |cs| ==> Known(cs[i])
    ensures |r| == |cs|
    ensures forall i :: 0 <= i < |r| ==> r[i] == CoordOf(cs[i])
  {
    if cs == [] then []
    else
      var n := |cs| - 1;
      Positions(cs[..n]) + [CoordOf(cs[n])]
  }

  /** `get_card_coordinates`: the `[row, col]` of every image, in order,
      silently skipping images that are not in the table. */
  function GetCardCoordinates(urls: seq<Card>): (r: seq<Coord>)
    ensures |r| <= |urls|
  {
    if urls == [] then []
    else
      var n := |urls| - 1;
      GetCardCoordinates(urls[..n]) + Lookup(urls[n])
  }

  /** The coordinates are the table positions of the recognised images, in
      their original order. */
  lemma {:induction false} CoordinatesMeaning(urls: seq<Card>)
    ensures GetCardCoordinates(urls) == Positions(KnownCards(urls))
    ensures |GetCardCoordinates(urls)| == |KnownCards(urls)|
    ensures forall i :: 0 <= i < |GetCardCoordinates(urls)| ==>
              GetCardCoordinates(urls)[i] == CoordOf(KnownCards(urls)[i])
  {
    if urls != [] {
      var n := |urls| - 1;
      CoordinatesMeaning(urls[..n]);
      var known := KnownCards(urls[..n]);
      if Known(urls[n]) {
        assert (known + [urls[n]])[..|known|] == known;
      } else {
        assert known + [] == known;
      }
    }
  }

  /** What the inner double loop of `get_card_coordinates` yields for one
      image: its table position when the table holds it, nothing otherwise. */
  function Lookup(c: Card): (r: seq<Coord>)
    ensures |r| <= 1
  {
    if Known(c) then [CoordOf(c)] else []
  }

  /** The row-major scan over the whole table finds exactly what `Lookup`
      says: one `[row, col]` for a catalogue card, at the slot holding it. */
  lemma LookupIsScan(c: Card)
    ensures LookupFrom(c, 0) == Lookup(c)
    ensures Known(c) ==> CardAt(CoordOf(c).rank, CoordOf(c).suit) == c
  {
    LookupFromFinds(c, 0);
    if Known(c) {
      SlotHolds(c.id);
    }
  }

  /** A list of catalogue cards only keeps every card, so each yields its own
      position, in order. */
  lemma CoordinatesOfKnown(urls: seq<Card>)
    requires forall i :: 0 <= i < |urls| ==> Known(urls[i])
    ensures GetCardCoordinates(urls) == Positions(urls)
  {
    KnownCardsOfKnown(urls);
    CoordinatesMeaning(urls);
  }

  lemma {:induction false} KnownCardsOfKnown(urls: seq<Card>)
    requires forall i :: 0 <= i < |urls| ==> Known(urls[i])
    ensures KnownCards(urls) == urls
  {
    if urls != [] {
      var n := |urls| - 1;
      KnownCardsOfKnown(urls[..n]);
      assert urls == urls[..n] + [urls[n]];
    }
  }

  /** Every catalogue card of the input contributes its own position to the
      coordinates. */
  lemma {:induction false} KnownCoordinate(urls: seq<Card>, k: int)
    requires 0 <= k < |urls| && Known(urls[k])
    ensures CoordOf(urls[k]) in GetCardCoordinates(urls)
  {
    var n := |urls| - 1;
    if k < n {
      assert urls[..n][k] == urls[k];
      KnownCoordinate(urls[..n], k);
    } else {
      assert GetCardCoordinates(urls) == GetCardCoordinates(urls[..n]) + [CoordOf(urls[n])];
    }
  }

  /** A list that starts with a catalogue card is anchored on that card. */
  lemma FirstCoordinate(urls: seq<Card>)
    requires |urls| > 0 && Known(urls[0])
    ensures |GetCardCoordinates(urls)| > 0
    ensures GetCardCoordinates(urls)[0] == CoordOf(urls[0])
  {
    KnownCardsKeepsFirst(urls);
  }

  lemma {:induction false} KnownCardsKeepsFirst(urls: seq<Card>)
    requires |urls| > 0 && Known(urls[0])
    ensures |KnownCards(urls)| > 0 && KnownCards(urls)[0] == urls[0]
  {
    var n := |urls| - 1;
    if n > 0 {
      KnownCardsKeepsFirst(urls[..n]);
    }
  }

  /** The first part of `shuffle_deck`: the table flattened row-major. */
  function FullDeck(): seq<Card> {
    Flatten(Catalogue())
  }

  /** Flattening rows `a..b` of the table lists identities `4a .. 4b - 1` in
      increasing order. */
  lemma {:induction false} FlattenRows(a: int, b: int)
    requires 0 <= a <= b <= RankCount
    ensures |Flatten(Catalogue()[a..b])| == 4 * (b - a)
    ensures forall i :: 0 <= i < 4 * (b - a) ==> Flatten(Catalogue()[a..b])[i] == Face(4 * a + i)
  {
    if a < b {
      FlattenRows(a, b - 1);
      assert Catalogue()[a..b][..b - a - 1] == Catalogue()[a..b - 1];
      assert Catalogue()[a..b][b - a - 1] == CatalogueRow(b - 1);
    }
  }

  /** The flattened deck holds every catalogue card once, the card at position
      `i` being the one whose table position is `[i / 4, i % 4]`. */
  lemma FullDeckLists(c: Card)
    ensures |FullDeck()| == DeckSize
    ensures forall i :: 0 <= i < DeckSize ==> FullDeck()[i] == Face(i)
    ensures c in FullDeck() <==> Known(c)
    ensures Back !in FullDeck()
  {
    FlattenRows(0, RankCount);
    assert Catalogue()[0..RankCount] == Catalogue();
    if Known(c) {
      assert FullDeck()[c.id] == c;
    }
  }
}
