/** Meld ("set") validation: `check_standard_rank_set`,
    `check_standard_suit_set` and `valid_set`. Each check is stated twice: a
    predicate saying what the check accepts, and a method that follows the
    source's loops and is proved to agree with it. */
module Melds {
  import opened Cards

  /** The `selecting` flag. `Selecting`: a player proposes exactly these cards
      as one set. `Probing`: a pickup from the discard pile asks whether the
      candidate hand holds a set through the picked card, extra cards allowed. */
  datatype Mode = Selecting | Probing

  // ---------------------------------------------------------------- rank sets

  /** How many coordinates lie in the given rank row. */
  function CountRank(coords: seq<Coord>, rank: int): (n: nat)
    ensures n <= |coords|
  {
    if coords == [] then 0
    else
      var last := |coords| - 1;
      CountRank(coords[..last], rank) + (if coords[last].rank == rank then 1 else 0)
  }

  predicate AllOfRank(coords: seq<Coord>, rank: int) {
    forall i :: 0 <= i < |coords| ==> coords[i].rank == rank
  }

  /** A rank set: at least three cards of the anchor rank and, when selecting,
      no card of any other rank. */
  predicate IsRankSet(mode: Mode, coords: seq<Coord>, rank: int) {
    && (mode == Selecting ==> AllOfRank(coords, rank))
    && CountRank(coords, rank) >= 3
  }

  /** `check_standard_rank_set`: counts the anchor rank, giving up at the first
      other rank when selecting. */
  method CheckStandardRankSet(mode: Mode, coords: seq<Coord>, rank: int) returns (ok: bool)
    ensures ok <==> IsRankSet(mode, coords, rank)
  {
    var setLength := 0;
    for i := 0 to |coords|
      invariant setLength == CountRank(coords[..i], rank)
      invariant mode == Selecting ==> AllOfRank(coords[..i], rank)
    {
      assert coords[..i + 1][..i] == coords[..i];
      if coords[i].rank == rank {
        setLength := setLength + 1;
      } else if mode == Selecting {
        return false;
      }
    }
    assert coords[..|coords|] == coords;
    return setLength >= 3;
  }

  lemma {:induction false} CountRankOfAll(coords: seq<Coord>, rank: int)
    requires AllOfRank(coords, rank)
    ensures CountRank(coords, rank) == |coords|
  {
    if coords != [] {
      CountRankOfAll(coords[..|coords| - 1], rank);
    }
  }

  /** When selecting, a rank set is three or more cards that all share the
      anchor rank. */
  lemma SelectingRankSetMeaning(coords: seq<Coord>, rank: int)
    ensures IsRankSet(Selecting, coords, rank) <==> AllOfRank(coords, rank) && |coords| >= 3
  {
    if AllOfRank(coords, rank) {
      CountRankOfAll(coords, rank);
    }
  }

  // ---------------------------------------------------------------- sorting

  predicate Sorted(s: seq<int>) {
    forall i, j :: 0 <= i < j < |s| ==> s[i] <= s[j]
  }

  function Insert(x: int, s: seq<int>): (r: seq<int>)
    requires Sorted(s)
    ensures Sorted(r) && multiset(r) == multiset(s) + multiset{x}
  {
    if s == [] then [x]
    else if x <= s[0] then
      SortedCons(x, s);
      [x] + s
    else
      var tail := Insert(x, s[1..]);
      InsertBehind(x, s, tail);
      [s[0]] + tail
  }

  /** The step of `Insert` past a smaller head. */
  lemma InsertBehind(x: int, s: seq<int>, tail: seq<int>)
    requires Sorted(s) && s != [] && s[0] < x
    requires Sorted(tail) && multiset(tail) == multiset(s[1..]) + multiset{x}
    ensures Sorted([s[0]] + tail) && multiset([s[0]] + tail) == multiset(s) + multiset{x}
  {
    assert s == [s[0]] + s[1..];
    assert multiset(tail) == multiset(s[1..] + [x]);
    LowerBoundByMultiset(tail, s[1..] + [x], s[0]);
    SortedCons(s[0], tail);
  }

  /** A head no larger than anything after it extends a sorted list. */
  lemma SortedCons(h: int, t: seq<int>)
    requires Sorted(t) && forall k :: 0 <= k < |t| ==> h <= t[k]
    ensures Sorted([h] + t)
  {
  }

  /** A lower bound of every element carries over to any permutation. */
  lemma LowerBoundByMultiset(a: seq<int>, b: seq<int>, lo: int)
    requires multiset(a) == multiset(b)
    requires forall k :: 0 <= k < |b| ==> lo <= b[k]
    ensures forall k :: 0 <= k < |a| ==> lo <= a[k]
  {
    forall k | 0 <= k < |a| ensures lo <= a[k] {
      assert a[k] in multiset(b);
    }
  }

  /** Python's `list.sort()` on integers: the sorted permutation of the input. */
  function Sort(s: seq<int>): (r: seq<int>)
    ensures Sorted(r) && multiset(r) == multiset(s) && |r| == |s|
  {
    if s == [] then []
    else
      assert s == [s[0]] + s[1..];
      Insert(s[0], Sort(s[1..]))
  }

  // ---------------------------------------------------------------- suit sets

  predicate AllOfSuit(coords: seq<Coord>, suit: int) {
    forall i :: 0 <= i < |coords| ==> coords[i].suit == suit
  }

  /** The ranks of the coordinates in the given suit column, in input order. */
  function SuitRanks(coords: seq<Coord>, suit: int): (r: seq<int>)
    ensures |r| <= |coords|
    ensures AllOfSuit(coords, suit) ==> |r| == |coords|
    ensures forall i :: 0 <= i < |coords| && coords[i].suit == suit ==> coords[i].rank in r
  {
    if coords == [] then []
    else
      var last := |coords| - 1;
      var front := SuitRanks(coords[..last], suit);
      assert forall i :: 0 <= i < last ==> coords[i] == coords[..last][i];
      front + (if coords[last].suit == suit then [coords[last].rank] else [])
  }

  /** Where the scan starts: the last position holding the anchor rank, or 0
      when the rank is absent. */
  function AnchorIndex(s: seq<int>, x: int): (t: nat)
    ensures t == 0 || t < |s|
    ensures x in s ==> t < |s| && s[t] == x && forall j :: t < j < |s| ==> s[j] != x
    ensures x !in s ==> t == 0
  {
    if s == [] then 0
    else
      var last := |s| - 1;
      assert s == s[..last] + [s[last]];
      if s[last] == x then last else AnchorIndex(s[..last], x)
  }

  /** How many neighbours to the left of position `i` continue a run of ranks
      rising by exactly one. */
  function RunLeft(s: seq<int>, i: nat): nat
    requires i == 0 || i < |s|
  {
    if i == 0 then 0
    else if s[i - 1] == s[i] - 1 then 1 + RunLeft(s, i - 1)
    else 0
  }

  /** How many neighbours to the right of position `i` continue the run. */
  function RunRight(s: seq<int>, i: nat): nat
    decreases |s| - i
  {
    if i + 1 >= |s| then 0
    else if s[i + 1] == s[i] + 1 then 1 + RunRight(s, i + 1)
    else 0
  }

  /** The counter `set_length`: it starts at 1 for the anchor and grows by one
      for every neighbour the two scans accept. */
  function RunLength(s: seq<int>, t: nat): nat
    requires t == 0 || t < |s|
  {
    1 + RunLeft(s, t) + RunRight(s, t)
  }

  /** Positions `lo..hi` of `s` hold ranks rising by exactly one each step. */
  predicate Consecutive(s: seq<int>, lo: int, hi: int) {
    && 0 <= lo <= hi < |s|
    && forall k :: lo <= k < hi ==> s[k] + 1 == s[k + 1]
  }

  /** All cards in one suit, their sorted ranks rising by one at every step. */
  predicate SuitRun(coords: seq<Coord>, suit: int) {
    AllOfSuit(coords, suit) && Consecutive(Sort(SuitRanks(coords, suit)), 0, |coords| - 1)
  }

  /** A suit set: the sorted ranks of the anchor suit, scanned outwards from
      the anchor position, form a run of at least three; when selecting, every
      card must be of the anchor suit and inside that run. */
  predicate IsSuitSet(mode: Mode, coords: seq<Coord>, rank: int, suit: int) {
    var ranks := Sort(SuitRanks(coords, suit));
    var length := RunLength(ranks, AnchorIndex(ranks, rank));
    match mode
    case Selecting => AllOfSuit(coords, suit) && |coords| == length && length >= 3
    case Probing => length >= 3
  }

  /** `check_standard_suit_set`: collects the ranks of the anchor suit (giving up
      at the first other suit when selecting), sorts them, finds the anchor,
      and scans left and right while ranks step by exactly one. */
  method CheckStandardSuitSet(mode: Mode, coords: seq<Coord>, rank: int, suit: int) returns (ok: bool)
    ensures ok <==> IsSuitSet(mode, coords, rank, suit)
  {
    var onSuit, ranks := CollectSuitRanks(mode, coords, suit);
    if !onSuit {
      return false;
    }
    ranks := Sort(ranks);
    var target := FindAnchor(ranks, rank);
    var setLength := ScanRun(ranks, target);
    if mode == Selecting {
      return |coords| == setLength && setLength >= 3;
    }
    return setLength >= 3;
  }

  /** The first loop of the suit check: the ranks of the anchor suit in input
      order, or `onSuit == false` as soon as a selected card has another suit. */
  method CollectSuitRanks(mode: Mode, coords: seq<Coord>, suit: int) returns (onSuit: bool, ranks: seq<int>)
    ensures onSuit <==> (mode == Selecting ==> AllOfSuit(coords, suit))
    ensures onSuit ==> ranks == SuitRanks(coords, suit)
  {
    ranks := [];
    for i := 0 to |coords|
      invariant ranks == SuitRanks(coords[..i], suit)
      invariant mode == Selecting ==> AllOfSuit(coords[..i], suit)
    {
      assert coords[..i + 1][..i] == coords[..i];
      if coords[i].suit == suit {
        ranks := ranks + [coords[i].rank];
      } else if mode == Selecting {
        return false, ranks;
      }
    }
    assert coords[..|coords|] == coords;
    return true, ranks;
  }

  /** The second loop: the last position of the anchor rank, 0 if absent. */
  method FindAnchor(ranks: seq<int>, rank: int) returns (target: nat)
    ensures target == AnchorIndex(ranks, rank)
  {
    target := 0;
    for i := 0 to |ranks|
      invariant target == AnchorIndex(ranks[..i], rank)
    {
      assert ranks[..i + 1][..i] == ranks[..i];
      if ranks[i] == rank {
        target := i;
      }
    }
    assert ranks[..|ranks|] == ranks;
  }

  /** The two scans outwards from the anchor, counting into `set_length`. */
  method ScanRun(ranks: seq<int>, target: nat) returns (setLength: nat)
    requires target == 0 || target < |ranks|
    ensures setLength == RunLength(ranks, target)
  {
    setLength := 1;
    var left := target - 1;
    while left >= 0 && ranks[left] == ranks[left + 1] - 1
      invariant -1 <= left < target || (left == -1 && target == 0)
      invariant setLength + RunLeft(ranks, left + 1) == 1 + RunLeft(ranks, target)
    {
      setLength := setLength + 1;
      left := left - 1;
    }

    var right := target + 1;
    while right < |ranks| && ranks[right] == ranks[right - 1] + 1
      invariant target < right && (right <= |ranks| || right == target + 1)
      invariant setLength + RunRight(ranks, right - 1) == RunLength(ranks, target)
    {
      setLength := setLength + 1;
      right := right + 1;
    }
  }

  // ------------------------------------------------- what the scan computes

  /** The left scan stops at the start of the run through `i`. */
  lemma {:induction false} RunLeftSpan(s: seq<int>, i: nat)
    requires i < |s|
    ensures RunLeft(s, i) <= i
    ensures Consecutive(s, i - RunLeft(s, i), i)
    ensures i - RunLeft(s, i) == 0 || s[i - RunLeft(s, i) - 1] + 1 != s[i - RunLeft(s, i)]
  {
    if i > 0 && s[i - 1] == s[i] - 1 {
      RunLeftSpan(s, i - 1);
    }
  }

  /** The right scan stops at the end of the run through `i`. */
  lemma {:induction false} RunRightSpan(s: seq<int>, i: nat)
    requires i < |s|
    ensures i + RunRight(s, i) < |s|
    ensures Consecutive(s, i, i + RunRight(s, i))
    ensures i + RunRight(s, i) == |s| - 1 || s[i + RunRight(s, i)] + 1 != s[i + RunRight(s, i) + 1]
    decreases |s| - i
  {
    if i + 1 < |s| && s[i + 1] == s[i] + 1 {
      RunRightSpan(s, i + 1);
    }
  }

  /** `set_length` is the length of the longest stretch of ranks rising by one
      that contains the anchor position: the stretch the scans cover is such a
      stretch, and no such stretch is longer. */
  lemma RunLengthIsLongestRun(s: seq<int>, t: nat)
    requires t < |s|
    ensures Consecutive(s, t - RunLeft(s, t), t + RunRight(s, t))
    ensures forall lo, hi :: lo <= t <= hi && Consecutive(s, lo, hi) ==> hi - lo + 1 <= RunLength(s, t)
  {
    RunLeftSpan(s, t);
    RunRightSpan(s, t);
    var lo0 := t - RunLeft(s, t);
    var hi0 := t + RunRight(s, t);
    forall lo, hi | lo <= t <= hi && Consecutive(s, lo, hi) ensures hi - lo + 1 <= RunLength(s, t) {
      assert lo0 <= lo;
      assert hi <= hi0;
    }
  }

  /** The run through the anchor covers the whole list exactly when the whole
      list rises by one at every step, wherever the anchor sits. */
  lemma RunCoversAll(s: seq<int>, t: nat)
    requires t < |s|
    ensures RunLength(s, t) == |s| <==> Consecutive(s, 0, |s| - 1)
  {
    RunLengthIsLongestRun(s, t);
    if RunLength(s, t) == |s| {
      assert t - RunLeft(s, t) == 0;
    }
  }

  /** A scan reaching three means some stretch of at least three positions
      rising by one contains the start position, and conversely. */
  lemma RunOfThree(s: seq<int>, t: nat)
    requires t == 0 || t < |s|
    ensures RunLength(s, t) >= 3 <==> exists lo, hi :: lo <= t <= hi && hi - lo >= 2 && Consecutive(s, lo, hi)
  {
    if s != [] {
      RunLengthIsLongestRun(s, t);
      if RunLength(s, t) >= 3 {
        var lo, hi := t - RunLeft(s, t), t + RunRight(s, t);
        assert lo <= t <= hi && hi - lo >= 2 && Consecutive(s, lo, hi);
      }
    }
  }

  /** In probing mode the suit check accepts exactly when some stretch of at
      least three sorted same-suit ranks rising by one contains the anchor
      position. Off-suit cards and ranks outside that stretch play no part. */
  lemma ProbingSuitSetMeaning(coords: seq<Coord>, rank: int, suit: int)
    ensures var ranks := Sort(SuitRanks(coords, suit));
            var t := AnchorIndex(ranks, rank);
            IsSuitSet(Probing, coords, rank, suit) <==>
              exists lo, hi :: lo <= t <= hi && hi - lo >= 2 && Consecutive(ranks, lo, hi)
  {
    var ranks := Sort(SuitRanks(coords, suit));
    var t := AnchorIndex(ranks, rank);
    assert IsSuitSet(Probing, coords, rank, suit) == (RunLength(ranks, t) >= 3);
    RunOfThree(ranks, t);
  }

  /** In selecting mode the suit check accepts exactly three or more cards, all
      of the anchor suit, whose sorted ranks rise by one at every step. The
      anchor rank plays no part: a missing anchor starts the scan at 0, and any
      start position finds the whole run. */
  lemma SelectingSuitSetMeaning(coords: seq<Coord>, rank: int, suit: int)
    ensures IsSuitSet(Selecting, coords, rank, suit) <==> |coords| >= 3 && SuitRun(coords, suit)
  {
    var ranks := Sort(SuitRanks(coords, suit));
    var t := AnchorIndex(ranks, rank);
    assert IsSuitSet(Selecting, coords, rank, suit) ==
           (AllOfSuit(coords, suit) && |coords| == RunLength(ranks, t) && RunLength(ranks, t) >= 3);
    if AllOfSuit(coords, suit) && |coords| > 0 {
      assert |ranks| == |coords|;
      RunCoversAll(ranks, t);
    }
  }

  // ---------------------------------------------------------------- valid_set

  /** `valid_set`: the cards form a rank set or a suit set around the anchor. */
  predicate ValidSet(mode: Mode, cards: seq<Card>, rank: int, suit: int) {
    var coords := GetCardCoordinates(cards);
    IsRankSet(mode, coords, rank) || IsSuitSet(mode, coords, rank, suit)
  }

  /** `valid_set`: looks up the coordinates, tries the rank check, and tries
      the suit check only when the rank check fails. */
  method CheckValidSet(mode: Mode, cards: seq<Card>, rank: int, suit: int) returns (ok: bool)
    ensures ok <==> ValidSet(mode, cards, rank, suit)
  {
    var coords := GetCardCoordinates(cards);
    ok := CheckStandardRankSet(mode, coords, rank);
    if !ok {
      ok := CheckStandardSuitSet(mode, coords, rank, suit);
    }
  }

  /** What picking up from the pile accepts: three or more cards of the anchor
      rank anywhere among the candidates, or a stretch of at least three sorted
      ranks of the anchor suit, rising by one, through the anchor position.
      Cards of other ranks and suits are ignored. */
  lemma ProbingValidSetMeaning(cards: seq<Card>, rank: int, suit: int)
    ensures var coords := GetCardCoordinates(cards);
            var ranks := Sort(SuitRanks(coords, suit));
            ValidSet(Probing, cards, rank, suit) <==>
              || CountRank(coords, rank) >= 3
              || exists lo, hi :: lo <= AnchorIndex(ranks, rank) <= hi && hi - lo >= 2 && Consecutive(ranks, lo, hi)
  {
    ProbingSuitSetMeaning(GetCardCoordinates(cards), rank, suit);
  }

  /** What confirming a selection accepts: three or more catalogue cards that
      either all share the anchor rank, or all share the anchor suit with sorted
      ranks rising by one at every step. */
  lemma SelectingValidSetMeaning(cards: seq<Card>, rank: int, suit: int)
    ensures var coords := GetCardCoordinates(cards);
            ValidSet(Selecting, cards, rank, suit) <==>
              |coords| >= 3 && (AllOfRank(coords, rank) || SuitRun(coords, suit))
  {
    var coords := GetCardCoordinates(cards);
    SelectingRankSetMeaning(coords, rank);
    SelectingSuitSetMeaning(coords, rank, suit);
  }

  /** Confirming a selection anchors on its first card; any other selected card
      would give the same verdict, so the order of selection never matters. */
  lemma SelectingAnchorIsIrrelevant(cards: seq<Card>, i: nat, j: nat)
    requires i < |GetCardCoordinates(cards)| && j < |GetCardCoordinates(cards)|
    ensures var coords := GetCardCoordinates(cards);
            ValidSet(Selecting, cards, coords[i].rank, coords[i].suit) ==
            ValidSet(Selecting, cards, coords[j].rank, coords[j].suit)
  {
    var coords := GetCardCoordinates(cards);
    SelectingValidSetMeaning(cards, coords[i].rank, coords[i].suit);
    SelectingValidSetMeaning(cards, coords[j].rank, coords[j].suit);
    if AllOfRank(coords, coords[i].rank) || AllOfRank(coords, coords[j].rank) {
      assert coords[i].rank == coords[j].rank;
    }
    if AllOfSuit(coords, coords[i].suit) || AllOfSuit(coords, coords[j].suit) {
      assert coords[i].suit == coords[j].suit;
    }
  }

  // ------------------------------------------------------- the source's cases

  lemma CountRankSnoc(coords: seq<Coord>, c: Coord, rank: int)
    ensures CountRank(coords + [c], rank) == CountRank(coords, rank) + (if c.rank == rank then 1 else 0)
  {
    assert (coords + [c])[..|coords|] == coords;
  }

  lemma SuitRanksSnoc(coords: seq<Coord>, c: Coord, suit: int)
    ensures SuitRanks(coords + [c], suit) == SuitRanks(coords, suit) + (if c.suit == suit then [c.rank] else [])
  {
    assert (coords + [c])[..|coords|] == coords;
  }

  /** The rank-set cases the source asserts. */
  lemma RankSetExamples()
    ensures IsRankSet(Probing, [Coord(1, 0), Coord(1, 1), Coord(1, 3), Coord(2, 5)], 1)
    ensures !IsRankSet(Selecting, [Coord(5, 2), Coord(5, 1), Coord(5, 3), Coord(2, 5)], 5)
    ensures IsRankSet(Probing, [Coord(2, 0), Coord(2, 1), Coord(2, 3), Coord(2, 5)], 2)
  {
    ThreeOfRank(1, 0, 1, 3, Coord(2, 5));
    var b := [Coord(5, 2), Coord(5, 1), Coord(5, 3), Coord(2, 5)];
    assert b[3].rank != 5;
    ThreeOfRank(2, 0, 1, 3, Coord(2, 5));
  }

  lemma ThreeOfRank(rank: int, s0: int, s1: int, s2: int, extra: Coord)
    ensures CountRank([Coord(rank, s0), Coord(rank, s1), Coord(rank, s2), extra], rank) >= 3
  {
    var c0, c1, c2 := Coord(rank, s0), Coord(rank, s1), Coord(rank, s2);
    CountRankSnoc([], c0, rank);
    assert [] + [c0] == [c0];
    CountRankSnoc([c0], c1, rank);
    assert [c0] + [c1] == [c0, c1];
    CountRankSnoc([c0, c1], c2, rank);
    assert [c0, c1] + [c2] == [c0, c1, c2];
    CountRankSnoc([c0, c1, c2], extra, rank);
    assert [c0, c1, c2] + [extra] == [c0, c1, c2, extra];
  }

  /** Three cards of one suit at ranks x, x + 1, x + 2, in that order. */
  lemma RunOfSuit(x: int, suit: int)
    ensures SuitRanks([Coord(x, suit), Coord(x + 1, suit), Coord(x + 2, suit)], suit) == [x, x + 1, x + 2]
  {
    var c0, c1, c2 := Coord(x, suit), Coord(x + 1, suit), Coord(x + 2, suit);
    var one, two := [c0], [c0, c1];
    assert SuitRanks(one, suit) == [x] by {
      SuitRanksSnoc([], c0, suit);
      assert [] + [c0] == one;
    }
    assert SuitRanks(two, suit) == [x, x + 1] by {
      SuitRanksSnoc(one, c1, suit);
      assert one + [c1] == two;
    }
    SuitRanksSnoc(two, c2, suit);
    assert two + [c2] == [c0, c1, c2];
  }

  lemma SortedRanksExample(x: int)
    ensures Sort([x, x + 1, x + 2]) == [x, x + 1, x + 2]
  {
    var one, two, three := [x + 2], [x + 1, x + 2], [x, x + 1, x + 2];
    assert one[1..] == [] && two[1..] == one && three[1..] == two;
    assert Sort(one) == one by {
      assert Insert(x + 2, []) == one;
    }
    assert Sort(two) == two by {
      assert Insert(x + 1, one) == two;
    }
    assert Insert(x, two) == three;
  }

  lemma RunOfThreeExample(x: int)
    ensures AnchorIndex([x, x + 1, x + 2], x) == 0
    ensures RunLength([x, x + 1, x + 2], 0) == 3
  {
    assert RunRight([x, x + 1, x + 2], 1) == 1;
  }

  lemma ProbingExampleRanks()
    ensures SuitRanks([Coord(1, 0), Coord(2, 0), Coord(3, 0), Coord(6, 3)], 0) == [1, 2, 3]
  {
    var run := [Coord(1, 0), Coord(2, 0), Coord(3, 0)];
    RunOfSuit(1, 0);
    SuitRanksSnoc(run, Coord(6, 3), 0);
    assert run + [Coord(6, 3)] == [Coord(1, 0), Coord(2, 0), Coord(3, 0), Coord(6, 3)];
  }

  /** The suit-set case the source asserts in probing mode: the off-suit card
      is ignored. */
  lemma SuitSetProbingExample()
    ensures IsSuitSet(Probing, [Coord(1, 0), Coord(2, 0), Coord(3, 0), Coord(6, 3)], 1, 0)
  {
    ProbingExampleRanks();
    SortedRanksExample(1);
    RunOfThreeExample(1);
  }

  /** The suit-set cases the source asserts in selecting mode where an
      off-suit card rejects. */
  lemma SuitSetSelectingRejects()
    ensures !IsSuitSet(Selecting, [Coord(5, 2), Coord(4, 2), Coord(6, 2)], 1, 0)
    ensures !IsSuitSet(Selecting, [Coord(1, 0), Coord(2, 0), Coord(3, 0), Coord(2, 5)], 1, 0)
  {
    var b := [Coord(5, 2), Coord(4, 2), Coord(6, 2)];
    assert b[0].suit != 0;
    var c := [Coord(1, 0), Coord(2, 0), Coord(3, 0), Coord(2, 5)];
    assert c[3].suit != 0;
  }

  /** The suit-set case the source asserts in selecting mode where an exact
      run accepts. */
  lemma SuitSetSelectingAccepts()
    ensures IsSuitSet(Selecting, [Coord(7, 0), Coord(8, 0), Coord(9, 0)], 7, 0)
  {
    var coords := [Coord(7, 0), Coord(8, 0), Coord(9, 0)];
    assert AllOfSuit(coords, 0);
    assert SuitRanks(coords, 0) == [7, 8, 9] by { RunOfSuit(7, 0); }
    assert Sort([7, 8, 9]) == [7, 8, 9] by { SortedRanksExample(7); }
    assert RunLength([7, 8, 9], AnchorIndex([7, 8, 9], 7)) == 3 by { RunOfThreeExample(7); }
  }

  /** The coordinates the source asserts for the Two of hearts and the Two of
      diamonds. */
  lemma CoordinatesExample()
    ensures GetCardCoordinates([Face(4), Face(5)]) == [Coord(1, 0), Coord(1, 1)]
  {
  }

  /** The selecting `valid_set` case the source asserts: Two, Three and Four of
      hearts, anchored on the Two, form a suit set. */
  lemma ValidSetSelectingExample()
    ensures ValidSet(Selecting, [Face(4), Face(8), Face(12)], 1, 0)
  {
    var coords := [Coord(1, 0), Coord(2, 0), Coord(3, 0)];
    assert GetCardCoordinates([Face(4), Face(8), Face(12)]) == coords;
    assert IsSuitSet(Selecting, coords, 1, 0) by {
      assert AllOfSuit(coords, 0);
      assert SuitRanks(coords, 0) == [1, 2, 3] by { RunOfSuit(1, 0); }
      assert Sort([1, 2, 3]) == [1, 2, 3] by { SortedRanksExample(1); }
      assert RunLength([1, 2, 3], AnchorIndex([1, 2, 3], 1)) == 3 by { RunOfThreeExample(1); }
    }
  }

  /** The probing `valid_set` case the source asserts: three Nines and a Six,
      anchored on the Nine of diamonds, hold a rank set. */
  lemma ValidSetProbingExample()
    ensures ValidSet(Probing, [Face(32), Face(33), Face(34), Face(20)], 8, 1)
  {
    var cards := [Face(32), Face(33), Face(34), Face(20)];
    assert GetCardCoordinates([Face(32), Face(33), Face(34)]) == [Coord(8, 0), Coord(8, 1), Coord(8, 2)];
    assert cards[..3] == [Face(32), Face(33), Face(34)];
    assert GetCardCoordinates(cards) == [Coord(8, 0), Coord(8, 1), Coord(8, 2), Coord(5, 0)];
    ThreeOfRank(8, 0, 1, 2, Coord(5, 0));
  }
}
