/** Sequence helpers shared by the card catalogue, the meld checks and the
    turn engine: Python's list operations as the rule engine uses them. */
module Lists {

  /** No value occurs twice. */
  predicate Distinct<T(==)>(s: seq<T>) {
    forall i, j :: 0 <= i < j < |s| ==> s[i] != s[j]
  }

  /** Row-major concatenation of a list of lists (the nested `for row … for card`
      loop of `shuffle_deck`, and the cards of all of a player's sets). */
  function Flatten<T>(rows: seq<seq<T>>): seq<T> {
    if rows == [] then [] else Flatten(rows[..|rows| - 1]) + rows[|rows| - 1]
  }

  lemma FlattenAppend<T>(rows: seq<seq<T>>, row: seq<T>)
    ensures Flatten(rows + [row]) == Flatten(rows) + row
  {
    assert (rows + [row])[..|rows|] == rows;
  }

  lemma {:induction false} FlattenConcat<T>(a: seq<seq<T>>, b: seq<seq<T>>)
    ensures Flatten(a + b) == Flatten(a) + Flatten(b)
    decreases |b|
  {
    if b != [] {
      var n := |b| - 1;
      assert (a + b)[..|a + b| - 1] == a + b[..n];
      assert (a + b)[|a + b| - 1] == b[n];
      FlattenConcat(a, b[..n]);
    } else {
      assert a + b == a;
    }
  }

  /** The suffix from position `i` is the element there followed by the rest. */
  lemma SplitAt<T>(s: seq<T>, i: nat)
    requires i < |s|
    ensures multiset(s[i..]) == multiset{s[i]} + multiset(s[i + 1..])
  {
    assert s[i..] == [s[i]] + s[i + 1..];
  }

  /** Python's `list.pop(i)` for an index in range: the list without position
      `i`, everything else in order. */
  function Pop<T>(s: seq<T>, i: int): (r: seq<T>)
    requires 0 <= i < |s|
    ensures |r| == |s| - 1
    ensures forall k :: 0 <= k < i ==> r[k] == s[k]
    ensures forall k :: i <= k < |r| ==> r[k] == s[k + 1]
    ensures multiset(r) + multiset{s[i]} == multiset(s)
  {
    assert s == s[..i] + [s[i]] + s[i + 1..];
    s[..i] + s[i + 1..]
  }

  /** Python's `list.remove(x)`: drops the first occurrence of `x`. */
  function RemoveFirst<T(==)>(s: seq<T>, x: T): (r: seq<T>)
    requires x in s
    ensures |r| == |s| - 1
    ensures multiset(r) == multiset(s) - multiset{x}
  {
    assert s == [s[0]] + s[1..];
    if s[0] == x then s[1..] else [s[0]] + RemoveFirst(s[1..], x)
  }

  /** `for x in xs: s.remove(x)`, which Python only completes when every
      element of `xs` can still be found. */
  function RemoveEach<T(==)>(s: seq<T>, xs: seq<T>): (r: seq<T>)
    requires multiset(xs) <= multiset(s)
    ensures multiset(r) == multiset(s) - multiset(xs)
    ensures |r| == |s| - |xs|
    decreases |xs|
  {
    if xs == [] then s
    else
      assert xs == [xs[0]] + xs[1..];
      assert multiset(xs) == multiset{xs[0]} + multiset(xs[1..]);
      assert xs[0] in multiset(s);
      var s' := RemoveFirst(s, xs[0]);
      assert multiset(xs[1..]) <= multiset(s');
      RemoveEach(s', xs[1..])
  }

  /** Every occurrence of `x` filtered out, order kept. */
  function Without<T(==)>(s: seq<T>, x: T): (r: seq<T>)
    ensures x !in r
    ensures forall k :: 0 <= k < |r| ==> r[k] in s && r[k] != x
    ensures forall k :: 0 <= k < |s| && s[k] != x ==> s[k] in r
    ensures |r| <= |s|
  {
    if s == [] then []
    else (if s[0] == x then [] else [s[0]]) + Without(s[1..], x)
  }

  lemma {:induction false} WithoutKeepsDistinct<T>(s: seq<T>, x: T)
    requires Distinct(s)
    ensures Distinct(Without(s, x))
  {
    if s != [] {
      WithoutKeepsDistinct(s[1..], x);
      assert s[0] !in s[1..] by {
        forall k | 0 <= k < |s[1..]| ensures s[1..][k] != s[0] {
          assert s[1..][k] == s[k + 1];
        }
      }
      assert s[0] !in Without(s[1..], x);
    }
  }

  /** On a list without repetitions, removing the first occurrence is the same
      as filtering every occurrence. */
  lemma {:induction false} RemoveFirstOfDistinct<T>(s: seq<T>, x: T)
    requires Distinct(s) && x in s
    ensures RemoveFirst(s, x) == Without(s, x)
  {
    if s[0] == x {
      assert x !in s[1..] by {
        forall k | 0 <= k < |s[1..]| ensures s[1..][k] != x {
          assert s[1..][k] == s[k + 1];
        }
      }
      WithoutAbsent(s[1..], x);
    } else {
      assert x in s[1..] by {
        var k :| 0 <= k < |s| && s[k] == x;
        assert s[1..][k - 1] == x;
      }
      RemoveFirstOfDistinct(s[1..], x);
    }
  }

  lemma {:induction false} WithoutAbsent<T>(s: seq<T>, x: T)
    requires x !in s
    ensures Without(s, x) == s
  {
    if s != [] {
      assert s[0] != x;
      assert x !in s[1..];
      WithoutAbsent(s[1..], x);
    }
  }

  /** The elements at the given positions, in the order the positions are listed
      (`[s[k] for k in idx]`). */
  function Pick<T>(s: seq<T>, idx: seq<int>): (r: seq<T>)
    requires forall j :: 0 <= j < |idx| ==> 0 <= idx[j] < |s|
    ensures |r| == |idx|
    ensures forall j :: 0 <= j < |idx| ==> r[j] == s[idx[j]]
  {
    if idx == [] then [] else [s[idx[0]]] + Pick(s, idx[1..])
  }

  /** Picking at pairwise different positions takes each element of `s` at most
      once, so the picked cards can all be removed from `s` afterwards. */
  lemma {:induction false} PickIsSubMultiset<T>(s: seq<T>, idx: seq<int>)
    requires forall j :: 0 <= j < |idx| ==> 0 <= idx[j] < |s|
    requires Distinct(idx)
    ensures multiset(Pick(s, idx)) <= multiset(s)
    decreases |idx|
  {
    if idx != [] {
      var m, rest := idx[0], idx[1..];
      forall j | 0 <= j < |rest| ensures 0 <= rest[j] < |s| && rest[j] != m {
        assert rest[j] == idx[j + 1];
      }
      PickAfterPop(s, rest, m);
      ShiftKeepsDistinct(rest, m);
      PickIsSubMultiset(Pop(s, m), Shift(rest, m));
      assert Pick(s, idx) == [s[m]] + Pick(s, rest);
    }
  }

  /** Popping a position nobody picks keeps the picked elements, once the
      remaining positions are renumbered. */
  lemma PickAfterPop<T>(s: seq<T>, rest: seq<int>, m: int)
    requires 0 <= m < |s|
    requires forall j :: 0 <= j < |rest| ==> 0 <= rest[j] < |s| && rest[j] != m
    ensures forall j :: 0 <= j < |rest| ==> 0 <= Shift(rest, m)[j] < |s| - 1
    ensures Pick(Pop(s, m), Shift(rest, m)) == Pick(s, rest)
  {
    var s', rest' := Pop(s, m), Shift(rest, m);
    forall j | 0 <= j < |rest| ensures Pick(s', rest')[j] == Pick(s, rest)[j] {
      assert s'[rest'[j]] == s[rest[j]];
    }
  }

  /** Positions renumbered after position `m` has been popped. */
  function Shift(idx: seq<int>, m: int): (r: seq<int>)
    ensures |r| == |idx|
    ensures forall j :: 0 <= j < |idx| ==> r[j] == if idx[j] < m then idx[j] else idx[j] - 1
  {
    if idx == [] then [] else [if idx[0] < m then idx[0] else idx[0] - 1] + Shift(idx[1..], m)
  }

  lemma ShiftKeepsDistinct(idx: seq<int>, m: int)
    requires Distinct(idx)
    requires forall j :: 0 <= j < |idx| ==> idx[j] != m
    ensures Distinct(Shift(idx, m))
  {
    var r := Shift(idx, m);
    forall i, j | 0 <= i < j < |r| ensures r[i] != r[j] {
      assert idx[i] != idx[j] && idx[i] != m && idx[j] != m;
    }
  }

  /** The elements of `s` at the positions `idx` does not list, in order;
      `base` is the position of `s[0]` in the whole list. */
  function DropFrom<T>(s: seq<T>, idx: seq<int>, base: int): seq<T>
    decreases |s|
  {
    if s == [] then [] else (if base in idx then [] else [s[0]]) + DropFrom(s[1..], idx, base + 1)
  }

  /** `[s[k] for k in range(len(s)) if k not in idx]`. */
  function Drop<T>(s: seq<T>, idx: seq<int>): seq<T> {
    DropFrom(s, idx, 0)
  }

  lemma {:induction false} DropFromAppend<T>(a: seq<T>, b: seq<T>, idx: seq<int>, base: int)
    ensures DropFrom(a + b, idx, base) == DropFrom(a, idx, base) + DropFrom(b, idx, base + |a|)
    decreases |a|
  {
    if a == [] {
      assert a + b == b;
    } else {
      assert (a + b)[1..] == a[1..] + b;
      DropFromAppend(a[1..], b, idx, base + 1);
    }
  }

  /** Dropping depends only on which positions are listed. */
  lemma {:induction false} DropFromCongruent<T>(a: seq<T>, idx: seq<int>, base: int, idx': seq<int>, d: int)
    requires forall p :: base <= p < base + |a| ==> (p in idx <==> p + d in idx')
    ensures DropFrom(a, idx, base) == DropFrom(a, idx', base + d)
    decreases |a|
  {
    if a != [] {
      assert base in idx <==> base + d in idx';
      DropFromCongruent(a[1..], idx, base + 1, idx', d);
    }
  }

  lemma {:induction false} DropFromNone<T>(s: seq<T>, base: int)
    ensures DropFrom(s, [], base) == s
    decreases |s|
  {
    if s != [] {
      DropFromNone(s[1..], base + 1);
    }
  }

  /** Popping position `m` and renumbering the other positions drops the same
      elements as listing `m` with them. */
  lemma DropAfterPop<T>(s: seq<T>, rest: seq<int>, m: int)
    requires 0 <= m < |s|
    requires forall j :: 0 <= j < |rest| ==> rest[j] != m
    ensures Drop(Pop(s, m), Shift(rest, m)) == Drop(s, [m] + rest)
  {
    DropPopped(s, Shift(rest, m), m);
    DropListed(s, [m] + rest, m);
    DropFront(s[..m], rest, m);
    DropBack(s[m + 1..], rest, m);
  }

  lemma DropPopped<T>(s: seq<T>, sh: seq<int>, m: int)
    requires 0 <= m < |s|
    ensures Drop(Pop(s, m), sh) == DropFrom(s[..m], sh, 0) + DropFrom(s[m + 1..], sh, m)
  {
    assert Pop(s, m) == s[..m] + s[m + 1..];
    DropFromAppend(s[..m], s[m + 1..], sh, 0);
  }

  lemma DropListed<T>(s: seq<T>, idx: seq<int>, m: int)
    requires 0 <= m < |s| && m in idx
    ensures Drop(s, idx) == DropFrom(s[..m], idx, 0) + DropFrom(s[m + 1..], idx, m + 1)
  {
    var front, back := s[..m], s[m + 1..];
    assert s == front + [s[m]] + back;
    DropFromAppend(front + [s[m]], back, idx, 0);
    DropFromAppend(front, [s[m]], idx, 0);
  }

  lemma DropFront<T>(front: seq<T>, rest: seq<int>, m: int)
    requires forall j :: 0 <= j < |rest| ==> rest[j] != m
    requires |front| == m
    ensures DropFrom(front, [m] + rest, 0) == DropFrom(front, Shift(rest, m), 0)
  {
    forall p | 0 <= p < |front| ensures p in [m] + rest <==> p + 0 in Shift(rest, m) {
      ShiftBelow(rest, m, p);
    }
    DropFromCongruent(front, [m] + rest, 0, Shift(rest, m), 0);
  }

  lemma DropBack<T>(back: seq<T>, rest: seq<int>, m: int)
    requires forall j :: 0 <= j < |rest| ==> rest[j] != m
    ensures DropFrom(back, [m] + rest, m + 1) == DropFrom(back, Shift(rest, m), m)
  {
    forall p | m + 1 <= p < m + 1 + |back| ensures p in [m] + rest <==> p + -1 in Shift(rest, m) {
      ShiftAbove(rest, m, p);
    }
    DropFromCongruent(back, [m] + rest, m + 1, Shift(rest, m), -1);
  }

  /** Positions before the popped one keep their number. */
  lemma ShiftBelow(rest: seq<int>, m: int, p: int)
    requires forall j :: 0 <= j < |rest| ==> rest[j] != m
    requires p < m
    ensures p in [m] + rest <==> p in Shift(rest, m)
  {
    var idx, sh := [m] + rest, Shift(rest, m);
    if p in sh {
      var j :| 0 <= j < |sh| && sh[j] == p;
      assert idx[j + 1] == p;
    }
    if p in idx {
      var j :| 0 <= j < |idx| && idx[j] == p;
      assert sh[j - 1] == p;
    }
  }

  /** Positions after the popped one move down by one. */
  lemma ShiftAbove(rest: seq<int>, m: int, p: int)
    requires forall j :: 0 <= j < |rest| ==> rest[j] != m
    requires m < p
    ensures p in [m] + rest <==> p - 1 in Shift(rest, m)
  {
    var idx, sh := [m] + rest, Shift(rest, m);
    if p - 1 in sh {
      var j :| 0 <= j < |sh| && sh[j] == p - 1;
      assert idx[j + 1] == p;
    }
    if p in idx {
      var j :| 0 <= j < |idx| && idx[j] == p;
      assert sh[j - 1] == p - 1;
    }
  }

  /** On a list without repetitions, `remove(s[m])` is `pop(m)`. */
  lemma {:induction false} RemoveFirstIsPop<T>(s: seq<T>, m: int)
    requires Distinct(s) && 0 <= m < |s|
    ensures RemoveFirst(s, s[m]) == Pop(s, m)
  {
    if m > 0 {
      assert s[0] != s[m];
      assert s[1..][m - 1] == s[m];
      DistinctTail(s);
      RemoveFirstIsPop(s[1..], m - 1);
      PopBehindHead(s, m);
    }
  }

  lemma PopBehindHead<T>(s: seq<T>, m: int)
    requires 0 < m < |s|
    ensures [s[0]] + Pop(s[1..], m - 1) == Pop(s, m)
  {
    var t, r := [s[0]] + Pop(s[1..], m - 1), Pop(s, m);
    forall k | 0 <= k < |t| ensures t[k] == r[k] {
      if k > 0 {
        assert t[k] == Pop(s[1..], m - 1)[k - 1];
      }
    }
  }

  lemma DistinctTail<T>(s: seq<T>)
    requires Distinct(s) && s != []
    ensures Distinct(s[1..])
  {
    forall i, j | 0 <= i < j < |s[1..]| ensures s[1..][i] != s[1..][j] {
      assert s[1..][i] == s[i + 1] && s[1..][j] == s[j + 1];
    }
  }

  lemma PopKeepsDistinct<T>(s: seq<T>, m: int)
    requires Distinct(s) && 0 <= m < |s|
    ensures Distinct(Pop(s, m))
  {
    var r := Pop(s, m);
    forall i, j | 0 <= i < j < |r| ensures r[i] != r[j] {
      var i', j' := if i < m then i else i + 1, if j < m then j else j + 1;
      assert r[i] == s[i'] && r[j] == s[j'];
    }
  }

  /** `for x in [s[k] for k in idx]: s.remove(x)` on a list without
      repetitions removes exactly the listed positions and keeps the other
      elements in order. */
  lemma {:induction false} RemovePicked<T>(s: seq<T>, idx: seq<int>)
    requires forall j :: 0 <= j < |idx| ==> 0 <= idx[j] < |s|
    requires Distinct(idx)
    ensures multiset(Pick(s, idx)) <= multiset(s)
    ensures Distinct(s) ==> RemoveEach(s, Pick(s, idx)) == Drop(s, idx)
    decreases |idx|
  {
    PickIsSubMultiset(s, idx);
    if idx == [] {
      DropFromNone(s, 0);
    } else if Distinct(s) {
      var m, rest := idx[0], idx[1..];
      forall j | 0 <= j < |rest| ensures 0 <= rest[j] < |s| && rest[j] != m {
        assert rest[j] == idx[j + 1];
      }
      var s', rest' := Pop(s, m), Shift(rest, m);
      RemoveEachAfterPop(s, idx);
      assert RemoveEach(s', Pick(s', rest')) == Drop(s', rest') by {
        DistinctTail(idx);
        ShiftKeepsDistinct(rest, m);
        PopKeepsDistinct(s, m);
        RemovePicked(s', rest');
      }
      DropAfterPopFront(s, idx);
    }
  }

  /** `DropAfterPop` for the first listed position. */
  lemma DropAfterPopFront<T>(s: seq<T>, idx: seq<int>)
    requires idx != [] && Distinct(idx)
    requires forall j :: 0 <= j < |idx| ==> 0 <= idx[j] < |s|
    ensures Drop(Pop(s, idx[0]), Shift(idx[1..], idx[0])) == Drop(s, idx)
  {
    var m, rest := idx[0], idx[1..];
    forall j | 0 <= j < |rest| ensures rest[j] != m {
      assert rest[j] == idx[j + 1];
    }
    DropAfterPop(s, rest, m);
    assert [m] + rest == idx;
  }

  /** Removing the first picked element pops its position; the remaining
      picks are the renumbered remaining positions. */
  lemma RemoveEachAfterPop<T>(s: seq<T>, idx: seq<int>)
    requires idx != [] && Distinct(s) && Distinct(idx)
    requires forall j :: 0 <= j < |idx| ==> 0 <= idx[j] < |s|
    ensures var s', rest' := Pop(s, idx[0]), Shift(idx[1..], idx[0]);
            && (forall j :: 0 <= j < |rest'| ==> 0 <= rest'[j] < |s'|)
            && multiset(Pick(s, idx)) <= multiset(s)
            && multiset(Pick(s', rest')) <= multiset(s')
            && RemoveEach(s, Pick(s, idx)) == RemoveEach(s', Pick(s', rest'))
  {
    var m, rest := idx[0], idx[1..];
    forall j | 0 <= j < |rest| ensures 0 <= rest[j] < |s| && rest[j] != m {
      assert rest[j] == idx[j + 1];
    }
    var s', rest' := Pop(s, m), Shift(rest, m);
    PickAfterPop(s, rest, m);
    ShiftKeepsDistinct(rest, m);
    PickIsSubMultiset(s', rest');
    PickIsSubMultiset(s, idx);
    assert Pick(s, idx) == [s[m]] + Pick(s', rest');
    RemoveEachPopped(s, m, Pick(s', rest'));
  }

  /** Removing `s[m]` first from a list without repetitions is popping `m`. */
  lemma RemoveEachPopped<T>(s: seq<T>, m: int, tail: seq<T>)
    requires Distinct(s) && 0 <= m < |s|
    requires multiset(tail) <= multiset(Pop(s, m))
    ensures multiset([s[m]] + tail) <= multiset(s)
    ensures RemoveEach(s, [s[m]] + tail) == RemoveEach(Pop(s, m), tail)
  {
    RemoveFirstIsPop(s, m);
    assert ([s[m]] + tail)[1..] == tail;
  }

  /** A list without repetitions holds each value at most once. */
  lemma {:induction false} DistinctCount<T>(s: seq<T>, x: T)
    requires Distinct(s)
    ensures multiset(s)[x] <= 1
  {
    if s != [] {
      assert s == [s[0]] + s[1..];
      DistinctTail(s);
      DistinctCount(s[1..], x);
      if s[0] == x {
        assert x !in s[1..] by {
          forall k | 0 <= k < |s[1..]| ensures s[1..][k] != x {
            assert s[1..][k] == s[k + 1];
          }
        }
      }
    }
  }

  /** A value at two positions is counted at least twice. */
  lemma TwiceCount<T>(s: seq<T>, i: int, j: int)
    requires 0 <= i < j < |s| && s[i] == s[j]
    ensures multiset(s)[s[i]] >= 2
  {
    assert s == s[..j] + [s[j]] + s[j + 1..];
    assert s[..j][i] == s[i];
    assert s[i] in multiset(s[..j]);
  }

  /** Part of a collection without repetitions has none either. */
  lemma DistinctWithin<T>(a: seq<T>, b: seq<T>)
    requires multiset(a) <= multiset(b) && Distinct(b)
    ensures Distinct(a)
  {
    forall i, j | 0 <= i < j < |a| ensures a[i] != a[j] {
      if a[i] == a[j] {
        TwiceCount(a, i, j);
        DistinctCount(b, a[i]);
        assert false;
      }
    }
  }
}
