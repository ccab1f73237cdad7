// Day 4: scratchcards. A card's matches are the numbers it has that are also
// winning numbers; part 1 scores them, part 2 cascades copies of later cards.

module Day4 {
  import opened Lib

  datatype Card = Card(id: nat, have: seq<nat>, winning: seq<nat>, numWinning: nat)

  /** How many of the numbers in `have` (with repeats) are winning numbers. */
  function CountWinning(have: seq<nat>, winning: seq<nat>): nat
    decreases |have|
  {
    if have == [] then 0
    else CountWinning(have[..|have| - 1], winning) + (if have[|have| - 1] in winning then 1 else 0)
  }

  /** The count is at most the number of numbers held, is zero exactly when
      none of them wins, and is all of them exactly when all of them win. */
  lemma {:induction false} CountWinningBounds(have: seq<nat>, winning: seq<nat>)
    ensures CountWinning(have, winning) <= |have|
    ensures CountWinning(have, winning) == 0 <==> forall i :: 0 <= i < |have| ==> have[i] !in winning
    ensures CountWinning(have, winning) == |have| <==> forall i :: 0 <= i < |have| ==> have[i] in winning
    decreases |have|
  {
    if have != [] {
      var init := have[..|have| - 1];
      assert forall i :: 0 <= i < |init| ==> init[i] == have[i];
      CountWinningBounds(init, winning);
    }
  }

  /** The count depends only on which numbers win, not on their order among
      the winning numbers (the source collects them into a set first). */
  lemma {:induction false} CountWinningBySet(have: seq<nat>, w1: seq<nat>, w2: seq<nat>)
    requires forall x :: x in w1 <==> x in w2
    ensures CountWinning(have, w1) == CountWinning(have, w2)
    decreases |have|
  {
    if have != [] {
      CountWinningBySet(have[..|have| - 1], w1, w2);
    }
  }

  /** `Card::new`: the match count is computed once, on construction. */
  method NewCard(id: nat, have: seq<nat>, winning: seq<nat>) returns (c: Card)
    ensures c == Card(id, have, winning, CountWinning(have, winning))
    ensures c.numWinning <= |have|
  {
    var count := 0;
    var i := 0;
    while i < |have|
      invariant 0 <= i <= |have|
      invariant count == CountWinning(have[..i], winning)
    {
      assert have[..i + 1][..i] == have[..i];
      if have[i] in winning {
        count := count + 1;
      }
      i := i + 1;
    }
    assert have[..i] == have;
    CountWinningBounds(have, winning);
    c := Card(id, have, winning, count);
  }

  /** No matches score nothing; `n` matches score 2^(n-1). */
  function Score(n: nat): nat { if n == 0 then 0 else Pow2(n - 1) }

  /** `1 << (n - 1)` on a 64-bit `usize` overflows when n - 1 >= 64. */
  const WordBits := 64

  predicate ScoreOverflows(c: Card) { c.numWinning > WordBits }

  function TotalScore(cards: seq<Card>): nat
    decreases |cards|
  {
    if cards == [] then 0 else TotalScore(cards[..|cards| - 1]) + Score(cards[|cards| - 1].numWinning)
  }

  /** `part1`: the sum of the cards' scores; a shift wider than the word panics. */
  method Part1(cards: seq<Card>) returns (r: Option<nat>)
    ensures r.None? <==> exists i :: 0 <= i < |cards| && ScoreOverflows(cards[i])
    ensures r.Some? ==> r.value == TotalScore(cards)
  {
    var sum := 0;
    var i := 0;
    while i < |cards|
      invariant 0 <= i <= |cards|
      invariant sum == TotalScore(cards[..i])
      invariant forall k :: 0 <= k < i ==> !ScoreOverflows(cards[k])
    {
      assert cards[..i + 1][..i] == cards[..i];
      var numWins := cards[i].numWinning;
      if numWins > 0 {
        if numWins - 1 >= WordBits {
          return None;
        }
        var shifted := 1;
        var k := 0;
        while k < numWins - 1
          invariant 0 <= k <= numWins - 1
          invariant shifted == Pow2(k)
        {
          shifted := shifted * 2;
          k := k + 1;
        }
        sum := sum + shifted;
      }
      i := i + 1;
    }
    assert cards[..i] == cards;
    r := Some(sum);
  }

  /* ---------------- part 2 ---------------- */

  /** The number of copies of card `j` one ends up with: the original plus,
      for every earlier card `k` whose matches reach `j`, one per copy of `k`. */
  function Copies(ws: seq<nat>, j: nat): nat
    decreases j, 1
  {
    1 + Contribution(ws, j, j)
  }

  /** The copies of card `j` won by the cards before `k`. */
  function Contribution(ws: seq<nat>, j: nat, k: nat): nat
    decreases j, 0, k
  {
    if k == 0 then 0
    else
      var won := k - 1 < j && k - 1 < |ws| && j <= k - 1 + ws[k - 1];
      Contribution(ws, j, k - 1) + (if won then Copies(ws, k - 1) else 0)
  }

  /** Cards at or after `j` never win copies of `j`. */
  lemma {:induction false} ContributionSettles(ws: seq<nat>, j: nat, k: nat)
    requires k >= j
    ensures Contribution(ws, j, k) == Contribution(ws, j, j)
    decreases k
  {
    if k > j { ContributionSettles(ws, j, k - 1); }
  }

  /** The sum of the copies of the first `n` cards. */
  function TotalCopies(ws: seq<nat>, n: nat): nat
    decreases n
  {
    if n == 0 then 0 else TotalCopies(ws, n - 1) + Copies(ws, n - 1)
  }

  /** Every card is held at least once, so the total is at least the number of cards. */
  lemma {:induction false} TotalCopiesAtLeast(ws: seq<nat>, n: nat)
    ensures TotalCopies(ws, n) >= n
    decreases n
  {
    if n > 0 { TotalCopiesAtLeast(ws, n - 1); }
  }

  /** Card `i` reaches past the last card. */
  predicate Overreaches(ws: seq<nat>, i: nat)
    requires i < |ws|
  {
    ws[i] > 0 && i + ws[i] >= |ws|
  }

  function WinCounts(cards: seq<Card>): (ws: seq<nat>)
    ensures |ws| == |cards| && forall i :: 0 <= i < |cards| ==> ws[i] == cards[i].numWinning
  {
    seq(|cards|, i requires 0 <= i < |cards| => cards[i].numWinning)
  }

  /** `part2`: every card starts with one copy; card `i`, when reached, adds
      its count to each of the next `num_wins` cards, which panics on the
      first index past the end. */
  method Part2(cards: seq<Card>) returns (r: Option<nat>)
    ensures r.None? <==> exists i :: 0 <= i < |cards| && Overreaches(WinCounts(cards), i)
    ensures r.Some? ==> r.value == TotalCopies(WinCounts(cards), |cards|)
  {
    var ws := WinCounts(cards);
    var n := |cards|;
    var numCards := new nat[n](_ => 1);
    var i := 0;
    while i < n
      invariant 0 <= i <= n
      invariant forall j :: 0 <= j < n ==> numCards[j] == 1 + Contribution(ws, j, i)
      invariant forall k :: 0 <= k < i ==> !Overreaches(ws, k)
    {
      var count := numCards[i];
      ContributionSettles(ws, i, i);
      assert count == Copies(ws, i);
      var numWins := cards[i].numWinning;
      if numWins > 0 {
        var j := i + 1;
        while j <= i + numWins
          invariant i + 1 <= j <= i + numWins + 1
          invariant j <= n
          invariant forall m :: 0 <= m < n ==>
            numCards[m] == 1 + Contribution(ws, m, i) + (if i < m < j then count else 0)
        {
          if j >= n {
            assert Overreaches(ws, i);
            return None;
          }
          numCards[j] := numCards[j] + count;
          j := j + 1;
        }
        assert !Overreaches(ws, i);
      }
      forall m | 0 <= m < n
        ensures numCards[m] == 1 + Contribution(ws, m, i + 1)
      {
      }
      i := i + 1;
    }
    var sum := 0;
    var j := 0;
    while j < n
      invariant 0 <= j <= n
      invariant sum == TotalCopies(ws, j)
      invariant forall m :: 0 <= m < n ==> numCards[m] == 1 + Contribution(ws, m, n)
    {
      ContributionSettles(ws, j, n);
      assert numCards[j] == Copies(ws, j);
      sum := sum + numCards[j];
      j := j + 1;
    }
    r := Some(sum);
  }

  /** The sample's cards win 4, 2, 2, 1, 0 and 0 numbers: 13 points and 30 cards. */
  lemma Sample()
    ensures Score(4) + Score(2) + Score(2) + Score(1) + Score(0) + Score(0) == 13
    ensures TotalCopies([4, 2, 2, 1, 0, 0], 6) == 30
  {
    var ws := [4, 2, 2, 1, 0, 0];
    assert Copies(ws, 0) == 1;
    assert Copies(ws, 1) == 2;
    assert Copies(ws, 2) == 4;
    assert Copies(ws, 3) == 8;
    assert Copies(ws, 4) == 14;
    assert Copies(ws, 5) == 1;
  }
}
