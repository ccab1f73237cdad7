// Day 9: extrapolate each sequence by its table of differences. Each level is
// the pairwise differences of the one above; differencing stops at the first
// all-zero level, and the prediction is the sum of the last elements of the
// stored levels.

module Day9 {
  import opened Lib

  /** `windows(2)` mapped to `pair[1] - pair[0]`. */
  function Diffs(s: seq<int>): (d: seq<int>)
    ensures |d| == if s == [] then 0 else |s| - 1
    decreases |s|
  {
    if |s| <= 1 then [] else Diffs(s[..|s| - 1]) + [s[|s| - 1] - s[|s| - 2]]
  }

  /** Each difference is the step between neighbours. */
  lemma {:induction false} DiffsAt(s: seq<int>)
    ensures forall i :: 0 <= i < |Diffs(s)| ==> Diffs(s)[i] == s[i + 1] - s[i]
    decreases |s|
  {
    if |s| > 1 {
      var init := s[..|s| - 1];
      DiffsAt(init);
    }
  }

  /** All zero; the empty level counts as all zero. */
  predicate AllZero(s: seq<int>) { forall i :: 0 <= i < |s| ==> s[i] == 0 }

  /** The levels the source stores: the sequence itself, then each difference
      level up to but not including the first all-zero one. */
  function Levels(s: seq<int>): (ls: seq<seq<int>>)
    ensures |ls| >= 1 && ls[0] == s
    decreases |s|
  {
    if AllZero(Diffs(s)) then [s] else [s] + Levels(Diffs(s))
  }

  /** Every stored level below the first is non-empty and not all zero, so
      only an empty input sequence leaves an empty level. */
  lemma {:induction false} LevelsNonEmpty(s: seq<int>)
    ensures forall i :: 1 <= i < |Levels(s)| ==> Levels(s)[i] != [] && !AllZero(Levels(s)[i])
    decreases |s|
  {
    if !AllZero(Diffs(s)) {
      LevelsNonEmpty(Diffs(s));
    }
  }

  /** The sum of the last elements, popping the deepest level first; an empty
      level panics on `pop().unwrap()`. */
  function SumLasts(ls: seq<seq<int>>): Option<int>
    decreases |ls|
  {
    if ls == [] then Some(0)
    else
      var v := ls[|ls| - 1];
      if v == [] then None
      else match SumLasts(ls[..|ls| - 1])
        case None => None
        case Some(rest) => Some(v[|v| - 1] + rest)
  }

  /** The next value of a non-empty sequence: its last element plus the next
      value of its differences, or the last element itself once the
      differences are all zero. */
  function Next(s: seq<int>): int
    requires s != []
    decreases |s|
  {
    if AllZero(Diffs(s)) then s[|s| - 1] else s[|s| - 1] + Next(Diffs(s))
  }

  /** Appending the prediction extends the table consistently: the
      differences gain their own prediction, or stay all zero. */
  lemma NextExtendsDiffs(s: seq<int>)
    requires s != []
    ensures AllZero(Diffs(s)) ==> AllZero(Diffs(s + [Next(s)]))
    ensures !AllZero(Diffs(s)) ==> Diffs(s + [Next(s)]) == Diffs(s) + [Next(Diffs(s))]
  {
    var t := s + [Next(s)];
    assert t[..|t| - 1] == s;
    assert Diffs(t) == Diffs(s) + [Next(s) - s[|s| - 1]];
  }

  lemma {:induction false} SumLastsPrepend(v: seq<int>, ls: seq<seq<int>>)
    requires v != []
    ensures SumLasts([v] + ls) == match SumLasts(ls) case None => None case Some(x) => Some(v[|v| - 1] + x)
    decreases |ls|
  {
    if ls == [] {
      assert ([v] + ls)[..0] == [];
    } else {
      assert ([v] + ls)[..|ls|] == [v] + ls[..|ls| - 1];
      SumLastsPrepend(v, ls[..|ls| - 1]);
    }
  }

  /** The stored levels' last elements add up to the prediction; an empty
      sequence panics. */
  lemma {:induction false} SumLastsIsNext(s: seq<int>)
    ensures SumLasts(Levels(s)).None? <==> s == []
    ensures s != [] ==> SumLasts(Levels(s)) == Some(Next(s))
    decreases |s|
  {
    if s == [] {
      assert Levels(s) == [[]];
    } else if AllZero(Diffs(s)) {
      assert Levels(s) == [s];
      assert [s][..0] == [];
    } else {
      SumLastsIsNext(Diffs(s));
      LevelsNonEmpty(s);
      SumLastsPrepend(s, Levels(Diffs(s)));
    }
  }

  /** The first loop of `part1` for one sequence: keep differencing the
      deepest level, stopping at the first all-zero difference level. */
  method BuildLevels(s: seq<int>) returns (derivs: seq<seq<int>>)
    ensures derivs == Levels(s)
  {
    derivs := [s];
    while true
      invariant |derivs| >= 1
      invariant derivs[..|derivs| - 1] + Levels(derivs[|derivs| - 1]) == Levels(s)
      decreases |derivs[|derivs| - 1]|
    {
      var top := derivs[|derivs| - 1];
      var vals := DiffLevel(top);
      if AllZero(vals) {
        assert derivs[..|derivs| - 1] + [top] == derivs;
        return;
      }
      assert (derivs + [vals])[..|derivs|] == derivs;
      derivs := derivs + [vals];
    }
  }

  /** The inner loop of `part1`: the pairwise differences of one level. */
  method DiffLevel(top: seq<int>) returns (vals: seq<int>)
    ensures vals == Diffs(top)
  {
    vals := [];
    var k := 0;
    while k + 1 < |top|
      invariant 0 <= k <= if top == [] then 0 else |top| - 1
      invariant top == [] ==> vals == []
      invariant top != [] ==> vals == Diffs(top[..k + 1])
    {
      assert top[..k + 2][..k + 1] == top[..k + 1];
      vals := vals + [top[k + 1] - top[k]];
      k := k + 1;
    }
    assert top == [] || top[..k + 1] == top;
  }

  /** The second loop: pop the levels, deepest first, adding up last elements. */
  method PopLasts(derivs: seq<seq<int>>) returns (r: Option<int>)
    ensures r == SumLasts(derivs)
  {
    var inc := 0;
    var n := |derivs|;
    assert derivs[..n] == derivs;
    while n > 0
      invariant 0 <= n <= |derivs|
      invariant SumLasts(derivs) == match SumLasts(derivs[..n]) case None => None case Some(x) => Some(x + inc)
    {
      var v := derivs[n - 1];
      assert derivs[..n][..n - 1] == derivs[..n - 1];
      if v == [] {
        return None;
      }
      inc := v[|v| - 1] + inc;
      n := n - 1;
    }
    r := Some(inc);
  }

  /** Both loops of `part1` for one sequence. */
  method Extrapolate(s: seq<int>) returns (r: Option<int>)
    ensures r.None? <==> s == []
    ensures s != [] ==> r == Some(Next(s))
  {
    var derivs := BuildLevels(s);
    r := PopLasts(derivs);
    SumLastsIsNext(s);
  }

  predicate AllNonEmpty(data: seq<seq<int>>) { forall i :: 0 <= i < |data| ==> data[i] != [] }

  /** The sum of the predictions of the sequences. */
  function TotalNext(data: seq<seq<int>>): int
    requires AllNonEmpty(data)
    decreases |data|
  {
    if data == [] then 0 else TotalNext(data[..|data| - 1]) + Next(data[|data| - 1])
  }

  /** `part1`: the sum of every sequence's prediction; an empty sequence panics. */
  method Part1(data: seq<seq<int>>) returns (r: Option<int>)
    ensures r.Some? <==> AllNonEmpty(data)
    ensures r.Some? ==> r.value == TotalNext(data)
  {
    var sum := 0;
    var i := 0;
    while i < |data|
      invariant 0 <= i <= |data|
      invariant AllNonEmpty(data[..i])
      invariant sum == TotalNext(data[..i])
    {
      var inc := Extrapolate(data[i]);
      if inc.None? {
        return None;
      }
      assert data[..i + 1][..i] == data[..i];
      sum := sum + inc.value;
      i := i + 1;
    }
    assert data[..i] == data;
    r := Some(sum);
  }

  lemma DiffsOf(s: seq<int>, d: seq<int>)
    requires |s| >= 1 && |d| == |s| - 1
    requires forall i :: 0 <= i < |d| ==> d[i] == s[i + 1] - s[i]
    ensures Diffs(s) == d
  {
    DiffsAt(s);
    assert |Diffs(s)| == |d|;
    forall i | 0 <= i < |d| ensures Diffs(s)[i] == d[i] {
      assert Diffs(s)[i] == s[i + 1] - s[i];
      assert d[i] == s[i + 1] - s[i];
    }
  }

  /** The sample's first sequence predicts 18. */
  lemma SampleFirst()
    ensures Next([0, 3, 6, 9, 12, 15]) == 18
  {
    DiffsOf([0, 3, 6, 9, 12, 15], [3, 3, 3, 3, 3]);
    DiffsOf([3, 3, 3, 3, 3], [0, 0, 0, 0]);
    assert !AllZero([3, 3, 3, 3, 3]) by { assert [3, 3, 3, 3, 3][0] == 3; }
  }

  /** The sample's second sequence predicts 28. */
  lemma SampleSecond()
    ensures Next([1, 3, 6, 10, 15, 21]) == 28
  {
    DiffsOf([1, 3, 6, 10, 15, 21], [2, 3, 4, 5, 6]);
    DiffsOf([2, 3, 4, 5, 6], [1, 1, 1, 1]);
    DiffsOf([1, 1, 1, 1], [0, 0, 0]);
    assert !AllZero([2, 3, 4, 5, 6]) by { assert [2, 3, 4, 5, 6][0] == 2; }
    assert !AllZero([1, 1, 1, 1]) by { assert [1, 1, 1, 1][0] == 1; }
  }

  /** The sample's third sequence predicts 68. */
  lemma SampleThird()
    ensures Next([10, 13, 16, 21, 30, 45]) == 68
  {
    DiffsOf([10, 13, 16, 21, 30, 45], [3, 3, 5, 9, 15]);
    DiffsOf([3, 3, 5, 9, 15], [0, 2, 4, 6]);
    DiffsOf([0, 2, 4, 6], [2, 2, 2]);
    DiffsOf([2, 2, 2], [0, 0]);
    assert !AllZero([3, 3, 5, 9, 15]) by { assert [3, 3, 5, 9, 15][0] == 3; }
    assert !AllZero([0, 2, 4, 6]) by { assert [0, 2, 4, 6][1] == 2; }
    assert !AllZero([2, 2, 2]) by { assert [2, 2, 2][0] == 2; }
  }

  /** The whole sample totals 114. */
  lemma SampleTotal()
    ensures AllNonEmpty([[0, 3, 6, 9, 12, 15], [1, 3, 6, 10, 15, 21], [10, 13, 16, 21, 30, 45]])
    ensures TotalNext([[0, 3, 6, 9, 12, 15], [1, 3, 6, 10, 15, 21], [10, 13, 16, 21, 30, 45]]) == 114
  {
    var data := [[0, 3, 6, 9, 12, 15], [1, 3, 6, 10, 15, 21], [10, 13, 16, 21, 30, 45]];
    SampleFirst();
    SampleSecond();
    SampleThird();
    assert data[..2][..1] == [data[0]] && [data[0]][..0] == data[..0];
    assert data[..2] == [data[0], data[1]];
    assert TotalNext([data[0]]) == 18;
    assert TotalNext(data[..2]) == 46;
  }
}
