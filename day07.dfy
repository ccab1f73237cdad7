// Day 7: camel cards. A hand of five cards is classified by the sorted counts
// of its distinct cards; hands are ranked by class and then card by card, and
// the winnings are the bids weighted by rank. Part 2 treats J as a joker.

module Day7 {
  import opened Lib
  import opened Sorting

  /** The source stores card values and counts as `u8`. */
  type Byte = x: nat | x < 256

  /** `card_value`: digits by face value, then T J Q K A as 10 to 14; any other
      character panics. */
  function CardValue(c: char): (r: Option<Byte>)
  {
    if '0' <= c <= '9' then Some(c as int - '0' as int)
    else if c == 'T' then Some(10)
    else if c == 'J' then Some(11)
    else if c == 'Q' then Some(12)
    else if c == 'K' then Some(13)
    else if c == 'A' then Some(14)
    else None
  }

  /** The cards of the game from weakest to strongest. */
  const CardOrder := "23456789TJQKA"

  const Joker: Byte := 11

  /** Along 2..9, T, J, Q, K, A the value is the position plus two, so it
      increases strictly; exactly digits and T, J, Q, K, A have a value. */
  lemma CardValueIncreasing()
    ensures forall i :: 0 <= i < |CardOrder| ==> CardValue(CardOrder[i]) == Some(i + 2)
    ensures forall i, j :: 0 <= i < j < |CardOrder| ==>
      CardValue(CardOrder[i]).value < CardValue(CardOrder[j]).value
    ensures forall c :: CardValue(c).None? <==> !('0' <= c <= '9') && c !in "TJQKA"
    ensures CardValue('J') == Some(Joker)
  {
    forall i | 0 <= i < |CardOrder| ensures CardValue(CardOrder[i]) == Some(i + 2) {
      if i < 8 {
        assert '2' <= CardOrder[i] <= '9';
        assert CardOrder[i] as int == '2' as int + i;
      }
    }
  }

  /* ---------------- classification ---------------- */

  datatype HandValue = HighCard | Pair | TwoPair | Three | FullHouse | Four | Five

  /** The derived ordering of `HandValue`: declaration order. */
  function Rank(v: HandValue): (r: nat)
    ensures r <= 6
  {
    match v
    case HighCard => 0
    case Pair => 1
    case TwoPair => 2
    case Three => 3
    case FullHouse => 4
    case Four => 5
    case Five => 6
  }

  /** The count table after counting `cards`: entry `v` is incremented once
      per card of value `v`. */
  function Tally(cards: seq<Byte>): (t: seq<nat>)
    ensures |t| == 256
    decreases |cards|
  {
    if cards == [] then seq(256, _ => 0)
    else
      var t := Tally(cards[..|cards| - 1]);
      var c := cards[|cards| - 1];
      t[c := t[c] + 1]
  }

  /** Entry `v` of the table is the number of cards of value `v`. */
  lemma {:induction false} TallyCounts(cards: seq<Byte>)
    ensures forall v: Byte :: Tally(cards)[v] == multiset(cards)[v]
    decreases |cards|
  {
    if cards != [] {
      var init := cards[..|cards| - 1];
      TallyCounts(init);
      assert cards == init + [cards[|cards| - 1]];
    }
  }

  /** The positive entries of `t`, in order. */
  function Positive(t: seq<nat>): (r: seq<nat>)
    decreases |t|
  {
    if t == [] then []
    else if t[|t| - 1] > 0 then Positive(t[..|t| - 1]) + [t[|t| - 1]]
    else Positive(t[..|t| - 1])
  }

  function SumOf(s: seq<nat>): nat
    decreases |s|
  {
    if s == [] then 0 else SumOf(s[..|s| - 1]) + s[|s| - 1]
  }

  function NatLe(a: nat, b: nat): bool { a <= b }

  /** The sorted counts of the distinct cards (the source's `countv`). */
  function Pattern(cards: seq<Byte>): seq<nat>
  {
    SortBy(Positive(Tally(cards)), NatLe)
  }

  /** The match on the sorted counts; any other shape panics. */
  function Classify(p: seq<nat>): (r: Option<HandValue>)
  {
    if p == [5] then Some(Five)
    else if p == [1, 4] then Some(Four)
    else if p == [2, 3] then Some(FullHouse)
    else if p == [1, 1, 3] then Some(Three)
    else if p == [1, 2, 2] then Some(TwoPair)
    else if p == [1, 1, 1, 2] then Some(Pair)
    else if p == [1, 1, 1, 1, 1] then Some(HighCard)
    else None
  }

  /* ---- sums and positivity ---- */

  lemma {:induction false} SumUpdate(t: seq<nat>, i: nat, x: nat)
    requires i < |t|
    ensures SumOf(t[i := x]) == SumOf(t) - t[i] + x
    decreases |t|
  {
    if i < |t| - 1 {
      assert t[i := x][..|t| - 1] == t[..|t| - 1][i := x];
      SumUpdate(t[..|t| - 1], i, x);
    } else {
      assert t[i := x][..|t| - 1] == t[..|t| - 1];
    }
  }

  lemma {:induction false} SumTally(cards: seq<Byte>)
    ensures SumOf(Tally(cards)) == |cards|
    decreases |cards|
  {
    if cards == [] {
      var z: seq<nat> := seq(256, _ => 0);
      SumZero(z);
    } else {
      var init := cards[..|cards| - 1];
      SumTally(init);
      var c := cards[|cards| - 1];
      SumUpdate(Tally(init), c, Tally(init)[c] + 1);
    }
  }

  lemma {:induction false} SumZero(z: seq<nat>)
    requires forall i :: 0 <= i < |z| ==> z[i] == 0
    ensures SumOf(z) == 0
    decreases |z|
  {
    if z != [] { SumZero(z[..|z| - 1]); }
  }

  lemma {:induction false} PositiveFacts(t: seq<nat>)
    ensures SumOf(Positive(t)) == SumOf(t)
    ensures forall i :: 0 <= i < |Positive(t)| ==> Positive(t)[i] >= 1
    decreases |t|
  {
    if t != [] {
      PositiveFacts(t[..|t| - 1]);
      if t[|t| - 1] > 0 {
        var p := Positive(t[..|t| - 1]);
        assert (p + [t[|t| - 1]])[..|p|] == p;
      }
    }
  }

  lemma {:induction false} SumInsert(s: seq<nat>, x: nat)
    ensures SumOf(Insert(s, x, NatLe)) == SumOf(s) + x
    decreases |s|
  {
    if s == [] || NatLe(s[|s| - 1], x) {
      assert (s + [x])[..|s|] == s;
    } else {
      var r := Insert(s[..|s| - 1], x, NatLe);
      SumInsert(s[..|s| - 1], x);
      assert (r + [s[|s| - 1]])[..|r|] == r;
    }
  }

  lemma {:induction false} SumSortBy(s: seq<nat>)
    ensures SumOf(SortBy(s, NatLe)) == SumOf(s)
    decreases |s|
  {
    if s != [] {
      SumSortBy(s[..|s| - 1]);
      SumInsert(SortBy(s[..|s| - 1], NatLe), s[|s| - 1]);
    }
  }

  lemma {:induction false} SumAtLeastLength(s: seq<nat>)
    requires forall i :: 0 <= i < |s| ==> s[i] >= 1
    ensures SumOf(s) >= |s|
    decreases |s|
  {
    if s != [] { SumAtLeastLength(s[..|s| - 1]); }
  }

  /** The sum of a list of at most five counts, written out. */
  lemma SumSmall(p: seq<nat>)
    ensures |p| == 1 ==> SumOf(p) == p[0]
    ensures |p| == 2 ==> SumOf(p) == p[0] + p[1]
    ensures |p| == 3 ==> SumOf(p) == p[0] + p[1] + p[2]
    ensures |p| == 4 ==> SumOf(p) == p[0] + p[1] + p[2] + p[3]
    ensures |p| == 5 ==> SumOf(p) == p[0] + p[1] + p[2] + p[3] + p[4]
  {
    if 1 <= |p| <= 5 {
      assert p[..1][..0] == [];
      if |p| >= 2 { assert p[..2][..1] == p[..1]; }
      if |p| >= 3 { assert p[..3][..2] == p[..2]; }
      if |p| >= 4 { assert p[..4][..3] == p[..3]; }
      if |p| == 5 { assert p[..5][..4] == p[..4]; }
      assert p[..|p|] == p;
    }
  }

  /** A sorted list of positive counts adding up to five is one of the seven
      shapes the match names. */
  lemma PartitionsOfFive(p: seq<nat>)
    requires SortedBy(p, NatLe)
    requires forall i :: 0 <= i < |p| ==> p[i] >= 1
    requires SumOf(p) == 5
    ensures Classify(p).Some?
  {
    SumAtLeastLength(p);
    SumSmall(p);
    if |p| >= 2 { assert NatLe(p[0], p[1]); }
    if |p| >= 3 { assert NatLe(p[1], p[2]); }
    if |p| >= 4 { assert NatLe(p[2], p[3]); }
    ShapesOfFive(p);
  }

  /** The case split of `PartitionsOfFive` on the length, with the order and
      the sum written out element by element. */
  lemma ShapesOfFive(p: seq<nat>)
    requires 1 <= |p| <= 5 && forall i :: 0 <= i < |p| ==> p[i] >= 1
    requires |p| >= 2 ==> p[0] <= p[1]
    requires |p| >= 3 ==> p[1] <= p[2]
    requires |p| >= 4 ==> p[2] <= p[3]
    requires |p| == 1 ==> p[0] == 5
    requires |p| == 2 ==> p[0] + p[1] == 5
    requires |p| == 3 ==> p[0] + p[1] + p[2] == 5
    requires |p| == 4 ==> p[0] + p[1] + p[2] + p[3] == 5
    requires |p| == 5 ==> p[0] + p[1] + p[2] + p[3] + p[4] == 5
    ensures Classify(p).Some?
  {
    if |p| == 1 {
      assert p == [5];
    } else if |p| == 2 {
      PairsOfFive(p);
    } else if |p| == 3 {
      TriplesOfFive(p);
    } else if |p| == 4 {
      assert p == [1, 1, 1, 2];
    } else {
      assert p == [1, 1, 1, 1, 1];
    }
  }

  lemma PairsOfFive(p: seq<nat>)
    requires |p| == 2 && 1 <= p[0] <= p[1] && p[0] + p[1] == 5
    ensures p == [1, 4] || p == [2, 3]
  {
    if p[0] == 1 { assert p == [1, 4]; } else { assert p == [2, 3]; }
  }

  lemma TriplesOfFive(p: seq<nat>)
    requires |p| == 3 && 1 <= p[0] <= p[1] <= p[2] && p[0] + p[1] + p[2] == 5
    ensures p == [1, 1, 3] || p == [1, 2, 2]
  {
    if p[1] == 1 { assert p == [1, 1, 3]; } else { assert p == [1, 2, 2]; }
  }

  /** Sorting a list of positive counts keeps it positive, sorted and with the same sum. */
  lemma SortedCounts(s: seq<nat>)
    requires forall i :: 0 <= i < |s| ==> s[i] >= 1
    ensures SortedBy(SortBy(s, NatLe), NatLe)
    ensures forall i :: 0 <= i < |SortBy(s, NatLe)| ==> SortBy(s, NatLe)[i] >= 1
    ensures SumOf(SortBy(s, NatLe)) == SumOf(s)
  {
    SortBySortsAndPermutes(s, NatLe);
    SumSortBy(s);
    var r := SortBy(s, NatLe);
    forall i | 0 <= i < |r| ensures r[i] >= 1 {
      assert r[i] in multiset(r);
      assert r[i] in multiset(s);
    }
  }

  /** The counts of a five-card hand always form one of the seven shapes, so
      `calc_hand_value` never reaches its panic. */
  lemma HandPatternClassifies(cards: seq<Byte>)
    requires |cards| == 5
    ensures Classify(Pattern(cards)).Some?
  {
    SumTally(cards);
    PositiveFacts(Tally(cards));
    SortedCounts(Positive(Tally(cards)));
    PartitionsOfFive(Pattern(cards));
  }

  /** The class depends only on which cards the hand holds, not their order. */
  lemma {:induction false} PatternIgnoresOrder(c1: seq<Byte>, c2: seq<Byte>)
    requires multiset(c1) == multiset(c2)
    ensures Pattern(c1) == Pattern(c2)
  {
    TallyCounts(c1);
    TallyCounts(c2);
    assert Tally(c1) == Tally(c2);
  }

  /** Five equal cards are a Five. */
  lemma FiveOfAKind(v: Byte)
    ensures Classify(Pattern([v, v, v, v, v])) == Some(Five)
  {
    var t := Tally([v, v, v, v, v]);
    TallyCounts([v, v, v, v, v]);
    assert forall u: Byte :: u != v ==> t[u] == 0;
    assert t[v] == 5;
    PositiveOfSingle(t, v);
    SortByKeepsSorted([5]);
  }

  /** Sorting an already sorted list of counts leaves it unchanged. */
  lemma {:induction false} SortByKeepsSorted(s: seq<nat>)
    requires SortedBy(s, NatLe)
    ensures SortBy(s, NatLe) == s
    decreases |s|
  {
    if s != [] {
      var init := s[..|s| - 1];
      SortByKeepsSorted(init);
      if |s| >= 2 { assert NatLe(s[|s| - 2], s[|s| - 1]); }
      assert s == init + [s[|s| - 1]];
    }
  }

  /** A table whose only positive entry is at `v` has `[t[v]]` as its positive part. */
  lemma {:induction false} PositiveOfSingle(t: seq<nat>, v: nat)
    requires v < |t| && t[v] > 0
    requires forall u :: 0 <= u < |t| && u != v ==> t[u] == 0
    ensures Positive(t) == [t[v]]
    decreases |t|
  {
    if |t| - 1 > v {
      assert t[..|t| - 1][v] == t[v];
      PositiveOfSingle(t[..|t| - 1], v);
    } else {
      PositiveNone(t[..|t| - 1]);
    }
  }

  lemma {:induction false} PositiveNone(t: seq<nat>)
    requires forall u :: 0 <= u < |t| ==> t[u] == 0
    ensures Positive(t) == []
    decreases |t|
  {
    if t != [] { PositiveNone(t[..|t| - 1]); }
  }

  /** `calc_hand_value`: count the cards in a 256-entry table, collect the
      positive counts, sort them and match the shape. */
  method CalcHandValue(cards: seq<Byte>) returns (v: HandValue)
    requires |cards| == 5
    ensures Classify(Pattern(cards)) == Some(v)
  {
    var counts := new nat[256](_ => 0);
    var i := 0;
    while i < |cards|
      invariant 0 <= i <= |cards|
      invariant counts[..] == Tally(cards[..i])
    {
      assert cards[..i + 1][..i] == cards[..i];
      counts[cards[i]] := counts[cards[i]] + 1;
      i := i + 1;
    }
    assert cards[..i] == cards;
    var countv := CollectPositive(counts);
    var sorted := SortBy(countv, NatLe);
    HandPatternClassifies(cards);
    match Classify(sorted) {
      case Some(hv) => v := hv;
    }
  }

  /** `into_iter().filter(|&c| c > 0).collect()` over the count table. */
  method CollectPositive(counts: array<nat>) returns (countv: seq<nat>)
    ensures countv == Positive(counts[..])
  {
    countv := [];
    var v := 0;
    while v < counts.Length
      invariant 0 <= v <= counts.Length
      invariant countv == Positive(counts[..v])
    {
      assert counts[..v + 1][..v] == counts[..v];
      if counts[v] > 0 {
        countv := countv + [counts[v]];
      }
      v := v + 1;
    }
    assert counts[..v] == counts[..];
  }

  /* ---------------- jokers ---------------- */

  /** The counts with the jokers held back and then added to the largest
      remaining count (or standing alone when every card is a joker). */
  function Pattern2(cards: seq<Byte>): seq<nat>
  {
    JokerPattern(Tally(cards))
  }

  /** The shape of a count table `t` with its jokers made wild. */
  function JokerPattern(t: seq<nat>): seq<nat>
    requires Joker as int < |t|
  {
    var rest := SortBy(Positive(t[Joker := 0]), NatLe);
    if rest == [] then [t[Joker]]
    else rest[..|rest| - 1] + [rest[|rest| - 1] + t[Joker]]
  }

  lemma {:induction false} SumSnocLast(s: seq<nat>, x: nat)
    requires s != []
    ensures SumOf(s[..|s| - 1] + [s[|s| - 1] + x]) == SumOf(s) + x
  {
    assert (s[..|s| - 1] + [s[|s| - 1] + x])[..|s| - 1] == s[..|s| - 1];
  }

  /** Jokers join the largest group, so the shape is still one of the seven
      and `calc_hand_value_2` never reaches its panic. */
  lemma HandPattern2Classifies(cards: seq<Byte>)
    requires |cards| == 5
    ensures Classify(Pattern2(cards)).Some?
  {
    SumTally(cards);
    JokerPatternClassifies(Tally(cards));
  }

  /** Any count table of five cards has one of the seven shapes once its
      jokers are made wild. */
  lemma JokerPatternClassifies(t: seq<nat>)
    requires Joker as int < |t| && SumOf(t) == 5
    ensures Classify(JokerPattern(t)).Some?
  {
    var rest := SortBy(Positive(t[Joker := 0]), NatLe);
    var p := if rest == [] then [t[Joker]] else rest[..|rest| - 1] + [rest[|rest| - 1] + t[Joker]];
    JokerPatternUnfold(t);
    NonJokerCounts(t);
    JokersJoinLargest(rest, t[Joker]);
  }

  lemma JokerPatternUnfold(t: seq<nat>)
    requires Joker as int < |t|
    ensures var rest := SortBy(Positive(t[Joker := 0]), NatLe);
      JokerPattern(t) == if rest == [] then [t[Joker]] else rest[..|rest| - 1] + [rest[|rest| - 1] + t[Joker]]
  {
  }

  /** The counts of the cards other than J, sorted: positive, ascending, and
      adding up to five less the jokers. */
  lemma NonJokerCounts(t: seq<nat>)
    requires Joker as int < |t| && SumOf(t) == 5
    ensures var rest := SortBy(Positive(t[Joker := 0]), NatLe);
      SortedBy(rest, NatLe) && (forall i :: 0 <= i < |rest| ==> rest[i] >= 1) &&
      SumOf(rest) + t[Joker] == 5
  {
    var pos := Positive(t[Joker := 0]);
    SumUpdate(t, Joker, 0);
    PositiveFacts(t[Joker := 0]);
    SortedCounts(pos);
  }

  /** Adding `j` jokers to the largest of sorted positive counts summing to
      `5 - j` (or taking them alone when there are no other cards) gives one
      of the seven shapes. */
  lemma JokersJoinLargest(rest: seq<nat>, j: nat)
    requires SortedBy(rest, NatLe)
    requires forall i :: 0 <= i < |rest| ==> rest[i] >= 1
    requires SumOf(rest) + j == 5
    ensures Classify(if rest == [] then [j] else rest[..|rest| - 1] + [rest[|rest| - 1] + j]).Some?
  {
    if rest == [] {
      assert j == 5;
    } else {
      var p: seq<nat> := rest[..|rest| - 1] + [rest[|rest| - 1] + j];
      SumSnocLast(rest, j);
      JoinedSorted(rest, j);
      PartitionsOfFive(p);
    }
  }

  /** Raising the last of a sorted list keeps it sorted and positive. */
  lemma JoinedSorted(rest: seq<nat>, j: nat)
    requires rest != [] && SortedBy(rest, NatLe)
    requires forall i :: 0 <= i < |rest| ==> rest[i] >= 1
    ensures var p: seq<nat> := rest[..|rest| - 1] + [rest[|rest| - 1] + j];
      SortedBy(p, NatLe) && forall i :: 0 <= i < |p| ==> p[i] >= 1
  {
    var p: seq<nat> := rest[..|rest| - 1] + [rest[|rest| - 1] + j];
    forall i, k | 0 <= i < k < |p| ensures NatLe(p[i], p[k]) {
      assert NatLe(rest[i], rest[|rest| - 1]);
      if k < |p| - 1 { assert NatLe(rest[i], rest[k]); }
    }
  }

  /** Without a J the joker rule changes nothing. */
  lemma NoJokerSameValue(cards: seq<Byte>)
    requires |cards| == 5
    requires forall i :: 0 <= i < |cards| ==> cards[i] != Joker
    ensures Pattern2(cards) == Pattern(cards)
  {
    var t := Tally(cards);
    TallyCounts(cards);
    assert Joker !in multiset(cards);
    assert t[Joker] == 0;
    assert t[Joker := 0] == t;
    SumTally(cards);
    PositiveFacts(t);
    SortedCounts(Positive(t));
    var rest := SortBy(Positive(t), NatLe);
    assert rest != [];
    assert rest == rest[..|rest| - 1] + [rest[|rest| - 1]];
  }

  /** Five jokers make a Five. */
  lemma AllJokersFive()
    ensures Classify(Pattern2([Joker, Joker, Joker, Joker, Joker])) == Some(Five)
  {
    var cards: seq<Byte> := [Joker, Joker, Joker, Joker, Joker];
    var t := Tally(cards);
    TallyCounts(cards);
    assert t[Joker] == 5;
    PositiveNone(t[Joker := 0]);
  }

  /** `calc_hand_value_2`: as `calc_hand_value`, but the joker count is held
      back and then added to the last (largest) sorted count. */
  method CalcHandValue2(cards: seq<Byte>) returns (v: HandValue)
    requires |cards| == 5
    ensures Classify(Pattern2(cards)) == Some(v)
  {
    var counts := new nat[256](_ => 0);
    var i := 0;
    while i < |cards|
      invariant 0 <= i <= |cards|
      invariant counts[..] == Tally(cards[..i])
    {
      assert cards[..i + 1][..i] == cards[..i];
      counts[cards[i]] := counts[cards[i]] + 1;
      i := i + 1;
    }
    assert cards[..i] == cards;
    var numJokers := counts[Joker];
    counts[Joker] := 0;
    assert counts[..] == Tally(cards)[Joker := 0];
    var countv := CollectPositive(counts);
    countv := SortBy(countv, NatLe);
    if |countv| == 0 {
      countv := [numJokers];
    } else {
      countv := countv[..|countv| - 1] + [countv[|countv| - 1] + numJokers];
    }
    HandPattern2Classifies(cards);
    match Classify(countv) {
      case Some(hv) => v := hv;
    }
  }

  /* ---------------- ordering and ranking ---------------- */

  datatype Ordering = Less | Equal | Greater

  function Flip(o: Ordering): Ordering
  {
    match o
    case Less => Greater
    case Equal => Equal
    case Greater => Less
  }

  /** Lexicographic comparison of card arrays. */
  function LexCompare(a: seq<nat>, b: seq<nat>): Ordering
    decreases |a|
  {
    if a == [] && b == [] then Equal
    else if a == [] then Less
    else if b == [] then Greater
    else if a[0] < b[0] then Less
    else if a[0] > b[0] then Greater
    else LexCompare(a[1..], b[1..])
  }

  datatype Hand = Hand(value: HandValue, cards: seq<Byte>, bid: nat)

  /** The hand-written `partial_cmp`: by hand value, then by cards. */
  function Compare(a: Hand, b: Hand): Ordering
  {
    if Rank(a.value) < Rank(b.value) then Less
    else if Rank(a.value) > Rank(b.value) then Greater
    else LexCompare(a.cards, b.cards)
  }

  lemma {:induction false} LexFlip(a: seq<nat>, b: seq<nat>)
    ensures LexCompare(a, b) == Flip(LexCompare(b, a))
    ensures LexCompare(a, b) == Equal <==> a == b
    decreases |a|
  {
    if a != [] && b != [] && a[0] == b[0] {
      LexFlip(a[1..], b[1..]);
      if a[1..] == b[1..] {
        assert a == [a[0]] + a[1..] && b == [b[0]] + b[1..];
      }
    }
  }

  lemma {:induction false} LexTransitive(a: seq<nat>, b: seq<nat>, c: seq<nat>)
    requires LexCompare(a, b) != Greater && LexCompare(b, c) != Greater
    ensures LexCompare(a, c) != Greater
    decreases |a|
  {
    if a != [] && b != [] && c != [] && a[0] == b[0] == c[0] {
      LexTransitive(a[1..], b[1..], c[1..]);
    }
  }

  /** The comparison is antisymmetric, says Equal exactly for equal hand
      values and cards (the hand-written `eq`), and ranks by value first. */
  lemma CompareProperties(a: Hand, b: Hand)
    ensures Compare(a, b) == Flip(Compare(b, a))
    ensures Compare(a, b) == Equal <==> a.value == b.value && a.cards == b.cards
    ensures Rank(a.value) < Rank(b.value) ==> Compare(a, b) == Less
  {
    LexFlip(a.cards, b.cards);
    if Rank(a.value) == Rank(b.value) {
      assert a.value == b.value;
    }
  }

  /** "Sorts no later than". */
  function HandLe(a: Hand, b: Hand): bool { Compare(a, b) != Greater }

  lemma HandLeTotalPreorder()
    ensures TotalPreorder(HandLe)
  {
    forall a: Hand, b: Hand ensures HandLe(a, b) || HandLe(b, a) {
      CompareProperties(a, b);
    }
    forall a: Hand, b: Hand, c: Hand | HandLe(a, b) && HandLe(b, c) ensures HandLe(a, c) {
      if Rank(a.value) == Rank(b.value) == Rank(c.value) {
        LexTransitive(a.cards, b.cards, c.cards);
      }
    }
  }

  /** The ranking used by both parts: a stable sort by the comparison, which
      yields the hands in ascending order, each exactly once. */
  lemma RankingSorted(hands: seq<Hand>)
    ensures |SortBy(hands, HandLe)| == |hands|
    ensures multiset(SortBy(hands, HandLe)) == multiset(hands)
    ensures forall i, j :: 0 <= i < j < |hands| ==>
      Compare(SortBy(hands, HandLe)[i], SortBy(hands, HandLe)[j]) != Greater
  {
    HandLeTotalPreorder();
    SortBySortsAndPermutes(hands, HandLe);
  }

  /** Σ (rank + 1) × bid over the ranked hands. */
  function Winnings(ranked: seq<Hand>): nat
    decreases |ranked|
  {
    if ranked == [] then 0 else Winnings(ranked[..|ranked| - 1]) + |ranked| * ranked[|ranked| - 1].bid
  }

  /** Every hand earns at least its bid, so the winnings are at least the sum of the bids. */
  lemma {:induction false} WinningsAtLeastBids(ranked: seq<Hand>)
    ensures Winnings(ranked) >= Bids(ranked)
    decreases |ranked|
  {
    if ranked != [] { WinningsAtLeastBids(ranked[..|ranked| - 1]); }
  }

  function Bids(hands: seq<Hand>): nat
    decreases |hands|
  {
    if hands == [] then 0 else Bids(hands[..|hands| - 1]) + hands[|hands| - 1].bid
  }

  /** The sum over a ranked list, as the `enumerate().map().sum()` loop computes it. */
  method SumWinnings(ranked: seq<Hand>) returns (total: nat)
    ensures total == Winnings(ranked)
  {
    total := 0;
    var i := 0;
    while i < |ranked|
      invariant 0 <= i <= |ranked|
      invariant total == Winnings(ranked[..i])
    {
      assert ranked[..i + 1][..i] == ranked[..i];
      total := total + (i + 1) * ranked[i].bid;
      i := i + 1;
    }
    assert ranked[..i] == ranked;
  }

  /** `part1`: sort the hands and sum the rank-weighted bids. */
  method Part1(hands: seq<Hand>) returns (total: nat)
    ensures total == Winnings(SortBy(hands, HandLe))
  {
    total := SumWinnings(SortBy(hands, HandLe));
  }

  /** Card value 11 (J) becomes 0, below every other card. */
  function JokersLow(cards: seq<Byte>): (r: seq<Byte>)
    ensures |r| == |cards|
  {
    seq(|cards|, i requires 0 <= i < |cards| => if cards[i] == Joker then 0 else cards[i])
  }

  /** When two hands agree up to a joker in one facing a card of value at
      least 1 in the other, the hand with the joker loses the tie-break. */
  lemma {:induction false} JokerLosesTie(a: seq<Byte>, b: seq<Byte>, i: nat)
    requires i < |a| && i < |b|
    requires a[..i] == b[..i]
    requires a[i] == Joker && b[i] != Joker && b[i] >= 1
    ensures LexCompare(JokersLow(a), JokersLow(b)) == Less
    decreases i
  {
    var ja, jb := JokersLow(a), JokersLow(b);
    if i > 0 {
      assert a[0] == b[0];
      assert ja[0] == jb[0];
      assert a[1..][..i - 1] == b[1..][..i - 1];
      JokerLosesTie(a[1..], b[1..], i - 1);
      assert JokersLow(a[1..]) == ja[1..];
      assert JokersLow(b[1..]) == jb[1..];
    }
  }

  /** A hand as part 2 sees it: jokers counted wild, then valued 0. */
  function Rejoker(h: Hand): (r: Hand)
    requires |h.cards| == 5
    ensures r.bid == h.bid && |r.cards| == 5
    ensures forall i :: 0 <= i < 5 ==> r.cards[i] == (if h.cards[i] == Joker then 0 else h.cards[i])
    ensures Classify(Pattern2(h.cards)) == Some(r.value)
  {
    HandPattern2Classifies(h.cards);
    Hand(Classify(Pattern2(h.cards)).value, JokersLow(h.cards), h.bid)
  }

  predicate FiveCards(hands: seq<Hand>) { forall i :: 0 <= i < |hands| ==> |hands[i].cards| == 5 }

  function RejokerAll(hands: seq<Hand>): (r: seq<Hand>)
    requires FiveCards(hands)
    ensures |r| == |hands|
  {
    seq(|hands|, i requires 0 <= i < |hands| => Rejoker(hands[i]))
  }

  /** The inner loop of `part2`: every J (11) of a hand becomes 0, in place. */
  method LowerJokers(cards0: seq<Byte>) returns (cards: seq<Byte>)
    ensures cards == JokersLow(cards0)
  {
    cards := cards0;
    var j := 0;
    while j < |cards|
      invariant 0 <= j <= |cards| == |cards0|
      invariant forall k :: 0 <= k < j ==> cards[k] == JokersLow(cards0)[k]
      invariant forall k :: j <= k < |cards| ==> cards[k] == cards0[k]
    {
      if cards[j] == 11 {
        cards := cards[j := 0];
      }
      j := j + 1;
    }
  }

  /** `part2`: every hand is revalued with jokers wild and its jokers lowered
      to 0, in place; then the hands are ranked as in part 1. */
  method Part2(hands: seq<Hand>) returns (total: nat)
    requires FiveCards(hands)
    ensures total == Winnings(SortBy(RejokerAll(hands), HandLe))
  {
    var data := hands;
    var i := 0;
    while i < |data|
      invariant 0 <= i <= |data| == |hands|
      invariant forall k :: 0 <= k < i ==> data[k] == Rejoker(hands[k])
      invariant forall k :: i <= k < |data| ==> data[k] == hands[k]
    {
      var value := CalcHandValue2(data[i].cards);
      var cards := LowerJokers(data[i].cards);
      assert Hand(value, cards, data[i].bid) == Rejoker(hands[i]);
      data := data[i := Hand(value, cards, data[i].bid)];
      i := i + 1;
    }
    assert data == RejokerAll(hands);
    total := SumWinnings(SortBy(data, HandLe));
  }

  /** The card string of one input line: each character's value, padded with
      zeros to five; an unknown character or a sixth card panics. */
  function HandCards(s: string): (r: Option<seq<Byte>>)
    ensures r.Some? <==> |s| <= 5 && forall i :: 0 <= i < |s| ==> CardValue(s[i]).Some?
    ensures r.Some? ==> |r.value| == 5
    ensures r.Some? ==> forall i :: 0 <= i < |s| ==> r.value[i] == CardValue(s[i]).value
    ensures r.Some? ==> forall i :: |s| <= i < 5 ==> r.value[i] == 0
  {
    if |s| > 5 || exists i :: 0 <= i < |s| && CardValue(s[i]).None? then None
    else Some(seq(5, i requires 0 <= i < 5 => if i < |s| then CardValue(s[i]).value else 0))
  }
}
