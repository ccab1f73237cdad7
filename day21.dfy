// Day 21: a garden of plots and rocks; each step, the elf can be on every
// plot next to a plot it could be on before. A row of the garden is a
// bitset kept in 64-bit words, bit 0 of word 0 being the low bit; a step is
// a handful of word-wise shifts, ORs and ANDs. `part1` counts the reachable
// plots after a number of steps.

module Day21 {
  import opened Lib

  /* ---------------- 64-bit words ---------------- */

  /** A `u64` as its 64 bits, bit `i` at index `i`. */
  type Word = w: seq<bool> | |w| == 64 witness seq(64, i => false)

  function Zero(): (z: Word)
    ensures forall i :: 0 <= i < 64 ==> !z[i]
  {
    seq(64, i => false)
  }

  /** `w << 1`: the top bit falls off. */
  function Shl1(w: Word): (r: Word)
    ensures forall i :: 0 <= i < 64 ==> r[i] == (i > 0 && w[i - 1])
  {
    [false] + w[..63]
  }

  /** `w >> 1`: the bottom bit falls off. */
  function Shr1(w: Word): (r: Word)
    ensures forall i :: 0 <= i < 64 ==> r[i] == (i < 63 && w[i + 1])
  {
    w[1..] + [false]
  }

  /** `w >> 63`: the top bit becomes bit 0. */
  function ShrTop(w: Word): (r: Word)
    ensures forall i :: 0 <= i < 64 ==> r[i] == (i == 0 && w[63])
  {
    [w[63]] + seq(63, i => false)
  }

  /** `w << 63`: bit 0 becomes the top bit. */
  function ShlTop(w: Word): (r: Word)
    ensures forall i :: 0 <= i < 64 ==> r[i] == (i == 63 && w[0])
  {
    seq(63, i => false) + [w[0]]
  }

  function Or(a: Word, b: Word): (r: Word)
    ensures forall i :: 0 <= i < 64 ==> r[i] == (a[i] || b[i])
  {
    seq(64, i requires 0 <= i < 64 => a[i] || b[i])
  }

  function And(a: Word, b: Word): (r: Word)
    ensures forall i :: 0 <= i < 64 ==> r[i] == (a[i] && b[i])
  {
    seq(64, i requires 0 <= i < 64 => a[i] && b[i])
  }

  /** `u64::count_ones`. */
  function PopCount(bs: seq<bool>): nat
    decreases |bs|
  {
    if bs == [] then 0 else PopCount(bs[..|bs| - 1]) + if bs[|bs| - 1] then 1 else 0
  }

  /* ---------------- rows as values ---------------- */

  /** The state of a `Row`: its width in bits and its words. */
  datatype RowVal = RowVal(bits: nat, pieces: seq<Word>)

  /** `Row::get`: bit `j`, false past the stored words. */
  function Get(r: RowVal, j: nat): bool
  {
    j / 64 < |r.pieces| && r.pieces[j / 64][j % 64]
  }

  /** The neighbouring bit positions of `j`, as word and bit. */
  lemma Below(j: nat)
    requires j > 0
    ensures j % 64 == 0 ==> (j - 1) / 64 == j / 64 - 1 && (j - 1) % 64 == 63
    ensures j % 64 != 0 ==> (j - 1) / 64 == j / 64 && (j - 1) % 64 == j % 64 - 1
  {
  }

  lemma Above(j: nat)
    ensures j % 64 == 63 ==> (j + 1) / 64 == j / 64 + 1 && (j + 1) % 64 == 0
    ensures j % 64 != 63 ==> (j + 1) / 64 == j / 64 && (j + 1) % 64 == j % 64 + 1
  {
  }

  /** A row is tidy when it has just the words its width needs and no bit
      set at or past its width; parsing makes such rows. */
  ghost predicate Valid(r: RowVal)
  {
    |r.pieces| == (r.bits + 63) / 64 && forall j: nat :: r.bits <= j ==> !Get(r, j)
  }

  /** What `shift_left` leaves: one more bit, a new word when the width
      needs it, and every word shifted up by one with the carry from the
      word below. */
  function ShiftedLeft(r: RowVal): (s: RowVal)
    ensures |s.pieces| >= 1
  {
    var ps := if (r.bits + 64) / 64 > |r.pieces| then r.pieces + [Zero()] else r.pieces;
    RowVal(r.bits + 1, seq(|ps|, i requires 0 <= i < |ps| => ShiftWord(ps, i)))
  }

  /** Word `i` shifted up by one, taking the top bit of the word below. */
  function ShiftWord(ps: seq<Word>, i: nat): (w: Word)
    requires i < |ps|
    ensures forall b :: 0 <= b < 64 ==> w[b] == if b > 0 then ps[i][b - 1] else i > 0 && ps[i - 1][63]
  {
    if i > 0 then Or(Shl1(ps[i]), ShrTop(ps[i - 1])) else Shl1(ps[i])
  }

  /** `shift_left` moves every bit up by one, within the words it keeps. */
  lemma ShiftedLeftBits(r: RowVal, j: nat)
    requires j < 64 * |ShiftedLeft(r).pieces|
    ensures Get(ShiftedLeft(r), j) == (j > 0 && Get(r, j - 1))
  {
    var ps := if (r.bits + 64) / 64 > |r.pieces| then r.pieces + [Zero()] else r.pieces;
    assert ShiftedLeft(r).pieces[j / 64] == ShiftWord(ps, j / 64);
    if j > 0 {
      Below(j);
      assert Get(r, j - 1) == ((j - 1) / 64 < |ps| && ps[(j - 1) / 64][(j - 1) % 64]);
    }
  }

  /** What `shift_in` leaves: shifted left, with `v` as bit 0. */
  function ShiftedIn(r: RowVal, v: bool): RowVal
  {
    var s := ShiftedLeft(r);
    if v then s.(pieces := s.pieces[0 := s.pieces[0][0 := true]]) else s
  }

  /** `shift_in` on a tidy row loses nothing: bit 0 is `v`, every old bit
      `j` is now bit `j + 1`, and the row stays tidy. */
  lemma ShiftedInBits(r: RowVal, v: bool)
    requires Valid(r)
    ensures Valid(ShiftedIn(r, v))
    ensures ShiftedIn(r, v).bits == r.bits + 1
    ensures forall j: nat :: Get(ShiftedIn(r, v), j) == if j == 0 then v else Get(r, j - 1)
  {
    var s := ShiftedIn(r, v);
    assert |s.pieces| == (s.bits + 63) / 64;
    forall j: nat
      ensures Get(s, j) == if j == 0 then v else Get(r, j - 1)
    {
      if j < 64 * |s.pieces| {
        ShiftedLeftBits(r, j);
      } else if j > 0 {
        assert r.bits <= j - 1;
      }
    }
  }

  /** `count_ones`: the set bits of every word. */
  function CountOnes(r: RowVal): nat
  {
    WordsCount(r.pieces)
  }

  function WordsCount(ps: seq<Word>): nat
    decreases |ps|
  {
    if ps == [] then 0 else WordsCount(ps[..|ps| - 1]) + PopCount(ps[|ps| - 1])
  }

  /** How many of the bits below `n` are set. */
  function CountBits(r: RowVal, n: nat): nat
    decreases n
  {
    if n == 0 then 0 else CountBits(r, n - 1) + if Get(r, n - 1) then 1 else 0
  }

  /** The bits of the first `b` places of word `k` are counted by its
      population count. */
  lemma {:induction false} WordCount(r: RowVal, k: nat, b: nat)
    requires k < |r.pieces| && b <= 64
    ensures CountBits(r, 64 * k + b) == CountBits(r, 64 * k) + PopCount(r.pieces[k][..b])
    decreases b
  {
    if b > 0 {
      WordCount(r, k, b - 1);
      assert r.pieces[k][..b][..b - 1] == r.pieces[k][..b - 1];
      assert (64 * k + b - 1) / 64 == k && (64 * k + b - 1) % 64 == b - 1;
    }
  }

  /** `count_ones` is the number of `j` for which `get(j)` holds. */
  lemma {:induction false} CountOnesCounts(r: RowVal, k: nat)
    requires k <= |r.pieces|
    ensures WordsCount(r.pieces[..k]) == CountBits(r, 64 * k)
    decreases k
  {
    if k > 0 {
      CountOnesCounts(r, k - 1);
      assert r.pieces[..k][..k - 1] == r.pieces[..k - 1];
      WordCount(r, k - 1, 64);
      assert r.pieces[k - 1][..64] == r.pieces[k - 1];
    }
  }

  /** No bit is set past the stored words. */
  lemma {:induction false} CountBitsBeyond(r: RowVal, n: nat)
    requires n >= 64 * |r.pieces|
    ensures CountBits(r, n) == CountBits(r, 64 * |r.pieces|)
    decreases n
  {
    if n > 64 * |r.pieces| {
      CountBitsBeyond(r, n - 1);
    }
  }

  /** What `or_shift_2` leaves: the row ORed with `other` shifted one bit
      up and one bit down, carries crossing words. */
  function OrShifted2(r: RowVal, other: RowVal): RowVal
  {
    var ps := if |r.pieces| < |other.pieces| then r.pieces + seq(|other.pieces| - |r.pieces|, i => Zero()) else r.pieces;
    var os := other.pieces;
    RowVal(if r.bits >= other.bits then r.bits else other.bits,
      seq(|ps|, i requires 0 <= i < |ps| =>
        if i < |os| then Or(ps[i], Spread(os, i)) else ps[i]))
  }

  /** Word `i` of `other` shifted both ways. */
  function Spread(os: seq<Word>, i: nat): Word
    requires i < |os|
  {
    var w := Or(Shl1(os[i]), Shr1(os[i]));
    var w := if i > 0 then Or(w, ShrTop(os[i - 1])) else w;
    if i + 1 < |os| then Or(w, ShlTop(os[i + 1])) else w
  }

  /** Bit `j` of the result is set when it was, or when a neighbouring bit
      of `other` is (within `other`'s words). */
  lemma OrShifted2Bits(r: RowVal, other: RowVal, j: nat)
    ensures Get(OrShifted2(r, other), j) ==
      (Get(r, j) || (j < 64 * |other.pieces| && ((j > 0 && Get(other, j - 1)) || Get(other, j + 1))))
  {
    if j / 64 < |other.pieces| {
      OrShifted2Word(r, other, j);
      SpreadNeighbours(other, j);
    }
  }

  /** Inside `other`'s words, bit `j` of the result ORs bit `j` of the row
      with bit `j % 64` of the spread word. */
  lemma OrShifted2Word(r: RowVal, other: RowVal, j: nat)
    requires j / 64 < |other.pieces|
    ensures Get(OrShifted2(r, other), j) == (Get(r, j) || Spread(other.pieces, j / 64)[j % 64])
  {
  }

  /** Bit `j % 64` of the spread word is set when bit `j - 1` or `j + 1`
      of `other` is. */
  lemma SpreadNeighbours(other: RowVal, j: nat)
    requires j / 64 < |other.pieces|
    ensures Spread(other.pieces, j / 64)[j % 64] == ((j > 0 && Get(other, j - 1)) || Get(other, j + 1))
  {
    if j > 0 {
      Below(j);
    }
    Above(j);
    SpreadBit(other.pieces, j / 64, j % 64);
  }

  /** Bit `b` of word `i` of the spread: a neighbouring bit, in this word or
      across the border into the next word down or up. */
  lemma SpreadBit(os: seq<Word>, i: nat, b: nat)
    requires i < |os| && b < 64
    ensures Spread(os, i)[b] ==
      ((b > 0 && os[i][b - 1]) || (b == 0 && i > 0 && os[i - 1][63]) ||
       (b < 63 && os[i][b + 1]) || (b == 63 && i + 1 < |os| && os[i + 1][0]))
  {
  }

  function MaxLen(a: seq<Word>, b: seq<Word>): nat
  {
    if |a| >= |b| then |a| else |b|
  }

  /** What `|=` leaves: word-wise OR, the longer row's words kept. */
  function OrWith(r: RowVal, rhs: RowVal): RowVal
  {
    RowVal(if r.bits >= rhs.bits then r.bits else rhs.bits,
      seq(MaxLen(r.pieces, rhs.pieces), i requires 0 <= i < MaxLen(r.pieces, rhs.pieces) => OrPiece(r.pieces, rhs.pieces, i)))
  }

  function OrPiece(a: seq<Word>, b: seq<Word>, i: nat): Word
    requires i < MaxLen(a, b)
  {
    if i < |a| && i < |b| then Or(a[i], b[i]) else if i < |a| then a[i] else b[i]
  }

  lemma OrWithBits(r: RowVal, rhs: RowVal, j: nat)
    ensures Get(OrWith(r, rhs), j) == (Get(r, j) || Get(rhs, j))
    ensures OrWith(r, rhs).bits == if r.bits >= rhs.bits then r.bits else rhs.bits
  {
  }

  /** What `&=` leaves: word-wise AND over `rhs`'s words; words past them
      are left alone, and missing words become zero. */
  function AndWith(r: RowVal, rhs: RowVal): RowVal
  {
    RowVal(if r.bits >= rhs.bits then r.bits else rhs.bits,
      seq(MaxLen(r.pieces, rhs.pieces), i requires 0 <= i < MaxLen(r.pieces, rhs.pieces) => AndPiece(r.pieces, rhs.pieces, i)))
  }

  function AndPiece(a: seq<Word>, b: seq<Word>, i: nat): Word
    requires i < MaxLen(a, b)
  {
    if i < |a| && i < |b| then And(a[i], b[i]) else if i < |a| then a[i] else Zero()
  }

  lemma AndWithBits(r: RowVal, rhs: RowVal, j: nat)
    ensures Get(AndWith(r, rhs), j) == if j < 64 * |rhs.pieces| then Get(r, j) && Get(rhs, j) else Get(r, j)
    ensures AndWith(r, rhs).bits == if r.bits >= rhs.bits then r.bits else rhs.bits
  {
  }

  /** What `set` leaves; `None` where the word index is out of range. */
  function SetBit(r: RowVal, j: nat, v: bool): Option<RowVal>
  {
    if j / 64 >= |r.pieces| then None
    else Some(r.(pieces := r.pieces[j / 64 := r.pieces[j / 64][j % 64 := v]]))
  }

  /** After `set(j, v)`, `get(j)` is `v` and every other bit is unchanged. */
  lemma SetBitBits(r: RowVal, j: nat, v: bool, k: nat)
    requires SetBit(r, j, v).Some?
    ensures Get(SetBit(r, j, v).value, j) == v
    ensures k != j ==> Get(SetBit(r, j, v).value, k) == Get(r, k)
  {
    if k != j && k / 64 == j / 64 {
      assert k % 64 != j % 64;
    }
  }

  /* ---------------- the Row object ---------------- */

  class Row {
    var bits: nat
    var pieces: seq<Word>

    function Val(): RowVal
      reads this
    {
      RowVal(bits, pieces)
    }

    /** `Row::new`: no bits, no words. */
    constructor()
      ensures Val() == RowVal(0, [])
    {
      bits := 0;
      pieces := [];
    }

    method ShiftLeft()
      modifies this
      ensures Val() == ShiftedLeft(old(Val()))
    {
      var newBits := bits + 1;
      var newNumPieces := (newBits + 64 - 1) / 64;
      if newNumPieces > |pieces| {
        pieces := pieces + [Zero()];
      }
      ghost var ps := pieces;
      var i := |pieces|;
      while i > 0
        invariant 0 <= i <= |ps| && |pieces| == |ps|
        invariant forall k :: 0 <= k < i ==> pieces[k] == ps[k]
        invariant forall k :: i <= k < |ps| ==> pieces[k] == ShiftWord(ps, k)
      {
        i := i - 1;
        var newval := Shl1(pieces[i]);
        if i > 0 {
          newval := Or(newval, ShrTop(pieces[i - 1]));
        }
        pieces := pieces[i := newval];
      }
      assert pieces == ShiftedLeft(old(Val())).pieces;
      bits := newBits;
    }

    method ShiftIn(v: bool)
      modifies this
      ensures Val() == ShiftedIn(old(Val()), v)
    {
      ShiftLeft();
      if v {
        pieces := pieces[0 := pieces[0][0 := true]];
      }
    }

    method OrShift2(other: RowVal)
      modifies this
      ensures Val() == OrShifted2(old(Val()), other)
    {
      bits := if bits >= other.bits then bits else other.bits;
      while |pieces| < |other.pieces|
        invariant bits == OrShifted2(old(Val()), other).bits
        invariant |old(pieces)| <= |pieces| <= (if |old(pieces)| < |other.pieces| then |other.pieces| else |old(pieces)|)
        invariant pieces == old(pieces) + seq(|pieces| - |old(pieces)|, i => Zero())
        decreases |other.pieces| - |pieces|
      {
        pieces := pieces + [Zero()];
      }
      ghost var ps := pieces;
      var os := other.pieces;
      var i := 0;
      while i < |os|
        invariant 0 <= i <= |os| && |pieces| == |ps| && bits == OrShifted2(old(Val()), other).bits
        invariant forall k :: 0 <= k < i ==> pieces[k] == Or(ps[k], Spread(os, k))
        invariant forall k :: i <= k < |ps| ==> pieces[k] == ps[k]
      {
        var w := Or(pieces[i], Shl1(os[i]));
        w := Or(w, Shr1(os[i]));
        if i > 0 {
          w := Or(w, ShrTop(os[i - 1]));
        }
        if i + 1 < |os| {
          w := Or(w, ShlTop(os[i + 1]));
        }
        SpreadOr(ps[i], os, i);
        pieces := pieces[i := w];
        i := i + 1;
      }
      assert pieces == OrShifted2(old(Val()), other).pieces;
    }

    method OrAssign(rhs: RowVal)
      modifies this
      ensures Val() == OrWith(old(Val()), rhs)
    {
      bits := if bits >= rhs.bits then bits else rhs.bits;
      ghost var ps := pieces;
      var i := 0;
      while i < |rhs.pieces|
        invariant 0 <= i <= |rhs.pieces| && bits == OrWith(old(Val()), rhs).bits
        invariant |pieces| == if |ps| >= i then |ps| else i
        invariant forall k :: 0 <= k < |pieces| ==>
          pieces[k] == if k < i then OrPiece(ps, rhs.pieces, k) else ps[k]
      {
        if i >= |pieces| {
          pieces := pieces + [rhs.pieces[i]];
        } else {
          pieces := pieces[i := Or(pieces[i], rhs.pieces[i])];
        }
        i := i + 1;
      }
      assert pieces == OrWith(old(Val()), rhs).pieces;
    }

    method AndAssign(rhs: RowVal)
      modifies this
      ensures Val() == AndWith(old(Val()), rhs)
    {
      bits := if bits >= rhs.bits then bits else rhs.bits;
      ghost var ps := pieces;
      var i := 0;
      while i < |rhs.pieces|
        invariant 0 <= i <= |rhs.pieces| && bits == AndWith(old(Val()), rhs).bits
        invariant |pieces| == if |ps| >= i then |ps| else i
        invariant forall k :: 0 <= k < |pieces| ==>
          pieces[k] == if k < i then AndPiece(ps, rhs.pieces, k) else ps[k]
      {
        if i >= |pieces| {
          pieces := pieces + [Zero()];
        } else {
          pieces := pieces[i := And(pieces[i], rhs.pieces[i])];
        }
        i := i + 1;
      }
      assert pieces == AndWith(old(Val()), rhs).pieces;
    }

    /** `set`; `false` where the source panics on the word index. */
    method Set(j: nat, v: bool) returns (ok: bool)
      modifies this
      ensures ok <==> SetBit(old(Val()), j, v).Some?
      ensures ok ==> Val() == SetBit(old(Val()), j, v).value
    {
      var wordidx := j / 64;
      var bitidx := j % 64;
      if wordidx >= |pieces| {
        return false;
      }
      pieces := pieces[wordidx := pieces[wordidx][bitidx := v]];
      return true;
    }
  }

  /** The word the loop of `or_shift_2` builds is the word `OrShifted2`
      describes. */
  lemma SpreadOr(p: Word, os: seq<Word>, i: nat)
    requires i < |os|
    ensures Or(p, Spread(os, i)) ==
      (var w := Or(Or(p, Shl1(os[i])), Shr1(os[i]));
       var w := if i > 0 then Or(w, ShrTop(os[i - 1])) else w;
       if i + 1 < |os| then Or(w, ShlTop(os[i + 1])) else w)
  {
  }

  /* ---------------- the garden ---------------- */

  datatype Data = Data(plots: seq<RowVal>, spots: seq<RowVal>)

  /** The new row `i` of `Data::next`. */
  function NextRow(d: Data, i: nat): RowVal
    requires i < |d.spots| && i < |d.plots|
  {
    var r := OrShifted2(RowVal(0, []), d.spots[i]);
    var r := if i > 0 then OrWith(r, d.spots[i - 1]) else r;
    var r := if i + 1 < |d.spots| then OrWith(r, d.spots[i + 1]) else r;
    AndWith(r, d.plots[i])
  }

  /** `Data::next`; `None` where there are fewer plot rows than spot rows
      and `self.plots[i]` panics. */
  function Step(d: Data): Option<Data>
  {
    if |d.plots| < |d.spots| then None
    else Some(Data(d.plots, NextRows(d, |d.spots|)))
  }

  /** The first `n` new rows. */
  function NextRows(d: Data, n: nat): (rows: seq<RowVal>)
    requires n <= |d.spots| && n <= |d.plots|
    ensures |rows| == n
    decreases n
  {
    if n == 0 then [] else NextRows(d, n - 1) + [NextRow(d, n - 1)]
  }

  lemma {:induction false} NextRowsAt(d: Data, n: nat, i: nat)
    requires i < n <= |d.spots| && n <= |d.plots|
    ensures NextRows(d, n)[i] == NextRow(d, i)
    decreases n
  {
    if i < n - 1 {
      NextRowsAt(d, n - 1, i);
    }
  }

  /** Every row has `n` words. */
  predicate SameWords(d: Data, n: nat)
  {
    (forall i :: 0 <= i < |d.plots| ==> |d.plots[i].pieces| == n) &&
    (forall i :: 0 <= i < |d.spots| ==> |d.spots[i].pieces| == n)
  }

  /** The step rule: when every row has the same words, a cell has a spot
      after the step exactly when it is a plot and a cell beside it, above
      it or below it has a spot now. */
  lemma StepRule(d: Data, n: nat, i: nat, j: nat)
    requires Step(d).Some? && SameWords(d, n) && i < |d.spots| && j < 64 * n
    ensures Get(Step(d).value.spots[i], j) ==
      (Get(d.plots[i], j) &&
       ((j > 0 && Get(d.spots[i], j - 1)) || Get(d.spots[i], j + 1) ||
        (i > 0 && Get(d.spots[i - 1], j)) || (i + 1 < |d.spots| && Get(d.spots[i + 1], j))))
  {
    var r := OrShifted2(RowVal(0, []), d.spots[i]);
    OrShifted2Bits(RowVal(0, []), d.spots[i], j);
    var r1 := if i > 0 then OrWith(r, d.spots[i - 1]) else r;
    if i > 0 {
      OrWithBits(r, d.spots[i - 1], j);
    }
    var r2 := if i + 1 < |d.spots| then OrWith(r1, d.spots[i + 1]) else r1;
    if i + 1 < |d.spots| {
      OrWithBits(r1, d.spots[i + 1], j);
    }
    AndWithBits(r2, d.plots[i], j);
    NextRowsAt(d, |d.spots|, i);
    assert Step(d).value.spots[i] == NextRow(d, i) == AndWith(r2, d.plots[i]);
  }

  /** A step keeps the plots and the number of words of every spot row. */
  lemma StepKeepsWords(d: Data, n: nat)
    requires Step(d).Some? && SameWords(d, n)
    ensures Step(d).value.plots == d.plots && |Step(d).value.spots| == |d.spots|
    ensures SameWords(Step(d).value, n)
  {
    forall i | 0 <= i < |d.spots|
      ensures |Step(d).value.spots[i].pieces| == n
    {
      NextRowsAt(d, |d.spots|, i);
      NextRowWords(d, n, i);
    }
  }

  lemma NextRowWords(d: Data, n: nat, i: nat)
    requires i < |d.spots| && i < |d.plots| && SameWords(d, n)
    ensures |NextRow(d, i).pieces| == n
  {
  }

  /** One new row of `Data::next`: the row's own spots spread sideways,
      the rows above and below OR-ed in, masked by the plots. */
  method BuildRow(d: Data, i: nat) returns (row: RowVal)
    requires i < |d.spots| && i < |d.plots|
    ensures row == NextRow(d, i)
  {
    var newRow := new Row();
    newRow.OrShift2(d.spots[i]);
    if i > 0 {
      newRow.OrAssign(d.spots[i - 1]);
    }
    if i + 1 < |d.spots| {
      newRow.OrAssign(d.spots[i + 1]);
    }
    newRow.AndAssign(d.plots[i]);
    row := newRow.Val();
  }

  /** `Data::next`, building each new row in place. */
  method Next(d: Data) returns (r: Option<Data>)
    ensures r == Step(d)
  {
    if |d.plots| < |d.spots| {
      return None;
    }
    var newSpots: seq<RowVal> := [];
    var i := 0;
    while i < |d.spots|
      invariant 0 <= i <= |d.spots|
      invariant newSpots == NextRows(d, i)
    {
      var row := BuildRow(d, i);
      newSpots := newSpots + [row];
      i := i + 1;
    }
    return Some(Data(d.plots, newSpots));
  }

  /* ---------------- parsing ---------------- */

  /** A row built by shifting in `bs` from first to last: the first cell
      ends up in the highest bit. */
  function RowOf(bs: seq<bool>): RowVal
    decreases |bs|
  {
    if bs == [] then RowVal(0, []) else ShiftedIn(RowOf(bs[..|bs| - 1]), bs[|bs| - 1])
  }

  /** A parsed row is tidy, as wide as its line, and bit `j` is cell
      `|bs| - 1 - j`. */
  lemma {:induction false} RowOfBits(bs: seq<bool>)
    ensures Valid(RowOf(bs)) && RowOf(bs).bits == |bs|
    ensures forall j: nat :: Get(RowOf(bs), j) == (j < |bs| && bs[|bs| - 1 - j])
    decreases |bs|
  {
    if bs != [] {
      var init := bs[..|bs| - 1];
      RowOfBits(init);
      ShiftedInBits(RowOf(init), bs[|bs| - 1]);
    }
  }

  function PlotCells(line: string): (bs: seq<bool>)
    ensures |bs| == |line| && forall k :: 0 <= k < |line| ==> bs[k] == (line[k] != '#')
  {
    seq(|line|, k requires 0 <= k < |line| => line[k] != '#')
  }

  function SpotCells(line: string): (bs: seq<bool>)
    ensures |bs| == |line| && forall k :: 0 <= k < |line| ==> bs[k] == (line[k] == 'S')
  {
    seq(|line|, k requires 0 <= k < |line| => line[k] == 'S')
  }

  /** One line: a plot row and a spot row, a character at a time. */
  method ParseRow(line: string) returns (plot: RowVal, spot: RowVal)
    ensures Parsed(line, plot, spot)
  {
    ghost var plots := PlotCells(line);
    ghost var spots := SpotCells(line);
    var p := new Row();
    var s := new Row();
    var k := 0;
    while k < |line|
      invariant 0 <= k <= |line|
      invariant p.Val() == RowOf(plots[..k]) && s.Val() == RowOf(spots[..k])
      invariant p != s
    {
      RowOfSnoc(plots, k);
      RowOfSnoc(spots, k);
      p.ShiftIn(line[k] != '#');
      s.ShiftIn(line[k] == 'S');
      k := k + 1;
    }
    assert plots[..k] == plots && spots[..k] == spots;
    return p.Val(), s.Val();
  }

  lemma RowOfSnoc(bs: seq<bool>, k: nat)
    requires k < |bs|
    ensures RowOf(bs[..k + 1]) == ShiftedIn(RowOf(bs[..k]), bs[k])
  {
    assert bs[..k + 1][..k] == bs[..k];
  }

  /** `plot` and `spot` are the rows parsed from `line`. */
  predicate Parsed(line: string, plot: RowVal, spot: RowVal)
  {
    plot == RowOf(PlotCells(line)) && spot == RowOf(SpotCells(line))
  }

  /** `parse_input`: one plot row and one spot row per line. */
  method ParseInput(text: string) returns (d: Data)
    ensures |d.plots| == |d.spots| == |Lines(text)|
    ensures forall i :: 0 <= i < |d.plots| ==> Parsed(Lines(text)[i], d.plots[i], d.spots[i])
  {
    var lines := Lines(text);
    var plots: seq<RowVal> := [];
    var spots: seq<RowVal> := [];
    var i := 0;
    while i < |lines|
      invariant 0 <= i <= |lines| && |plots| == |spots| == i
      invariant forall k :: 0 <= k < i ==> Parsed(lines[k], plots[k], spots[k])
    {
      var plot, spot := ParseRow(lines[i]);
      plots := plots + [plot];
      spots := spots + [spot];
      i := i + 1;
    }
    return Data(plots, spots);
  }

  /** On lines of one width, every parsed row has the same words, and cell
      `k` of line `i` is bit `width - 1 - k` of row `i`. */
  lemma ParsedCells(lines: seq<string>, width: nat, d: Data)
    requires forall i :: 0 <= i < |lines| ==> |lines[i]| == width
    requires |d.plots| == |d.spots| == |lines|
    requires forall i :: 0 <= i < |lines| ==> Parsed(lines[i], d.plots[i], d.spots[i])
    ensures SameWords(d, (width + 63) / 64)
    ensures forall i, k :: 0 <= i < |lines| && 0 <= k < width ==>
      Get(d.plots[i], width - 1 - k) == (lines[i][k] != '#') &&
      Get(d.spots[i], width - 1 - k) == (lines[i][k] == 'S')
  {
    forall i | 0 <= i < |lines|
      ensures |d.plots[i].pieces| == (width + 63) / 64 && |d.spots[i].pieces| == (width + 63) / 64
      ensures forall k :: 0 <= k < width ==>
        Get(d.plots[i], width - 1 - k) == (lines[i][k] != '#') &&
        Get(d.spots[i], width - 1 - k) == (lines[i][k] == 'S')
    {
      RowOfBits(PlotCells(lines[i]));
      RowOfBits(SpotCells(lines[i]));
    }
  }

  /* ---------------- part 1 ---------------- */

  /** The set places of every spot row, counted place by place over the
      words each row stores. */
  function SpotBits(spots: seq<RowVal>): nat
    decreases |spots|
  {
    if spots == [] then 0
    else SpotBits(spots[..|spots| - 1]) + CountBits(spots[|spots| - 1], 64 * |spots[|spots| - 1].pieces|)
  }

  /** `count_spots`: the number of places, over all spot rows, where `get`
      holds. */
  function CountSpots(spots: seq<RowVal>): (r: nat)
    ensures r == SpotBits(spots)
    decreases |spots|
  {
    if spots == [] then 0
    else
      var last := spots[|spots| - 1];
      CountOnesCounts(last, |last.pieces|);
      assert last.pieces[..|last.pieces|] == last.pieces;
      CountSpots(spots[..|spots| - 1]) + CountOnes(last)
  }

  /** `steps` steps in a row. */
  function Steps(d: Data, steps: nat): Option<Data>
    decreases steps
  {
    if steps == 0 then Some(d)
    else
      match Steps(d, steps - 1)
      case None => None
      case Some(e) => Step(e)
  }

  /** `part1`: step `steps` times and count the spots. */
  method Part1(d: Data, steps: nat) returns (r: Option<nat>)
    ensures r.None? <==> Steps(d, steps).None?
    ensures r.Some? ==> r.value == CountSpots(Steps(d, steps).value.spots)
  {
    var data := d;
    var i := 0;
    while i < steps
      invariant 0 <= i <= steps
      invariant Steps(d, i) == Some(data)
    {
      var next := Next(data);
      if next.None? {
        StepsStop(d, i + 1, steps);
        return None;
      }
      data := next.value;
      i := i + 1;
    }
    return Some(CountSpots(data.spots));
  }

  lemma {:induction false} StepsStop(d: Data, n: nat, m: nat)
    requires n <= m && Steps(d, n).None?
    ensures Steps(d, m).None?
    decreases m - n
  {
    if n < m {
      StepsStop(d, n, m - 1);
    }
  }

  /** On rows of equal words, steps never fail and the plots stay put. */
  lemma {:induction false} StepsKeep(d: Data, n: nat, steps: nat)
    requires |d.spots| <= |d.plots| && SameWords(d, n)
    ensures Steps(d, steps).Some? && Steps(d, steps).value.plots == d.plots
    ensures |Steps(d, steps).value.spots| == |d.spots| && SameWords(Steps(d, steps).value, n)
    decreases steps
  {
    if steps > 0 {
      StepsKeep(d, n, steps - 1);
      StepKeepsWords(Steps(d, steps - 1).value, n);
    }
  }
}
