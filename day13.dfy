// Day 13: mirrors in fields of ash and rocks. Each line of a field is packed
// into a 32-bit word (leftmost cell most significant, `#` = 1); columns are
// packed the same way from the rows. A mirror line is the first gap whose
// mirrored pairs all agree; the smudged variant wants exactly one differing
// cell over all the mirrored pairs.

module Day13 {
  import opened Lib

  /** The source's rows are `u32`: shifting left drops the top bit. */
  const Word: nat := 0x1_0000_0000

  /** A packed line or column. */
  type Row = x: nat | x < Word

  /** Bit `j` of a word, counted from the least significant end: `(x >> j) & 1`. */
  predicate Bit(x: nat, j: nat)
    decreases j
  {
    if j == 0 then x % 2 == 1 else Bit(x / 2, j - 1)
  }

  /** Shifting a bit in moves every other bit up by one place. */
  lemma ShiftInBit(x: nat, e: nat, j: nat)
    requires e < 2
    ensures Bit(2 * x + e, j) == if j == 0 then e == 1 else Bit(x, j - 1)
  {
  }

  /** A value below 2^n has no bit set at or above n. */
  lemma {:induction false} HighBitClear(x: nat, n: nat, j: nat)
    requires x < Pow2(n) && n <= j
    ensures !Bit(x, j)
    decreases j
  {
    if j > 0 {
      if n > 0 {
        HighBitClear(x / 2, n - 1, j - 1);
      } else {
        HighBitClear(x / 2, 0, j - 1);
      }
    }
  }

  /** A value is determined by its bits. */
  lemma {:induction false} BitsDetermine(x: nat, y: nat)
    requires forall j: nat :: Bit(x, j) == Bit(y, j)
    ensures x == y
    decreases x + y
  {
    assert Bit(x, 0) == Bit(y, 0);
    assert x == 2 * (x / 2) + x % 2 && y == 2 * (y / 2) + y % 2;
    if x != 0 || y != 0 {
      forall j: nat
        ensures Bit(x / 2, j) == Bit(y / 2, j)
      {
        assert Bit(x, j + 1) == Bit(x / 2, j);
        assert Bit(y, j + 1) == Bit(y / 2, j);
      }
      BitsDetermine(x / 2, y / 2);
    }
  }

  /* ---------------- packing ---------------- */

  /** Shift each flag in at the bottom, oldest first, in a 32-bit word. */
  function Pack(bs: seq<bool>): Row
    decreases |bs|
  {
    if bs == [] then 0
    else (2 * Pack(bs[..|bs| - 1]) + (if bs[|bs| - 1] then 1 else 0)) % Word
  }

  lemma Pow2Word()
    ensures Pow2(32) == Word
  {
    assert Pow2(4) == 16;
    assert Pow2(8) == 256;
    assert Pow2(12) == 4096;
    assert Pow2(16) == 65536;
    assert Pow2(20) == 1048576;
    assert Pow2(24) == 16777216;
    assert Pow2(28) == 268435456;
  }

  /** With at most 32 flags nothing is shifted out: the word is below 2^|bs|,
      and flag `k` lands on bit `|bs| - 1 - k`. */
  lemma {:induction false} PackBits(bs: seq<bool>)
    requires |bs| <= 32
    ensures Pack(bs) < Pow2(|bs|)
    ensures forall k :: 0 <= k < |bs| ==> Bit(Pack(bs), |bs| - 1 - k) == bs[k]
    decreases |bs|
  {
    if bs != [] {
      var init := bs[..|bs| - 1];
      PackBits(init);
      var e: nat := if bs[|bs| - 1] then 1 else 0;
      Pow2Monotone(|bs|, 32);
      Pow2Word();
      assert Pack(bs) == 2 * Pack(init) + e;
      forall k | 0 <= k < |bs|
        ensures Bit(Pack(bs), |bs| - 1 - k) == bs[k]
      {
        ShiftInBit(Pack(init), e, |bs| - 1 - k);
      }
    }
  }

  /** Packing at most 32 flags loses nothing: equal words mean equal flags. */
  lemma PackInjective(bs: seq<bool>, cs: seq<bool>)
    requires |bs| == |cs| <= 32
    ensures Pack(bs) == Pack(cs) <==> bs == cs
  {
    if Pack(bs) == Pack(cs) {
      PackBits(bs);
      PackBits(cs);
      forall k | 0 <= k < |bs|
        ensures bs[k] == cs[k]
      {
        assert Bit(Pack(bs), |bs| - 1 - k) == bs[k];
      }
    }
  }

  /** `make_row`'s cells: `#` is set, anything else clear. */
  function Cells(s: string): (bs: seq<bool>)
    ensures |bs| == |s|
    ensures forall k :: 0 <= k < |s| ==> bs[k] == (s[k] == '#')
  {
    seq(|s|, k requires 0 <= k < |s| => s[k] == '#')
  }

  /** `make_row`: pack a line, leftmost character most significant. */
  method MakeRow(s: string) returns (r: Row)
    ensures r == Pack(Cells(s))
  {
    r := 0;
    var k := 0;
    while k < |s|
      invariant 0 <= k <= |s|
      invariant r == Pack(Cells(s)[..k])
    {
      ghost var cs := Cells(s)[..k + 1];
      assert cs[..|cs| - 1] == Cells(s)[..k] && cs[|cs| - 1] == (s[k] == '#');
      ShiftInCell(r, s[k] == '#');
      r := (2 * r) % Word;
      if s[k] == '#' {
        r := r + 1;
      }
      k := k + 1;
    }
    assert Cells(s)[..k] == Cells(s);
  }

  /** Shifting a word left drops its top bit and leaves bit 0 clear, so
      setting bit 0 afterwards cannot carry. */
  lemma ShiftInCell(x: int, b: bool)
    ensures (2 * x + (if b then 1 else 0)) % Word == (2 * x) % Word + (if b then 1 else 0)
  {
    var d := (2 * x) / Word;
    var m := (2 * x) % Word;
    assert 2 * x == Word * d + m;
    assert m == 2 * (x - (Word / 2) * d);
    if b {
      assert 2 * x + 1 == Word * d + (m + 1) && 0 <= m + 1 < Word;
    }
  }

  /** A line of at most 32 cells: bit `|s| - 1 - k` is set iff character `k`
      is `#`, and no bit at or above `|s|` is set. */
  lemma MakeRowBits(s: string)
    requires |s| <= 32
    ensures forall k :: 0 <= k < |s| ==> Bit(Pack(Cells(s)), |s| - 1 - k) == (s[k] == '#')
    ensures forall j: nat :: |s| <= j ==> !Bit(Pack(Cells(s)), j)
  {
    PackBits(Cells(s));
    forall j: nat | |s| <= j
      ensures !Bit(Pack(Cells(s)), j)
    {
      HighBitClear(Pack(Cells(s)), |s|, j);
    }
  }

  /* ---------------- columns ---------------- */

  /** Column `i`'s cells, top to bottom: bit `i` of each row. */
  function ColCells(rows: seq<Row>, i: nat): (bs: seq<bool>)
    ensures |bs| == |rows|
    ensures forall k :: 0 <= k < |rows| ==> bs[k] == Bit(rows[k], i)
  {
    seq(|rows|, k requires 0 <= k < |rows| => Bit(rows[k], i))
  }

  /** `Field::col`: bit `i` of every row, packed with the top row most
      significant. The shift `r >> i` needs `i < 32`. */
  method Col(rows: seq<Row>, i: nat) returns (c: Row)
    requires i < 32
    ensures c == Pack(ColCells(rows, i))
  {
    c := 0;
    var k := 0;
    while k < |rows|
      invariant 0 <= k <= |rows|
      invariant c == Pack(ColCells(rows, i)[..k])
    {
      assert ColCells(rows, i)[..k + 1][..k] == ColCells(rows, i)[..k];
      ShiftInWord(c, if Bit(rows[k], i) then 1 else 0);
      c := (2 * c) % Word;
      if Bit(rows[k], i) {
        c := c + 1;
      }
      k := k + 1;
    }
    assert ColCells(rows, i)[..k] == ColCells(rows, i);
  }

  /** Shifting a word left drops its top bit and leaves the bottom bit clear,
      so or-ing a bit in afterwards is adding it before the wrap. */
  lemma ShiftInWord(c: Row, e: nat)
    requires e < 2
    ensures (2 * c) % Word + e == (2 * c + e) % Word
  {
    if c < Word / 2 {
      assert (2 * c) % Word == 2 * c && (2 * c + e) % Word == 2 * c + e;
    } else {
      assert (2 * c) % Word == 2 * c - Word && (2 * c + e) % Word == 2 * c + e - Word;
    }
  }

  /** A field as parsed: its width (the first line's length) and its packed rows. */
  datatype Field = Field(numCols: nat, rows: seq<Row>)

  /** The packed columns `col(0) ..= col(num_cols)`; the last one lies beyond
      the leftmost real column. */
  function Columns(f: Field): (cs: seq<Row>)
    ensures |cs| == f.numCols + 1
  {
    seq(f.numCols + 1, (i: nat) requires i <= f.numCols => Pack(ColCells(f.rows, i)))
  }

  /** Rows no wider than the field make the column beyond the leftmost one
      blank. */
  lemma ColumnBeyondBlank(f: Field)
    requires |f.rows| <= 32
    requires forall k :: 0 <= k < |f.rows| ==> f.rows[k] < Pow2(f.numCols)
    ensures Columns(f)[f.numCols] == 0
  {
    var bs := ColCells(f.rows, f.numCols);
    forall k | 0 <= k < |bs|
      ensures !bs[k]
    {
      HighBitClear(f.rows[k], f.numCols, f.numCols);
    }
    PackInjective(bs, seq(|bs|, _ => false));
    AllClearPacksToZero(|bs|);
  }

  lemma {:induction false} AllClearPacksToZero(n: nat)
    ensures Pack(seq(n, _ => false)) == 0
    decreases n
  {
    if n > 0 {
      assert seq(n, _ => false)[..n - 1] == seq(n - 1, _ => false);
      AllClearPacksToZero(n - 1);
    }
  }

  /** `parse_input` for one block of lines: the width is the first line's
      length (`unwrap` panics on an empty block) and every line is packed. */
  function FieldOf(lines: seq<string>): (r: Option<Field>)
    ensures r.None? <==> lines == []
    ensures r.Some? ==> r.value.numCols == |lines[0]| && |r.value.rows| == |lines|
  {
    if lines == [] then None
    else Some(Field(|lines[0]|, seq(|lines|, k requires 0 <= k < |lines| => Pack(Cells(lines[k])))))
  }

  /** In a parsed field of at most 32 by 31 cells, bit `|rows| - 1 - k` of
      column `i` is the cell of line `k` that is `i` places from the right. */
  lemma FieldColumnCells(lines: seq<string>, k: nat, i: nat)
    requires FieldOf(lines).Some?
    requires |lines| <= 32 && |lines[0]| < 32
    requires forall j :: 0 <= j < |lines| ==> |lines[j]| == |lines[0]|
    requires k < |lines| && i < |lines[0]|
    ensures Bit(Columns(FieldOf(lines).value)[i], |lines| - 1 - k) == (lines[k][|lines[0]| - 1 - i] == '#')
  {
    var f := FieldOf(lines).value;
    PackBits(ColCells(f.rows, i));
    MakeRowBits(lines[k]);
    assert Columns(f)[i] == Pack(ColCells(f.rows, i));
    assert ColCells(f.rows, i)[k] == Bit(f.rows[k], i);
    assert f.rows[k] == Pack(Cells(lines[k]));
    var j := |lines[0]| - 1 - i;
    assert Bit(Pack(Cells(lines[k])), |lines[k]| - 1 - j) == (lines[k][j] == '#');
  }

  /** Two rows of a parsed field are equal exactly when the lines have `#`
      in the same places. */
  lemma FieldRowsEqual(lines: seq<string>, a: nat, b: nat)
    requires FieldOf(lines).Some?
    requires forall j :: 0 <= j < |lines| ==> |lines[j]| == |lines[0]| <= 32
    requires a < |lines| && b < |lines|
    ensures FieldOf(lines).value.rows[a] == FieldOf(lines).value.rows[b] <==> Cells(lines[a]) == Cells(lines[b])
  {
    PackInjective(Cells(lines[a]), Cells(lines[b]));
  }

  /* ---------------- counting differing bits ---------------- */

  /** Bitwise exclusive or. */
  function Xor(a: nat, b: nat): nat
    decreases a + b
  {
    if a == 0 && b == 0 then 0
    else 2 * Xor(a / 2, b / 2) + (if a % 2 != b % 2 then 1 else 0)
  }

  /** `count_ones`. */
  function PopCount(x: nat): nat
    decreases x
  {
    if x == 0 then 0 else PopCount(x / 2) + x % 2
  }

  lemma {:induction false} XorBit(a: nat, b: nat, j: nat)
    ensures Bit(Xor(a, b), j) == (Bit(a, j) != Bit(b, j))
    decreases j
  {
    if j > 0 {
      XorBit(a / 2, b / 2, j - 1);
      assert Xor(a, b) / 2 == Xor(a / 2, b / 2);
    }
  }

  /** No bit of `x` is set. */
  ghost predicate NoBits(x: nat)
  {
    forall j: nat :: !Bit(x, j)
  }

  /** No two distinct bits of `x` are set. */
  ghost predicate AtMostOneBit(x: nat)
  {
    forall i: nat, j: nat :: Bit(x, i) && Bit(x, j) ==> i == j
  }

  /** A positive value has a set bit, and so a positive count. */
  lemma {:induction false} PositiveHasBit(x: nat)
    requires x > 0
    ensures PopCount(x) >= 1 && !NoBits(x)
    decreases x
  {
    if x % 2 == 1 {
      assert Bit(x, 0);
    } else {
      PositiveHasBit(x / 2);
      var j: nat :| Bit(x / 2, j);
      assert Bit(x, j + 1);
    }
  }

  /** No set bit means a count of zero; at most one set bit means a count of at most one. */
  lemma {:induction false} PopCountBits(x: nat)
    ensures PopCount(x) == 0 <==> NoBits(x)
    ensures PopCount(x) <= 1 <==> AtMostOneBit(x)
    decreases x
  {
    if x == 0 {
      forall j: nat
        ensures !Bit(0, j)
      {
        HighBitClear(0, 0, j);
      }
    } else {
      PositiveHasBit(x);
      var h := x / 2;
      PopCountBits(h);
      assert PopCount(x) == PopCount(h) + x % 2;
      forall j: nat
        ensures Bit(x, j) == if j == 0 then x % 2 == 1 else Bit(h, j - 1)
      {
      }
      if AtMostOneBit(x) {
        if x % 2 == 1 {
          forall j: nat
            ensures !Bit(h, j)
          {
            assert Bit(x, j + 1) == Bit(h, j);
            assert Bit(x, 0);
          }
          assert NoBits(h);
        } else {
          forall i: nat, j: nat | Bit(h, i) && Bit(h, j)
            ensures i == j
          {
            assert Bit(x, i + 1) && Bit(x, j + 1);
          }
          assert AtMostOneBit(h);
        }
      }
      if PopCount(x) <= 1 {
        if x % 2 == 1 {
          assert NoBits(h);
        } else {
          assert AtMostOneBit(h);
        }
        forall i: nat, j: nat | Bit(x, i) && Bit(x, j)
          ensures i == j
        {
          assert Bit(x, i) == if i == 0 then x % 2 == 1 else Bit(h, i - 1);
          assert Bit(x, j) == if j == 0 then x % 2 == 1 else Bit(h, j - 1);
        }
      }
    }
  }

  /** `nearly_eq`: the words differ in at most one bit. */
  predicate NearlyEq(a: nat, b: nat)
  {
    PopCount(Xor(a, b)) <= 1
  }

  /** No two distinct bit places where `a` and `b` differ. */
  ghost predicate DifferAtMostOnce(a: nat, b: nat)
  {
    forall i: nat, j: nat :: Bit(a, i) != Bit(b, i) && Bit(a, j) != Bit(b, j) ==> i == j
  }

  /** `nearly_eq` holds exactly when the words differ in at most one bit
      place; it is reflexive and symmetric. */
  lemma NearlyEqMeaning(a: nat, b: nat)
    ensures NearlyEq(a, b) <==> DifferAtMostOnce(a, b)
    ensures NearlyEq(a, a)
    ensures NearlyEq(a, b) == NearlyEq(b, a)
  {
    var x := Xor(a, b);
    PopCountBits(x);
    PopCountBits(Xor(b, a));
    PopCountBits(Xor(a, a));
    forall j: nat
      ensures Bit(x, j) == (Bit(a, j) != Bit(b, j))
      ensures Bit(Xor(b, a), j) == Bit(x, j)
      ensures !Bit(Xor(a, a), j)
    {
      XorBit(a, b, j);
      XorBit(b, a, j);
      XorBit(a, a, j);
    }
    assert AtMostOneBit(x) <==> DifferAtMostOnce(a, b);
    assert AtMostOneBit(Xor(b, a)) <==> AtMostOneBit(x);
  }

  /** The words differ in no bit exactly when they are equal. */
  lemma NoDiffMeansEqual(a: nat, b: nat)
    ensures PopCount(Xor(a, b)) == 0 <==> a == b
  {
    PopCountBits(Xor(a, b));
    forall j: nat
      ensures Bit(Xor(a, b), j) == (Bit(a, j) != Bit(b, j))
    {
      XorBit(a, b, j);
    }
    if PopCount(Xor(a, b)) == 0 {
      BitsDetermine(a, b);
    }
  }

  /** The number of places where two flag sequences differ. */
  function Mismatches(bs: seq<bool>, cs: seq<bool>): nat
    requires |bs| == |cs|
    decreases |bs|
  {
    if bs == [] then 0
    else Mismatches(bs[..|bs| - 1], cs[..|cs| - 1]) + (if bs[|bs| - 1] != cs[|cs| - 1] then 1 else 0)
  }

  lemma XorShiftIn(x: nat, y: nat, e: nat, d: nat)
    requires e < 2 && d < 2
    ensures Xor(2 * x + e, 2 * y + d) == 2 * Xor(x, y) + (if e != d then 1 else 0)
  {
    if 2 * x + e == 0 && 2 * y + d == 0 {
      assert Xor(0, 0) == 0;
    } else {
      assert (2 * x + e) / 2 == x && (2 * y + d) / 2 == y;
    }
  }

  lemma PopCountShiftIn(z: nat, c: nat)
    requires c < 2
    ensures PopCount(2 * z + c) == PopCount(z) + c
  {
    if 2 * z + c > 0 {
      assert (2 * z + c) / 2 == z;
    }
  }

  /** With at most 32 flags the last one is shifted in without loss. */
  lemma PackSnoc(bs: seq<bool>)
    requires 0 < |bs| <= 32
    ensures Pack(bs) == 2 * Pack(bs[..|bs| - 1]) + (if bs[|bs| - 1] then 1 else 0)
  {
    PackBits(bs[..|bs| - 1]);
    Pow2Monotone(|bs|, 32);
    Pow2Word();
  }

  /** Shifting one more cell into both lines adds one differing bit exactly
      when the two new cells differ. */
  lemma PackDiffStep(bs: seq<bool>, cs: seq<bool>)
    requires 0 < |bs| == |cs| <= 32
    ensures PopCount(Xor(Pack(bs), Pack(cs)))
         == PopCount(Xor(Pack(bs[..|bs| - 1]), Pack(cs[..|cs| - 1]))) + (if bs[|bs| - 1] != cs[|cs| - 1] then 1 else 0)
  {
    var x, y := Pack(bs[..|bs| - 1]), Pack(cs[..|cs| - 1]);
    var e: nat, d: nat := if bs[|bs| - 1] then 1 else 0, if cs[|cs| - 1] then 1 else 0;
    PackSnoc(bs);
    PackSnoc(cs);
    DiffShiftIn(Pack(bs), Pack(cs), x, y, e, d);
  }

  /** Shifting a bit into each of two words adds one differing bit exactly
      when the two bits differ. */
  lemma DiffShiftIn(a: nat, b: nat, x: nat, y: nat, e: nat, d: nat)
    requires e < 2 && d < 2 && a == 2 * x + e && b == 2 * y + d
    ensures PopCount(Xor(a, b)) == PopCount(Xor(x, y)) + (if e != d then 1 else 0)
  {
    XorShiftIn(x, y, e, d);
    PopCountShiftIn(Xor(x, y), if e != d then 1 else 0);
  }

  /** For at most 32 cells, the bits in which two packed lines differ count the
      cells in which the lines differ. */
  lemma {:induction false} PackDiff(bs: seq<bool>, cs: seq<bool>)
    requires |bs| == |cs| <= 32
    ensures PopCount(Xor(Pack(bs), Pack(cs))) == Mismatches(bs, cs)
    decreases |bs|
  {
    if bs != [] {
      PackDiff(bs[..|bs| - 1], cs[..|cs| - 1]);
      PackDiffStep(bs, cs);
    }
  }

  /* ---------------- mirror search ---------------- */

  /** The mirrored pair `offs` places out from the gap after `i` agrees. */
  predicate PairAgrees(xs: seq<Row>, i: nat, offs: nat)
    requires offs <= i && i + offs + 1 < |xs|
  {
    xs[i - offs] == xs[i + offs + 1]
  }

  /** The gap after `i` is a mirror: the two neighbours agree, and so does
      every pair out to the nearer edge (`offs > i`, or `i + offs + 1 >= n`). */
  predicate Reflects(xs: seq<Row>, n: nat, i: nat)
    requires i + 1 < |xs| && n <= |xs|
  {
    xs[i] == xs[i + 1] &&
    forall offs: nat :: offs <= i && i + offs + 1 < n ==> PairAgrees(xs, i, offs)
  }

  /** The number of mirrored pairs about the gap after `i`. */
  function Span(n: nat, i: nat): nat
    requires i < n
  {
    if i + 1 < n - i - 1 then i + 1 else n - i - 1
  }

  /** The bits that differ over the first `k` mirrored pairs. */
  function Smudges(xs: seq<Row>, n: nat, i: nat, k: nat): nat
    requires n <= |xs| && k <= i + 1 && i + k < n
    decreases k
  {
    if k == 0 then 0
    else Smudges(xs, n, i, k - 1) + PopCount(Xor(xs[i - (k - 1)], xs[i + k]))
  }

  lemma {:induction false} SmudgesGrow(xs: seq<Row>, n: nat, i: nat, k: nat, l: nat)
    requires n <= |xs| && k <= l <= i + 1 && i + l < n
    ensures Smudges(xs, n, i, k) <= Smudges(xs, n, i, l)
    decreases l
  {
    if k < l {
      SmudgesGrow(xs, n, i, k, l - 1);
    }
  }

  /** The smudged mirror: the neighbours nearly agree and exactly one bit
      differs over all the mirrored pairs. */
  predicate ReflectsSmudged(xs: seq<Row>, n: nat, i: nat)
    requires i + 1 < |xs| && n <= |xs| && i < n
  {
    NearlyEq(xs[i], xs[i + 1]) && Smudges(xs, n, i, Span(n, i)) == 1
  }

  /** Which kind of mirror the search looks for. */
  predicate Accepts(xs: seq<Row>, n: nat, i: nat, smudged: bool)
    requires i + 1 < |xs| && n <= |xs| && i < n
  {
    if smudged then ReflectsSmudged(xs, n, i) else Reflects(xs, n, i)
  }

  /** The first gap from `i` on, below `m`, that the search accepts. */
  function FirstLine(xs: seq<Row>, n: nat, m: nat, i: nat, smudged: bool): Option<nat>
    requires m < |xs| && n <= |xs| && m <= n
    decreases m - i
  {
    if i >= m then None
    else if Accepts(xs, n, i, smudged) then Some(i)
    else FirstLine(xs, n, m, i + 1, smudged)
  }

  /** The search finds the smallest accepted gap, and finds none only when no
      gap is accepted. */
  lemma {:induction false} FirstLineIsFirst(xs: seq<Row>, n: nat, m: nat, i: nat, smudged: bool)
    requires m < |xs| && n <= |xs| && m <= n
    ensures FirstLine(xs, n, m, i, smudged).None? <==>
      forall j :: i <= j < m ==> !Accepts(xs, n, j, smudged)
    ensures FirstLine(xs, n, m, i, smudged).Some? ==>
      var j := FirstLine(xs, n, m, i, smudged).value;
      i <= j < m && Accepts(xs, n, j, smudged) &&
      forall l :: i <= l < j ==> !Accepts(xs, n, l, smudged)
    decreases m - i
  {
    if i < m && !Accepts(xs, n, i, smudged) {
      FirstLineIsFirst(xs, n, m, i + 1, smudged);
    }
  }

  /** A perfect mirror is never a smudged one. */
  lemma PerfectIsNotSmudged(xs: seq<Row>, n: nat, i: nat)
    requires i + 1 < |xs| && n <= |xs| && i < n
    requires Reflects(xs, n, i)
    ensures !ReflectsSmudged(xs, n, i)
  {
    SmudgesOfPerfect(xs, n, i, Span(n, i));
  }

  lemma {:induction false} SmudgesOfPerfect(xs: seq<Row>, n: nat, i: nat, k: nat)
    requires i + 1 < |xs| && n <= |xs| && k <= i + 1 && i + k < n
    requires Reflects(xs, n, i)
    ensures Smudges(xs, n, i, k) == 0
    decreases k
  {
    if k > 0 {
      SmudgesOfPerfect(xs, n, i, k - 1);
      assert PairAgrees(xs, i, k - 1);
      NoDiffMeansEqual(xs[i - (k - 1)], xs[i + k]);
    }
  }

  /** Where there is at least one mirrored pair, the `nearly_eq` test on the
      neighbours adds nothing: a total of one differing bit already implies it. */
  lemma SmudgedByTotal(xs: seq<Row>, n: nat, i: nat)
    requires i + 1 < |xs| && n <= |xs| && i + 1 < n
    ensures ReflectsSmudged(xs, n, i) <==> Smudges(xs, n, i, Span(n, i)) == 1
  {
    SmudgesGrow(xs, n, i, 1, Span(n, i));
  }

  /* ---------------- reads that overflow ---------------- */

  /** The first column index the vertical search may not read: `r >> i`
      overflows for `i >= 32` once there is a row to shift. With no rows
      nothing is shifted, so no read fails. */
  function ReadLimit(f: Field): nat
  {
    if |f.rows| > 0 then 32 else f.numCols + 1
  }

  /** The walk outwards from the gap after `i` reaches the read of `xs[lim]`
      before it stops: the neighbours pass, every pair before offset
      `lim - i - 1` passes, and that offset lies inside both edges. */
  predicate WalkOverruns(xs: seq<Row>, n: nat, i: nat, smudged: bool, lim: nat)
    requires i + 1 < |xs| && n <= |xs| && i < n && i + 1 < lim
  {
    var o := lim - i - 1;
    o < Span(n, i) &&
    if smudged then NearlyEq(xs[i], xs[i + 1]) && Smudges(xs, n, i, o) <= 1
    else xs[i] == xs[i + 1] && forall offs: nat :: offs < o ==> PairAgrees(xs, i, offs)
  }

  /** Trying the gap after `i` reads `xs[lim]`: at once, when `i + 1` is
      already out of reach, or later in the walk. */
  predicate GapOverruns(xs: seq<Row>, n: nat, i: nat, smudged: bool, lim: nat)
    requires i + 1 < |xs| && n <= |xs| && i < n
  {
    i + 1 >= lim || WalkOverruns(xs, n, i, smudged, lim)
  }

  /** The search from gap `i` when reading `xs[lim]` or beyond panics:
      `None` for the panic, `Some(None)` when no gap is accepted. */
  function Search(xs: seq<Row>, n: nat, m: nat, i: nat, smudged: bool, lim: nat): (r: Option<Option<nat>>)
    requires m < |xs| && n <= |xs| && m <= n
    ensures r.Some? && r.value.Some? ==> i <= r.value.value < m
    decreases m - i
  {
    if i >= m then Some(None)
    else if GapOverruns(xs, n, i, smudged, lim) then None
    else if Accepts(xs, n, i, smudged) then Some(Some(i))
    else Search(xs, n, m, i + 1, smudged, lim)
  }

  /** The search panics exactly when some gap overruns before any gap is
      accepted; otherwise it finds the first accepted gap. It never panics
      when every gap and every mirrored pair stays below the limit, and a
      panic means the limit lies within the searched range. */
  lemma {:induction false} SearchAgrees(xs: seq<Row>, n: nat, m: nat, i: nat, smudged: bool, lim: nat)
    requires m < |xs| && n <= |xs| && m <= n
    ensures Search(xs, n, m, i, smudged, lim).None? <==>
      exists j :: i <= j < m && GapOverruns(xs, n, j, smudged, lim) &&
        forall l :: i <= l < j ==> !Accepts(xs, n, l, smudged)
    ensures Search(xs, n, m, i, smudged, lim).Some? ==>
      Search(xs, n, m, i, smudged, lim).value == FirstLine(xs, n, m, i, smudged)
    ensures m < lim && n <= lim ==> Search(xs, n, m, i, smudged, lim).Some?
    ensures Search(xs, n, m, i, smudged, lim).None? ==> lim <= n
    decreases m - i
  {
    if i < m && !GapOverruns(xs, n, i, smudged, lim) && !Accepts(xs, n, i, smudged) {
      SearchAgrees(xs, n, m, i + 1, smudged, lim);
      if Search(xs, n, m, i + 1, smudged, lim).None? {
        var j :| i + 1 <= j < m && GapOverruns(xs, n, j, smudged, lim) &&
          forall l :: i + 1 <= l < j ==> !Accepts(xs, n, l, smudged);
        assert forall l :: i <= l < j ==> !Accepts(xs, n, l, smudged);
      }
    }
  }

  /** The inner loop of `vert_sym` / `horz_sym`: walk outwards from the gap
      until an edge, failing on the first pair that differs; `None` where it
      reads `xs[lim]`. */
  method CheckMirror(xs: seq<Row>, n: nat, i: nat, lim: nat) returns (r: Option<bool>)
    requires i + 1 < |xs| && n <= |xs| && i < n && i + 1 < lim
    requires xs[i] == xs[i + 1]
    ensures r.None? <==> WalkOverruns(xs, n, i, false, lim)
    ensures r.Some? ==> (r.value <==> Reflects(xs, n, i))
  {
    var offs := 0;
    while true
      invariant offs <= Span(n, i) && offs <= lim - i - 1
      invariant forall o: nat :: o < offs ==> PairAgrees(xs, i, o)
      decreases Span(n, i) - offs
    {
      if offs > i || i + offs + 1 >= n {
        return Some(true);
      }
      if i + offs + 1 >= lim {
        return None;
      }
      if xs[i - offs] != xs[i + offs + 1] {
        assert !PairAgrees(xs, i, offs);
        return Some(false);
      }
      offs := offs + 1;
    }
  }

  /** The inner loop of the `_smudged` variants: add up the differing bits
      pair by pair, giving up once there are more than one; `None` where it
      reads `xs[lim]`. */
  method CheckSmudged(xs: seq<Row>, n: nat, i: nat, lim: nat) returns (r: Option<bool>)
    requires i + 1 < |xs| && n <= |xs| && i < n && i + 1 < lim
    requires NearlyEq(xs[i], xs[i + 1])
    ensures r.None? <==> WalkOverruns(xs, n, i, true, lim)
    ensures r.Some? ==> (r.value <==> Smudges(xs, n, i, Span(n, i)) == 1)
  {
    var smudges := 0;
    var offs := 0;
    while true
      invariant offs <= Span(n, i) && offs <= lim - i - 1
      invariant smudges == Smudges(xs, n, i, offs) <= 1
      decreases Span(n, i) - offs
    {
      if offs > i || i + offs + 1 >= n {
        return Some(smudges == 1);
      }
      if i + offs + 1 >= lim {
        return None;
      }
      smudges := smudges + PopCount(Xor(xs[i - offs], xs[i + offs + 1]));
      if smudges > 1 {
        SmudgesGrow(xs, n, i, offs + 1, Span(n, i));
        if lim - i - 1 < Span(n, i) {
          SmudgesGrow(xs, n, i, offs + 1, lim - i - 1);
        }
        return Some(false);
      }
      offs := offs + 1;
    }
  }

  /** The outer loop shared by the four searches: try each gap `i < m` in
      turn and return the first one accepted; `None` where a read of
      `xs[lim]` panics first. */
  method FindLine(xs: seq<Row>, n: nat, m: nat, smudged: bool, lim: nat) returns (r: Option<Option<nat>>)
    requires m < |xs| && n <= |xs| && m <= n
    ensures r == Search(xs, n, m, 0, smudged, lim)
  {
    var i := 0;
    while i < m
      invariant 0 <= i <= m
      invariant Search(xs, n, m, i, smudged, lim) == Search(xs, n, m, 0, smudged, lim)
    {
      if i + 1 >= lim {
        return None;
      }
      var ok: Option<bool> := Some(false);
      if smudged {
        if NearlyEq(xs[i], xs[i + 1]) {
          ok := CheckSmudged(xs, n, i, lim);
        }
      } else {
        if xs[i] == xs[i + 1] {
          ok := CheckMirror(xs, n, i, lim);
        }
      }
      if ok.None? {
        return None;
      }
      if ok.value {
        return Some(Some(i));
      }
      i := i + 1;
    }
    return Some(None);
  }

  /** The columns left of the vertical line: gap `i` counts from the right,
      so `num_cols - i - 1` columns lie to its left. */
  function VertLine(f: Field, smudged: bool): (r: Option<nat>)
    ensures r.Some? ==> r.value < f.numCols
  {
    FirstLineIsFirst(Columns(f), f.numCols, f.numCols, 0, smudged);
    match FirstLine(Columns(f), f.numCols, f.numCols, 0, smudged)
    case None => None
    case Some(i) => Some(f.numCols - i - 1)
  }

  /** The vertical search as it runs: `None` where a column read overflows
      the shift, which happens only in a field of 32 or more columns with a
      row; otherwise the vertical line. */
  function VertRead(f: Field, smudged: bool): Option<Option<nat>>
  {
    match Search(Columns(f), f.numCols, f.numCols, 0, smudged, ReadLimit(f))
    case None => None
    case Some(None) => Some(None)
    case Some(Some(i)) => Some(Some(f.numCols - i - 1))
  }

  /** The vertical search panics only in a field with a row and at least 32
      columns, and otherwise finds the vertical line. */
  lemma VertReadSpec(f: Field, smudged: bool)
    ensures VertRead(f, smudged).None? ==> |f.rows| > 0 && f.numCols >= 32
    ensures f.numCols < 32 ==> VertRead(f, smudged).Some?
    ensures VertRead(f, smudged).Some? ==> VertRead(f, smudged).value == VertLine(f, smudged)
  {
    SearchAgrees(Columns(f), f.numCols, f.numCols, 0, smudged, ReadLimit(f));
    FirstLineIsFirst(Columns(f), f.numCols, f.numCols, 0, smudged);
  }

  /** The rows above the horizontal line. */
  function HorzLine(f: Field, smudged: bool): (r: Option<nat>)
    requires |f.rows| > 0
    ensures r.Some? ==> 1 <= r.value < |f.rows|
  {
    FirstLineIsFirst(f.rows, |f.rows|, |f.rows| - 1, 0, smudged);
    match FirstLine(f.rows, |f.rows|, |f.rows| - 1, 0, smudged)
    case None => None
    case Some(i) => Some(i + 1)
  }

  /** `vert_sym`; `None` where a column read panics. */
  method VertSym(f: Field) returns (r: Option<Option<nat>>)
    ensures r == VertRead(f, false)
  {
    var i := FindLine(Columns(f), f.numCols, f.numCols, false, ReadLimit(f));
    SearchAgrees(Columns(f), f.numCols, f.numCols, 0, false, ReadLimit(f));
    FirstLineIsFirst(Columns(f), f.numCols, f.numCols, 0, false);
    if i.None? {
      return None;
    }
    if i.value.None? {
      return Some(None);
    }
    r := Some(Some(f.numCols - i.value.value - 1));
  }

  /** `horz_sym`; `None` where `rows.len() - 1` underflows. */
  method HorzSym(f: Field) returns (r: Option<Option<nat>>)
    ensures r.None? <==> f.rows == []
    ensures r.Some? ==> r.value == HorzLine(f, false)
  {
    if f.rows == [] {
      return None;
    }
    var i := FindLine(f.rows, |f.rows|, |f.rows| - 1, false, |f.rows|);
    SearchAgrees(f.rows, |f.rows|, |f.rows| - 1, 0, false, |f.rows|);
    r := Some(if i.value.Some? then Some(i.value.value + 1) else None);
  }

  /** `vert_sym_smudged`; `None` where a column read panics. */
  method VertSymSmudged(f: Field) returns (r: Option<Option<nat>>)
    ensures r == VertRead(f, true)
  {
    var i := FindLine(Columns(f), f.numCols, f.numCols, true, ReadLimit(f));
    SearchAgrees(Columns(f), f.numCols, f.numCols, 0, true, ReadLimit(f));
    FirstLineIsFirst(Columns(f), f.numCols, f.numCols, 0, true);
    if i.None? {
      return None;
    }
    if i.value.None? {
      return Some(None);
    }
    r := Some(Some(f.numCols - i.value.value - 1));
  }

  /** `horz_sym_smudged`; `None` where `rows.len() - 1` underflows. */
  method HorzSymSmudged(f: Field) returns (r: Option<Option<nat>>)
    ensures r.None? <==> f.rows == []
    ensures r.Some? ==> r.value == HorzLine(f, true)
  {
    if f.rows == [] {
      return None;
    }
    var i := FindLine(f.rows, |f.rows|, |f.rows| - 1, true, |f.rows|);
    SearchAgrees(f.rows, |f.rows|, |f.rows| - 1, 0, true, |f.rows|);
    r := Some(if i.value.Some? then Some(i.value.value + 1) else None);
  }

  /** `vert_sym` also compares the leftmost column with the blank one beyond
      it, so it can report a line with no columns to its left; that adds
      nothing to the summary. When it does, the leftmost column is blank. */
  lemma VertLineBeyondEdge(f: Field)
    requires |f.rows| <= 32
    requires forall k :: 0 <= k < |f.rows| ==> f.rows[k] < Pow2(f.numCols)
    requires VertLine(f, false) == Some(0)
    ensures Columns(f)[f.numCols - 1] == 0
  {
    FirstLineIsFirst(Columns(f), f.numCols, f.numCols, 0, false);
    ColumnBeyondBlank(f);
  }

  /** The first perfect mirror and the first smudged mirror are different gaps. */
  lemma FirstLinesDiffer(xs: seq<Row>, n: nat, m: nat)
    requires m < |xs| && n <= |xs| && m <= n
    requires FirstLine(xs, n, m, 0, false).Some? && FirstLine(xs, n, m, 0, true).Some?
    ensures FirstLine(xs, n, m, 0, false) != FirstLine(xs, n, m, 0, true)
  {
    FirstLineIsFirst(xs, n, m, 0, false);
    FirstLineIsFirst(xs, n, m, 0, true);
    PerfectIsNotSmudged(xs, n, FirstLine(xs, n, m, 0, false).value);
  }

  /** A field's smudged horizontal line is never its part-1 line: the part-2
      answer moves the line whenever both exist. */
  lemma SmudgedRowLineMoves(f: Field)
    requires |f.rows| > 0
    ensures HorzLine(f, false).Some? && HorzLine(f, true).Some? ==> HorzLine(f, false) != HorzLine(f, true)
  {
    if HorzLine(f, false).Some? && HorzLine(f, true).Some? {
      FirstLinesDiffer(f.rows, |f.rows|, |f.rows| - 1);
    }
  }

  /** The same for the vertical line. */
  lemma SmudgedColLineMoves(f: Field)
    ensures VertLine(f, false).Some? && VertLine(f, true).Some? ==> VertLine(f, false) != VertLine(f, true)
  {
    if VertLine(f, false).Some? && VertLine(f, true).Some? {
      FirstLinesDiffer(Columns(f), f.numCols, f.numCols);
    }
  }

  /* ---------------- summaries ---------------- */

  function LineOrZero(l: Option<nat>): nat
  {
    match l case Some(v) => v case None => 0
  }

  /** A field's note: columns left of its vertical line plus 100 times the
      rows above its horizontal line. `None` where either search panics: an
      overflowing column read, or a field without rows. */
  function Note(f: Field, smudged: bool): Option<nat>
  {
    match VertRead(f, smudged)
    case None => None
    case Some(v) =>
      if f.rows == [] then None
      else Some(LineOrZero(v) + 100 * LineOrZero(HorzLine(f, smudged)))
  }

  /** When a note panics, and what it is otherwise. */
  lemma NoteSpec(f: Field, smudged: bool)
    ensures Note(f, smudged).None? <==> f.rows == [] || VertRead(f, smudged).None?
    ensures |f.rows| > 0 && f.numCols < 32 ==> Note(f, smudged).Some?
    ensures Note(f, smudged).Some? ==>
      Note(f, smudged).value == LineOrZero(VertLine(f, smudged)) + 100 * LineOrZero(HorzLine(f, smudged))
  {
    VertReadSpec(f, smudged);
  }

  /** Each field's note, in order. */
  function Notes(data: seq<Field>, smudged: bool): (ns: seq<Option<nat>>)
    ensures |ns| == |data|
    decreases |data|
  {
    if data == [] then [] else Notes(data[..|data| - 1], smudged) + [Note(data[|data| - 1], smudged)]
  }

  /** The `k`-th note is the note of field `k`. */
  lemma {:induction false} NotesAt(data: seq<Field>, smudged: bool, k: nat)
    requires k < |data|
    ensures Notes(data, smudged)[k] == Note(data[k], smudged)
    decreases |data|
  {
    if k < |data| - 1 {
      NotesAt(data[..|data| - 1], smudged, k);
    }
  }

  /** The sum of a list of notes; `None` once any note is. */
  function Total(ns: seq<Option<nat>>): Option<nat>
    decreases |ns|
  {
    if ns == [] then Some(0)
    else
      match (Total(ns[..|ns| - 1]), ns[|ns| - 1])
      case (Some(a), Some(b)) => Some(a + b)
      case _ => None
  }

  /** The sum of the notes; `None` where some field's search panics. */
  function Summary(data: seq<Field>, smudged: bool): Option<nat>
  {
    Total(Notes(data, smudged))
  }

  /** A total fails exactly when one of its notes does. */
  lemma {:induction false} TotalNone(ns: seq<Option<nat>>)
    ensures Total(ns).None? <==> exists k :: 0 <= k < |ns| && ns[k].None?
    decreases |ns|
  {
    if ns != [] {
      var init := ns[..|ns| - 1];
      TotalNone(init);
      assert forall k :: 0 <= k < |init| ==> init[k] == ns[k];
      if Total(ns).None? && Total(init).Some? {
        var last := |ns| - 1;
        assert 0 <= last < |ns| && ns[last].None?;
      }
    }
  }

  /** The sum panics exactly when some field's note does. */
  lemma SummaryNone(data: seq<Field>, smudged: bool)
    ensures Summary(data, smudged).None? <==> exists k :: 0 <= k < |data| && Note(data[k], smudged).None?
  {
    var ns := Notes(data, smudged);
    TotalNone(ns);
    forall k | 0 <= k < |data|
      ensures ns[k] == Note(data[k], smudged)
    {
      NotesAt(data, smudged, k);
    }
  }

  /** `part1` / `part2`: add up every field's note. */
  method Summarize(data: seq<Field>, smudged: bool) returns (result: Option<nat>)
    ensures result == Summary(data, smudged)
  {
    ghost var ns := Notes(data, smudged);
    var sum := 0;
    var k := 0;
    while k < |data|
      invariant 0 <= k <= |data|
      invariant Total(ns[..k]) == Some(sum)
    {
      var next := AddNote(data, smudged, k, sum);
      if next.None? {
        return None;
      }
      sum := next.value;
      k := k + 1;
    }
    assert ns[..k] == ns;
    return Some(sum);
  }

  /** The loop body of `part1` / `part2`: add the note of field `k`, or
      panic with it. */
  method AddNote(data: seq<Field>, smudged: bool, k: nat, sum: nat) returns (r: Option<nat>)
    requires k < |data| && Total(Notes(data, smudged)[..k]) == Some(sum)
    ensures r.None? ==> Summary(data, smudged).None?
    ensures r.Some? ==> Total(Notes(data, smudged)[..k + 1]) == r
  {
    var note := FieldNoteAt(data, smudged, k);
    TotalStep(Notes(data, smudged), k);
    if note.None? {
      return None;
    }
    return Some(sum + note.value);
  }

  /** The note of field `k`, as the loop body computes it. */
  method FieldNoteAt(data: seq<Field>, smudged: bool, k: nat) returns (note: Option<nat>)
    requires k < |data|
    ensures note == Notes(data, smudged)[k]
  {
    note := FieldNote(data[k], smudged);
    NotesAt(data, smudged, k);
  }

  /** One more note of the total. */
  lemma TotalStep(ns: seq<Option<nat>>, k: nat)
    requires k < |ns|
    ensures ns[k].None? ==> Total(ns).None?
    ensures Total(ns[..k + 1]) ==
      match (Total(ns[..k]), ns[k])
      case (Some(a), Some(b)) => Some(a + b)
      case _ => None
  {
    if ns[k].None? {
      TotalNone(ns);
      assert 0 <= k < |ns| && ns[k].None?;
    }
    var prefix := ns[..k + 1];
    assert prefix[..|prefix| - 1] == ns[..k] && prefix[|prefix| - 1] == ns[k];
  }

  /** One field's share of the sum: its vertical line, if any, plus 100
      times its horizontal line, if any. */
  method FieldNote(f: Field, smudged: bool) returns (note: Option<nat>)
    ensures note == Note(f, smudged)
  {
    var v: Option<Option<nat>>;
    var h: Option<Option<nat>>;
    if smudged {
      v := VertSymSmudged(f);
      if v.None? {
        return None;
      }
      h := HorzSymSmudged(f);
    } else {
      v := VertSym(f);
      if v.None? {
        return None;
      }
      h := HorzSym(f);
    }
    if h.None? {
      return None;
    }
    var n := 0;
    if v.value.Some? {
      n := n + v.value.value;
    }
    if h.value.Some? {
      n := n + 100 * h.value.value;
    }
    return Some(n);
  }

  /** The sample's second field has its mirror below row 4 (a note of 400),
      and, with its smudge, below row 1. */
  lemma SampleSecondField()
    ensures HorzLine(Field(9, [281, 265, 103, 502, 502, 103, 265]), false) == Some(4)
  {
    var xs: seq<Row> := [281, 265, 103, 502, 502, 103, 265];
    assert !Reflects(xs, 7, 0) && !Reflects(xs, 7, 1) && !Reflects(xs, 7, 2);
    assert PairAgrees(xs, 3, 0) && PairAgrees(xs, 3, 1) && PairAgrees(xs, 3, 2);
    assert Reflects(xs, 7, 3);
  }

  lemma SampleSmudge()
    ensures PopCount(Xor(281, 265)) == 1
  {
    assert Xor(1, 1) == 0 && Xor(2, 2) == 0 && Xor(4, 4) == 0 && Xor(8, 8) == 0;
    assert Xor(17, 16) == 1 && Xor(35, 33) == 2 && Xor(70, 66) == 4;
    assert Xor(140, 132) == 8 && Xor(281, 265) == 16;
    assert PopCount(1) == 1 && PopCount(2) == 1 && PopCount(4) == 1;
    assert PopCount(8) == 1 && PopCount(16) == 1;
  }

  lemma SampleSecondFieldSmudged()
    ensures HorzLine(Field(9, [281, 265, 103, 502, 502, 103, 265]), true) == Some(1)
  {
    SampleGapSmudged([281, 265, 103, 502, 502, 103, 265]);
  }

  lemma SampleGapSmudged(xs: seq<Row>)
    requires |xs| == 7 && xs[0] == 281 && xs[1] == 265
    ensures ReflectsSmudged(xs, 7, 0)
  {
    SampleSmudge();
    assert Span(7, 0) == 1;
    assert Smudges(xs, 7, 0, 1) == PopCount(Xor(281, 265));
  }
}
