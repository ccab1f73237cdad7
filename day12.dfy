// Day 12: rows of springs, some of unknown condition, with the lengths of the
// runs of damaged springs. `count_matches` tries every assignment of the
// unknown springs as the bits of a counter and counts those whose damaged
// runs are exactly the listed ones.

module Day12 {
  import opened Lib

  datatype Spring = Operational | Damaged | Unknown

  /* ---------------- runs of damaged springs ---------------- */

  /** The runs ended so far by an operational spring, left to right. */
  function Completed(cells: seq<bool>): seq<nat>
    decreases |cells|
  {
    if cells == [] then []
    else
      var init := cells[..|cells| - 1];
      if cells[|cells| - 1] then Completed(init)
      else Completed(init) + (if Trailing(init) > 0 then [Trailing(init)] else [])
  }

  /** The length of the run of damaged springs at the end. */
  function Trailing(cells: seq<bool>): nat
    decreases |cells|
  {
    if cells == [] || !cells[|cells| - 1] then 0 else Trailing(cells[..|cells| - 1]) + 1
  }

  /** The maximal runs of damaged (`true`) cells, left to right. */
  function Runs(cells: seq<bool>): seq<nat>
  {
    Completed(cells) + (if Trailing(cells) > 0 then [Trailing(cells)] else [])
  }

  predicate IsPrefix(p: seq<nat>, s: seq<nat>) { |p| <= |s| && s[..|p|] == p }

  /** The runs completed within a prefix are the first runs of the whole row. */
  lemma {:induction false} CompletedPrefix(cells: seq<bool>, j: nat)
    requires j <= |cells|
    ensures IsPrefix(Completed(cells[..j]), Runs(cells))
    decreases |cells| - j
  {
    if j == |cells| {
      assert cells[..j] == cells;
    } else {
      CompletedPrefix(cells, j + 1);
      assert cells[..j + 1][..j] == cells[..j];
    }
  }

  function SumOf(s: seq<nat>): nat
    decreases |s|
  {
    if s == [] then 0 else SumOf(s[..|s| - 1]) + s[|s| - 1]
  }

  lemma {:induction false} SumAppend(a: seq<nat>, b: seq<nat>)
    ensures SumOf(a + b) == SumOf(a) + SumOf(b)
    decreases |b|
  {
    if b == [] {
      assert a + b == a;
    } else {
      SumAppend(a, b[..|b| - 1]);
      assert (a + b)[..|a + b| - 1] == a + b[..|b| - 1];
    }
  }

  function CountTrue(cells: seq<bool>): nat
    decreases |cells|
  {
    if cells == [] then 0 else CountTrue(cells[..|cells| - 1]) + (if cells[|cells| - 1] then 1 else 0)
  }

  /** The runs add up to the number of damaged cells. */
  lemma {:induction false} RunsSum(cells: seq<bool>)
    ensures SumOf(Completed(cells)) + Trailing(cells) == CountTrue(cells)
    ensures SumOf(Runs(cells)) == CountTrue(cells)
    decreases |cells|
  {
    if cells != [] {
      var init := cells[..|cells| - 1];
      RunsSum(init);
      if !cells[|cells| - 1] && Trailing(init) > 0 {
        SumAppend(Completed(init), [Trailing(init)]);
      }
    }
    if Trailing(cells) > 0 {
      SumAppend(Completed(cells), [Trailing(cells)]);
    } else {
      assert Runs(cells) == Completed(cells);
    }
  }

  /* ---------------- assigning the unknowns ---------------- */

  function CountOf(springs: seq<Spring>, s: Spring): nat
    decreases |springs|
  {
    if springs == [] then 0 else CountOf(springs[..|springs| - 1], s) + (if springs[|springs| - 1] == s then 1 else 0)
  }

  /** Bit `k` of `m`. */
  function Bit(m: nat, k: nat): (b: nat)
    ensures b <= 1
    decreases k
  {
    if k == 0 then m % 2 else Bit(m / 2, k - 1)
  }

  /** Bit `k` is the low bit of `m` shifted right by `k`. */
  lemma {:induction false} BitIsShift(m: nat, k: nat)
    ensures Bit(m, k) == (m / Pow2(k)) % 2
    decreases k
  {
    if k > 0 {
      BitIsShift(m / 2, k - 1);
      HalfDiv(m, Pow2(k - 1));
    }
  }

  /** Halving and then dividing by `q` is dividing by `2q`. */
  lemma HalfDiv(m: nat, q: nat)
    requires q >= 1
    ensures (m / 2) / q == m / (2 * q)
  {
    var a, r := m / 2, m % 2;
    var b, t := a / q, a % q;
    assert m == b * (2 * q) + (2 * t + r);
    DivUnique(m, 2 * q, b, 2 * t + r);
  }

  /** The cells with the unknowns filled in from the bits of `mask`, low bit
      first, left to right (`true` is damaged). */
  function Assign(springs: seq<Spring>, mask: nat): (cells: seq<bool>)
    ensures |cells| == |springs|
  {
    seq(|springs|, i requires 0 <= i < |springs| =>
      if springs[i] == Unknown then Bit(mask, CountOf(springs[..i], Unknown)) == 1 else springs[i] == Damaged)
  }

  /** The number of one bits among the low `k` bits. */
  function OnesBelow(m: nat, k: nat): nat
    decreases k
  {
    if k == 0 then 0 else OnesBelow(m, k - 1) + Bit(m, k - 1)
  }

  /** `count_ones`: the number of one bits, low bit first. The masks the
      source counts are below `2^63`, so the `u64` width plays no part. */
  function CountOnes(m: nat): nat
    decreases m
  {
    if m == 0 then 0 else m % 2 + CountOnes(m / 2)
  }

  /** Setting bit `k` above a number below `2^k` adds one one bit. */
  lemma {:induction false} TopBit(a: nat, k: nat)
    requires a < Pow2(k)
    ensures CountOnes(a + Pow2(k)) == CountOnes(a) + 1
    decreases k
  {
    var x := a + Pow2(k);
    if k == 0 {
      assert a == 0 && x == 1;
      assert CountOnes(1) == 1 + CountOnes(0);
    } else {
      var p := Pow2(k - 1);
      assert x % 2 == a % 2 && x / 2 == a / 2 + p;
      TopBit(a / 2, k - 1);
      assert CountOnes(x) == x % 2 + CountOnes(x / 2);
      if a > 0 {
        assert CountOnes(a) == a % 2 + CountOnes(a / 2);
      }
    }
  }

  /** The one bits among the low `u` bits are those of `m mod 2^u`. */
  lemma {:induction false} OnesBelowCount(m: nat, u: nat)
    ensures OnesBelow(m, u) == CountOnes(m % Pow2(u))
    decreases u
  {
    if u > 0 {
      var p := Pow2(u - 1);
      OnesBelowCount(m, u - 1);
      BitIsShift(m, u - 1);
      ModDouble(m, p);
      if (m / p) % 2 == 1 {
        assert m % Pow2(u) == m % p + p;
        TopBit(m % p, u - 1);
      } else {
        assert m % Pow2(u) == m % p;
      }
    }
  }

  /** Splitting off the bit of weight `p` of the remainder modulo `2p`. */
  lemma ModDouble(m: nat, p: nat)
    requires p >= 1
    ensures m % (2 * p) == m % p + p * ((m / p) % 2)
  {
    var q := m / p;
    var r := m % p;
    var q2 := q / 2;
    var r2 := q % 2;
    assert m == q2 * (2 * p) + (r2 * p + r);
    assert r2 * p + r < 2 * p;
    DivUnique(m, 2 * p, q2, r2 * p + r);
  }

  /** A number below `2^u` has all its one bits among the low `u` bits. */
  lemma OnesBelowAll(m: nat, u: nat)
    requires m < Pow2(u)
    ensures OnesBelow(m, u) == CountOnes(m)
  {
    OnesBelowCount(m, u);
    ModSmall(m, Pow2(u));
  }

  lemma ModSmall(m: nat, d: nat)
    requires m < d
    ensures m % d == m
  {
    DivUnique(m, d, 0, m);
    assert m == (m / d) * d + m % d;
  }

  /** The assignment has the known damaged springs plus one per one bit used. */
  lemma {:induction false} AssignDamaged(springs: seq<Spring>, mask: nat)
    ensures CountTrue(Assign(springs, mask)) == CountOf(springs, Damaged) + OnesBelow(mask, CountOf(springs, Unknown))
    decreases |springs|
  {
    if springs != [] {
      var init := springs[..|springs| - 1];
      AssignDamaged(init, mask);
      AssignPrefix(springs, mask, |springs| - 1);
    }
  }

  /* ---------------- one assignment ---------------- */

  /** The runs of the assignment drawn from `mask` are exactly `runs`: the
      completed runs, then the trailing run if there is one. */
  predicate Fits(springs: seq<Spring>, runs: seq<nat>, mask: nat)
  {
    var cells := Assign(springs, mask);
    if Trailing(cells) == 0 then Completed(cells) == runs
    else runs != [] && Completed(cells) == runs[..|runs| - 1] && runs[|runs| - 1] == Trailing(cells)
  }

  /** `Fits` says that the runs of the assignment are the listed runs. */
  lemma FitsMeaning(springs: seq<Spring>, runs: seq<nat>, mask: nat)
    ensures Fits(springs, runs, mask) <==> Runs(Assign(springs, mask)) == runs
  {
    var cells := Assign(springs, mask);
    if Trailing(cells) > 0 && Runs(cells) == runs {
      assert runs[..|runs| - 1] == Completed(cells);
    }
  }

  /** One cell of the scan in `Matches`: a damaged cell extends the trailing
      run; an operational one closes it, and the closed run either is the next
      listed run or rules the listing out. */
  lemma ScanStep(cells: seq<bool>, i: nat, runs: seq<nat>, k: nat)
    requires i < |cells| && k <= |runs| && Completed(cells[..i]) == runs[..k]
    ensures cells[i] ==> Trailing(cells[..i + 1]) == Trailing(cells[..i]) + 1 && Completed(cells[..i + 1]) == runs[..k]
    ensures !cells[i] ==> Trailing(cells[..i + 1]) == 0
    ensures !cells[i] && Trailing(cells[..i]) == 0 ==> Completed(cells[..i + 1]) == runs[..k]
    ensures !cells[i] && Trailing(cells[..i]) > 0 && k < |runs| && runs[k] == Trailing(cells[..i]) ==>
      Completed(cells[..i + 1]) == runs[..k + 1]
    ensures !cells[i] && Trailing(cells[..i]) > 0 && !(k < |runs| && runs[k] == Trailing(cells[..i])) ==>
      Runs(cells) != runs
  {
    assert cells[..i + 1][..i] == cells[..i];
    if !cells[i] && Trailing(cells[..i]) > 0 {
      CompletedPrefix(cells, i + 1);
      if k < |runs| {
        assert runs[..k + 1] == runs[..k] + [runs[k]];
      }
    }
  }

  /** The body of the mask loop: scan the row, filling in unknowns from the
      shifted mask, and compare each run as it ends with the next listed run;
      reject on a mismatch, a missing run or a run left over. */
  method Matches(springs: seq<Spring>, runs: seq<nat>, mask: nat) returns (ok: bool)
    ensures ok <==> Fits(springs, runs, mask)
  {
    ghost var cells := Assign(springs, mask);
    FitsMeaning(springs, runs, mask);
    var repl := mask;
    var curRun := 0;
    var k := 0;
    var i := 0;
    while i < |springs|
      invariant 0 <= i <= |springs| && 0 <= k <= |runs|
      invariant repl == mask / Pow2(CountOf(springs[..i], Unknown))
      invariant curRun == Trailing(cells[..i])
      invariant Completed(cells[..i]) == runs[..k]
    {
      var guess;
      guess, repl := Guess(springs, mask, i, repl);
      ScanStep(cells, i, runs, k);
      if !guess {
        if curRun > 0 {
          if k >= |runs| || runs[k] != curRun {
            return false;
          }
          k := k + 1;
        }
        curRun := 0;
      } else {
        curRun := curRun + 1;
      }
      i := i + 1;
    }
    assert cells[..i] == cells;
    if curRun > 0 {
      if k >= |runs| || runs[k] != curRun {
        return false;
      }
      assert runs[..k + 1] == runs[..k] + [curRun];
      k := k + 1;
    }
    if k < |runs| {
      return false;
    }
    assert runs[..k] == runs;
    ok := true;
  }

  /** One spring of the scan: an unknown takes the low bit of the shifted
      mask, which then shifts on; a known spring is what it is. */
  method Guess(springs: seq<Spring>, mask: nat, i: nat, repl: nat) returns (guess: bool, repl2: nat)
    requires i < |springs| && repl == mask / Pow2(CountOf(springs[..i], Unknown))
    ensures guess == Assign(springs, mask)[i]
    ensures repl2 == mask / Pow2(CountOf(springs[..i + 1], Unknown))
  {
    assert springs[..i + 1][..i] == springs[..i];
    if springs[i] == Unknown {
      BitIsShift(mask, CountOf(springs[..i], Unknown));
      var bit := repl % 2;
      DivDiv(mask, Pow2(CountOf(springs[..i], Unknown)));
      repl2 := repl / 2;
      guess := bit == 1;
    } else {
      repl2 := repl;
      guess := springs[i] == Damaged;
    }
  }

  /** Filling in a prefix of the row gives a prefix of the filled row. */
  lemma AssignPrefix(springs: seq<Spring>, mask: nat, j: nat)
    requires j <= |springs|
    ensures Assign(springs, mask)[..j] == Assign(springs[..j], mask)
  {
    forall i | 0 <= i < j
      ensures Assign(springs, mask)[i] == Assign(springs[..j], mask)[i]
    {
      assert springs[..j][..i] == springs[..i];
    }
  }

  lemma DivDiv(m: nat, p: nat)
    requires p >= 1
    ensures (m / p) / 2 == m / (2 * p)
  {
    var q := m / p;
    var r := m % p;
    assert m == q * p + r;
    var q2 := q / 2;
    var r2 := q % 2;
    assert q == q2 * 2 + r2;
    assert m == q2 * (2 * p) + (r2 * p + r);
    assert r2 * p + r < 2 * p;
    DivUnique(m, 2 * p, q2, r2 * p + r);
  }

  lemma DivUnique(m: nat, d: nat, q: nat, r: nat)
    requires d >= 1 && r < d && m == q * d + r
    ensures m / d == q
  {
    var q0 := m / d;
    var r0 := m % d;
    assert m == q0 * d + r0;
    if q0 > q {
      MulSub(q0, q, d);
      MulAtLeast(q0 - q, d);
    } else if q0 < q {
      MulSub(q, q0, d);
      MulAtLeast(q - q0, d);
    }
  }

  lemma MulSub(a: int, b: int, d: int)
    ensures a * d - b * d == (a - b) * d
  {
  }

  lemma MulAtLeast(a: int, d: int)
    requires a >= 1 && d >= 0
    ensures a * d >= d
  {
  }

  /* ---------------- counting ---------------- */

  /** The masks below `n` whose assignment fits, with no bit-count filter. */
  function Arrangements(springs: seq<Spring>, runs: seq<nat>, n: nat): (c: nat)
    ensures c <= n
    decreases n
  {
    if n == 0 then 0 else Arrangements(springs, runs, n - 1) + (if Fits(springs, runs, n - 1) then 1 else 0)
  }

  /** An assignment that fits uses exactly the needed number of one bits, so
      the bit-count filter only skips masks that could not fit. */
  lemma FitNeedsOnes(springs: seq<Spring>, runs: seq<nat>, mask: nat)
    requires mask < Pow2(CountOf(springs, Unknown))
    requires Fits(springs, runs, mask)
    ensures CountOf(springs, Damaged) <= SumOf(runs)
    ensures CountOnes(mask) == SumOf(runs) - CountOf(springs, Damaged)
  {
    FitsMeaning(springs, runs, mask);
    RunsSum(Assign(springs, mask));
    AssignDamaged(springs, mask);
    OnesBelowAll(mask, CountOf(springs, Unknown));
  }

  /** For one mask below the bound, the bit-count filter and the fit agree. */
  lemma FilterAgrees(springs: seq<Spring>, runs: seq<nat>, mask: nat)
    requires mask < Pow2(CountOf(springs, Unknown))
    requires CountOf(springs, Damaged) <= SumOf(runs)
    ensures Fits(springs, runs, mask) ==> CountOnes(mask) == SumOf(runs) - CountOf(springs, Damaged)
  {
    if Fits(springs, runs, mask) {
      FitNeedsOnes(springs, runs, mask);
    }
  }

  predicate Panics(springs: seq<Spring>, runs: seq<nat>)
  {
    SumOf(runs) > |springs| || CountOf(springs, Damaged) > SumOf(runs) || CountOf(springs, Unknown) >= 64
  }

  /** `count_matches`. Panics: the listed runs add up to more springs than
      the row has, fewer than the springs known to be damaged (both unsigned
      subtractions), or there are 64 or more unknowns (the shift overflows). */
  method CountMatches(springs: seq<Spring>, runs: seq<nat>) returns (r: Option<nat>)
    ensures r.None? <==> Panics(springs, runs)
    ensures r.Some? ==> r.value == Arrangements(springs, runs, Pow2(CountOf(springs, Unknown)))
    ensures r.Some? ==> r.value <= Pow2(CountOf(springs, Unknown))
  {
    var totFailed := SumOf(runs);
    if totFailed > |springs| {
      return None;
    }
    var numUnknown := CountOf(springs, Unknown);
    var numKnownFailed := CountOf(springs, Damaged);
    if numKnownFailed > totFailed {
      return None;
    }
    var neededDamaged := totFailed - numKnownFailed;
    if numUnknown >= 64 {
      return None;
    }
    var count := CountFits(springs, runs, neededDamaged);
    r := Some(count);
  }

  /** The mask loop of `count_matches`: every mask below `2^unknowns` with
      the needed number of one bits is tried; since a fitting mask always has
      that many one bits, this counts every fitting mask. */
  method CountFits(springs: seq<Spring>, runs: seq<nat>, needed: nat) returns (count: nat)
    requires CountOf(springs, Damaged) + needed == SumOf(runs)
    ensures count == Arrangements(springs, runs, Pow2(CountOf(springs, Unknown)))
    ensures count <= Pow2(CountOf(springs, Unknown))
  {
    count := 0;
    var limit := Pow2(CountOf(springs, Unknown));
    var repl: nat := 0;
    while repl < limit
      invariant repl <= limit
      invariant count == Arrangements(springs, runs, repl)
    {
      count := TryMask(springs, runs, needed, repl, count);
      repl := repl + 1;
    }
  }

  /** The body of the mask loop: the bit-count filter, then the scan; a hit
      adds one to the count. Below the bound the filter skips no mask that
      fits. */
  method TryMask(springs: seq<Spring>, runs: seq<nat>, needed: nat, mask: nat, count: nat) returns (count2: nat)
    requires CountOf(springs, Damaged) + needed == SumOf(runs)
    requires mask < Pow2(CountOf(springs, Unknown))
    requires count == Arrangements(springs, runs, mask)
    ensures count2 == Arrangements(springs, runs, mask + 1)
  {
    var hit := false;
    var ones := CountOnes(mask);
    if ones == needed {
      hit := Matches(springs, runs, mask);
    }
    FilterAgrees(springs, runs, mask);
    count2 := if hit then count + 1 else count;
  }

  function TotalArrangements(rows: seq<(seq<Spring>, seq<nat>)>): nat
    decreases |rows|
  {
    if rows == [] then 0
    else
      var (springs, runs) := rows[|rows| - 1];
      TotalArrangements(rows[..|rows| - 1]) + Arrangements(springs, runs, Pow2(CountOf(springs, Unknown)))
  }

  /** `part1`: the sum of every row's count. */
  method Part1(rows: seq<(seq<Spring>, seq<nat>)>) returns (r: Option<nat>)
    ensures r.Some? ==> r.value == TotalArrangements(rows)
    ensures r.None? <==> exists i :: 0 <= i < |rows| && Panics(rows[i].0, rows[i].1)
  {
    var sum: nat := 0;
    var i := 0;
    while i < |rows|
      invariant 0 <= i <= |rows|
      invariant sum == TotalArrangements(rows[..i])
      invariant forall j :: 0 <= j < i ==> !Panics(rows[j].0, rows[j].1)
    {
      var next := AddRow(rows, i, sum);
      if next.None? {
        assert 0 <= i < |rows| && Panics(rows[i].0, rows[i].1);
        return None;
      }
      sum := next.value;
      i := i + 1;
    }
    assert rows[..i] == rows;
    r := Some(sum);
  }

  /** The loop body of `part1`: add row `i`'s count, or panic with it. */
  method AddRow(rows: seq<(seq<Spring>, seq<nat>)>, i: nat, sum: nat) returns (r: Option<nat>)
    requires i < |rows| && sum == TotalArrangements(rows[..i])
    ensures r.None? <==> Panics(rows[i].0, rows[i].1)
    ensures r.Some? ==> r.value == TotalArrangements(rows[..i + 1])
  {
    var c := CountMatches(rows[i].0, rows[i].1);
    if c.None? {
      return None;
    }
    TotalSnoc(rows, i);
    return Some(sum + c.value);
  }

  /** One more row of the total. */
  lemma TotalSnoc(rows: seq<(seq<Spring>, seq<nat>)>, i: nat)
    requires i < |rows|
    ensures TotalArrangements(rows[..i + 1]) ==
      TotalArrangements(rows[..i]) + Arrangements(rows[i].0, rows[i].1, Pow2(CountOf(rows[i].0, Unknown)))
  {
    var prefix := rows[..i + 1];
    assert prefix[..|prefix| - 1] == rows[..i] && prefix[|prefix| - 1] == rows[i];
  }
}
