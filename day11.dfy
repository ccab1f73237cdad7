// Day 11: galaxies in an image whose empty rows and columns expand. Each
// column (row) index is remapped by adding one per non-empty column (row)
// passed and `exp` per empty one; the answer sums the Manhattan distances of
// all pairs of galaxies after remapping.

module Day11 {
  import opened Lib

  type Pos = (nat, nat)

  /** `dist`: the Manhattan distance, accumulated axis by axis. */
  function Dist(p: Pos, q: Pos): nat
  {
    (if p.0 > q.0 then p.0 - q.0 else q.0 - p.0) + (if p.1 > q.1 then p.1 - q.1 else q.1 - p.1)
  }

  /** The distance is symmetric, zero exactly between equal points, and
      obeys the triangle inequality. */
  lemma DistMetric(p: Pos, q: Pos, r: Pos)
    ensures Dist(p, q) == Dist(q, p)
    ensures Dist(p, q) == 0 <==> p == q
    ensures Dist(p, r) <= Dist(p, q) + Dist(q, r)
  {
  }

  /* ---------------- the expansion maps ---------------- */

  /** The running counter of the remapping loop after `n` indices: one for
      every index present, `exp` for every index absent. */
  function Counter(present: set<nat>, exp: nat, n: nat): nat
    decreases n
  {
    if n == 0 then 0 else Counter(present, exp, n - 1) + (if n - 1 in present then 1 else exp)
  }

  /** The number of absent indices below `n`. */
  function AbsentBelow(present: set<nat>, n: nat): (k: nat)
    ensures k <= n
    decreases n
  {
    if n == 0 then 0 else AbsentBelow(present, n - 1) + (if n - 1 in present then 0 else 1)
  }

  /** Closed form: index `n` moves to `n + (exp - 1) * (absent indices below n)`,
      so with `exp = 1` the map is the identity. */
  lemma {:induction false} CounterClosedForm(present: set<nat>, exp: nat, n: nat)
    ensures Counter(present, exp, n) == n + (exp - 1) * AbsentBelow(present, n)
    decreases n
  {
    if n > 0 {
      CounterClosedForm(present, exp, n - 1);
    }
  }

  /** Two remapped indices are apart by their distance plus `exp - 1` for
      every absent index between them. */
  lemma RemappedGap(present: set<nat>, exp: nat, a: nat, b: nat)
    requires a <= b
    ensures Counter(present, exp, b) - Counter(present, exp, a)
      == (b - a) + (exp - 1) * (AbsentBelow(present, b) - AbsentBelow(present, a))
  {
    CounterClosedForm(present, exp, a);
    CounterClosedForm(present, exp, b);
  }

  /** The first `n` entries of a remapping map. */
  function MapUpTo(present: set<nat>, exp: nat, n: nat): (m: seq<nat>)
    ensures |m| == n
    decreases n
  {
    if n == 0 then [] else MapUpTo(present, exp, n - 1) + [Counter(present, exp, n - 1)]
  }

  /** Entry `i` of the map is the counter before index `i`. */
  lemma {:induction false} MapUpToAt(present: set<nat>, exp: nat, n: nat)
    ensures forall i :: 0 <= i < n ==> MapUpTo(present, exp, n)[i] == Counter(present, exp, i)
    decreases n
  {
    if n > 0 {
      MapUpToAt(present, exp, n - 1);
    }
  }

  /** The remapping loop: entry `i` of the map is the counter before index `i`. */
  method BuildMap(present: set<nat>, exp: nat, max: nat) returns (m: seq<nat>)
    ensures |m| == max + 1
    ensures forall i :: 0 <= i <= max ==> m[i] == Counter(present, exp, i)
  {
    m := [];
    var c: nat := 0;
    var i: nat := 0;
    while i <= max
      invariant i <= max + 1
      invariant c == Counter(present, exp, i)
      invariant m == MapUpTo(present, exp, i)
    {
      m := m + [c];
      if i in present {
        c := c + 1;
      } else {
        c := c + exp;
      }
      i := i + 1;
    }
    MapUpToAt(present, exp, max + 1);
  }

  /* ---------------- the pair sum ---------------- */

  /** The pair test: `g1` comes after `g2` in lexicographic order. */
  predicate After(g1: Pos, g2: Pos) { g1.0 > g2.0 || (g1.0 == g2.0 && g1.1 > g2.1) }

  /** Of two distinct galaxies exactly one comes after the other, and a
      galaxy is never paired with itself, so each unordered pair is summed once. */
  lemma AfterPicksOne(g1: Pos, g2: Pos)
    ensures g1 != g2 ==> After(g1, g2) != After(g2, g1)
    ensures !After(g1, g1)
  {
  }

  predicate Fits(data: seq<Pos>, cm: seq<nat>, rm: seq<nat>)
  {
    forall i :: 0 <= i < |data| ==> data[i].0 < |cm| && data[i].1 < |rm|
  }

  /** The remapped position of a galaxy. */
  function Remap(g: Pos, cm: seq<nat>, rm: seq<nat>): Pos
    requires g.0 < |cm| && g.1 < |rm|
  {
    (cm[g.0], rm[g.1])
  }

  /** What galaxy `g1` contributes, paired with the first `k` galaxies. */
  function InnerSum(data: seq<Pos>, g1: Pos, k: nat, cm: seq<nat>, rm: seq<nat>): nat
    requires k <= |data| && Fits(data, cm, rm) && g1.0 < |cm| && g1.1 < |rm|
    decreases k
  {
    if k == 0 then 0
    else
      var g2 := data[k - 1];
      InnerSum(data, g1, k - 1, cm, rm) + (if After(g1, g2) then Dist(Remap(g1, cm, rm), Remap(g2, cm, rm)) else 0)
  }

  /** The sum over the first `k` galaxies of what each contributes. */
  function PairSum(data: seq<Pos>, k: nat, cm: seq<nat>, rm: seq<nat>): nat
    requires k <= |data| && Fits(data, cm, rm)
    decreases k
  {
    if k == 0 then 0 else PairSum(data, k - 1, cm, rm) + InnerSum(data, data[k - 1], |data|, cm, rm)
  }

  function Xs(data: seq<Pos>): set<nat> { set i | 0 <= i < |data| :: data[i].0 }
  function Ys(data: seq<Pos>): set<nat> { set i | 0 <= i < |data| :: data[i].1 }

  /** The largest of a non-empty list. */
  function MaxOf(s: seq<nat>): (m: nat)
    requires s != []
    ensures (forall i :: 0 <= i < |s| ==> s[i] <= m) && m in s
    decreases |s|
  {
    if |s| == 1 then s[0]
    else
      var rest := MaxOf(s[..|s| - 1]);
      if s[|s| - 1] > rest then s[|s| - 1] else rest
  }

  function XList(data: seq<Pos>): (r: seq<nat>)
    ensures |r| == |data| && forall i :: 0 <= i < |data| ==> r[i] == data[i].0
  {
    seq(|data|, i requires 0 <= i < |data| => data[i].0)
  }

  function YList(data: seq<Pos>): (r: seq<nat>)
    ensures |r| == |data| && forall i :: 0 <= i < |data| ==> r[i] == data[i].1
  {
    seq(|data|, i requires 0 <= i < |data| => data[i].1)
  }

  /** The column and row maps `with_expansion` builds. */
  function ColMap(data: seq<Pos>, exp: nat): (cm: seq<nat>)
    requires data != []
    ensures |cm| == MaxOf(XList(data)) + 1
  {
    seq(MaxOf(XList(data)) + 1, (i: nat) => Counter(Xs(data), exp, i))
  }

  function RowMap(data: seq<Pos>, exp: nat): (rm: seq<nat>)
    requires data != []
    ensures |rm| == MaxOf(YList(data)) + 1
  {
    seq(MaxOf(YList(data)) + 1, (i: nat) => Counter(Ys(data), exp, i))
  }

  lemma MapsFit(data: seq<Pos>, exp: nat)
    requires data != []
    ensures Fits(data, ColMap(data, exp), RowMap(data, exp))
  {
    var xl, yl := XList(data), YList(data);
    forall i | 0 <= i < |data| ensures data[i].0 < |ColMap(data, exp)| && data[i].1 < |RowMap(data, exp)| {
      assert xl[i] <= MaxOf(xl);
      assert yl[i] <= MaxOf(yl);
    }
  }

  /** The answer for a non-empty image. */
  function Expanded(data: seq<Pos>, exp: nat): nat
    requires data != []
  {
    MapsFit(data, exp);
    PairSum(data, |data|, ColMap(data, exp), RowMap(data, exp))
  }

  /** With `exp = 1` nothing expands: the maps are the identity. */
  lemma NoExpansion(data: seq<Pos>, i: nat)
    requires data != [] && i < |ColMap(data, 1)|
    ensures ColMap(data, 1)[i] == i
  {
    CounterClosedForm(Xs(data), 1, i);
  }

  /** `with_expansion`: build both maps, then add the remapped distance of
      every ordered pair whose first galaxy comes after the second. An empty
      image panics (the maximum of no coordinates is unwrapped). */
  method WithExpansion(data: seq<Pos>, exp: nat) returns (r: Option<nat>)
    ensures r.None? <==> data == []
    ensures r.Some? ==> r.value == Expanded(data, exp)
  {
    if data == [] {
      return None;
    }
    var xValues := Xs(data);
    var yValues := Ys(data);
    var xMax := MaxOf(XList(data));
    var yMax := MaxOf(YList(data));
    var colMap := BuildMap(xValues, exp, xMax);
    var rowMap := BuildMap(yValues, exp, yMax);
    assert colMap == ColMap(data, exp);
    assert rowMap == RowMap(data, exp);
    MapsFit(data, exp);
    var sum: nat := 0;
    var i := 0;
    while i < |data|
      invariant 0 <= i <= |data|
      invariant sum == PairSum(data, i, colMap, rowMap)
    {
      var inner := InnerLoop(data, data[i], colMap, rowMap);
      sum := sum + inner;
      i := i + 1;
    }
    r := Some(sum);
  }

  /** The inner loop of `with_expansion`: galaxy `g1` against every galaxy. */
  method InnerLoop(data: seq<Pos>, g1: Pos, colMap: seq<nat>, rowMap: seq<nat>) returns (inner: nat)
    requires Fits(data, colMap, rowMap) && g1.0 < |colMap| && g1.1 < |rowMap|
    ensures inner == InnerSum(data, g1, |data|, colMap, rowMap)
  {
    inner := 0;
    var j := 0;
    while j < |data|
      invariant 0 <= j <= |data|
      invariant inner == InnerSum(data, g1, j, colMap, rowMap)
    {
      var g2 := data[j];
      if g1.0 > g2.0 || (g1.0 == g2.0 && g1.1 > g2.1) {
        inner := inner + Dist((colMap[g1.0], rowMap[g1.1]), (colMap[g2.0], rowMap[g2.1]));
      }
      j := j + 1;
    }
  }
}
