// Day 18: a dig plan traces a closed rectilinear loop from (0, 0); the
// lagoon is the loop's edge plus everything inside it. `part1` scans every
// cell of the bounding box and decides inside or outside by the parity of
// the vertical edges crossed so far in its row. `part2` reads the real plan
// from the hex colours and sweeps only the rows where some edge ends,
// multiplying out the rows in between.

module Day18 {
  import opened Lib
  import Sorting

  datatype Dir = Up | Down | Left | Right

  /** One line of the plan: direction, distance and the `#rrggbb` colour
      (without the `#`). */
  datatype Dig = Dig(dir: Dir, dist: int, colour: string)

  type Point = (int, int)
  type Edge = (Point, Point)

  const IsizeMax: int := 0x7fff_ffff_ffff_ffff
  const IsizeMin: int := -0x8000_0000_0000_0000

  /* ---------------- crosses ---------------- */

  datatype CrossType = NoCross | OnEdge | CrossEdge

  function Min(a: int, b: int): int { if a <= b then a else b }
  function Max(a: int, b: int): int { if a >= b then a else b }

  /** `crosses`: how the point `pos` meets the edge `e`. `None` where the
      source panics: an edge that is neither vertical nor horizontal. */
  function Crosses(pos: Point, e: Edge): Option<CrossType>
  {
    if e.0.0 == e.1.0 then
      if e.0.0 == pos.0 then
        var y1 := Min(e.0.1, e.1.1);
        var y2 := Max(e.0.1, e.1.1);
        if y1 == pos.1 then Some(OnEdge)
        else if y1 <= pos.1 <= y2 then Some(CrossEdge)
        else Some(NoCross)
      else Some(NoCross)
    else if e.0.1 == e.1.1 then
      if e.0.1 == pos.1 && Min(e.0.0, e.1.0) <= pos.0 <= Max(e.0.0, e.1.0) then Some(OnEdge)
      else Some(NoCross)
    else None
  }

  /** A vertical edge toggles the parity on the half-open span above its
      upper end: strictly below its smaller `y` and up to its larger one; at
      the smaller `y` the point is only on the edge. */
  lemma CrossesVertical(pos: Point, e: Edge)
    requires e.0.0 == e.1.0
    ensures Crosses(pos, e) == Some(CrossEdge) <==>
      pos.0 == e.0.0 && Min(e.0.1, e.1.1) < pos.1 <= Max(e.0.1, e.1.1)
    ensures Crosses(pos, e) == Some(OnEdge) <==> pos.0 == e.0.0 && pos.1 == Min(e.0.1, e.1.1)
  {
  }

  /** A horizontal edge of positive length never toggles the parity; it only
      marks the points it covers as on the edge. */
  lemma CrossesHorizontal(pos: Point, e: Edge)
    requires e.0.1 == e.1.1 && e.0.0 != e.1.0
    ensures Crosses(pos, e) != Some(CrossEdge)
    ensures Crosses(pos, e) == Some(OnEdge) <==>
      pos.1 == e.0.1 && Min(e.0.0, e.1.0) <= pos.0 <= Max(e.0.0, e.1.0)
  {
  }

  /** `crosses` panics exactly on a slanted edge. */
  lemma CrossesPanics(pos: Point, e: Edge)
    ensures Crosses(pos, e).None? <==> e.0.0 != e.1.0 && e.0.1 != e.1.1
  {
  }

  /* ---------------- following the plan ---------------- */

  function Inc(d: Dir): Point
  {
    match d
    case Up => (0, -1)
    case Down => (0, 1)
    case Left => (-1, 0)
    case Right => (1, 0)
  }

  /** Where the digger stands after the digs `ds`. */
  function Pos(ds: seq<Dig>): Point
    decreases |ds|
  {
    if ds == [] then (0, 0)
    else
      var p := Pos(ds[..|ds| - 1]);
      var d := ds[|ds| - 1];
      (p.0 + d.dist * Inc(d.dir).0, p.1 + d.dist * Inc(d.dir).1)
  }

  /** The edges dug by `ds`, one per dig. */
  function Edges(ds: seq<Dig>): (r: seq<Edge>)
    ensures |r| == |ds|
    decreases |ds|
  {
    if ds == [] then [] else Edges(ds[..|ds| - 1]) + [(Pos(ds[..|ds| - 1]), Pos(ds))]
  }

  /** The bounding box of the positions reached, starting from the source's
      `isize::MAX`/`isize::MIN` sentinels (the start itself is not included). */
  function MinX(ds: seq<Dig>): int
    decreases |ds|
  {
    if ds == [] then IsizeMax else Min(MinX(ds[..|ds| - 1]), Pos(ds).0)
  }

  function MaxX(ds: seq<Dig>): int
    decreases |ds|
  {
    if ds == [] then IsizeMin else Max(MaxX(ds[..|ds| - 1]), Pos(ds).0)
  }

  function MinY(ds: seq<Dig>): int
    decreases |ds|
  {
    if ds == [] then IsizeMax else Min(MinY(ds[..|ds| - 1]), Pos(ds).1)
  }

  function MaxY(ds: seq<Dig>): int
    decreases |ds|
  {
    if ds == [] then IsizeMin else Max(MaxY(ds[..|ds| - 1]), Pos(ds).1)
  }

  /** The edges form a path from (0, 0): each starts where the one before
      ends, every one is vertical or horizontal (so `crosses` never panics on
      them), and every end lies in the bounding box. */
  lemma {:induction false} EdgesShape(ds: seq<Dig>)
    ensures ds != [] ==> Edges(ds)[0].0 == (0, 0) && Edges(ds)[|ds| - 1].1 == Pos(ds)
    ensures forall k :: 0 <= k < |ds| - 1 ==> Edges(ds)[k].1 == Edges(ds)[k + 1].0
    ensures forall k :: 0 <= k < |ds| ==> Edges(ds)[k].0.0 == Edges(ds)[k].1.0 || Edges(ds)[k].0.1 == Edges(ds)[k].1.1
    ensures forall k :: 0 <= k < |ds| ==>
      MinX(ds) <= Edges(ds)[k].1.0 <= MaxX(ds) && MinY(ds) <= Edges(ds)[k].1.1 <= MaxY(ds)
    decreases |ds|
  {
    if ds != [] {
      var init := ds[..|ds| - 1];
      EdgesShape(init);
      if init != [] {
        assert init[..|init| - 1] == ds[..|ds| - 2];
      }
    }
  }

  /** The first loop of `part1`: follow the plan, collecting the edges and
      the bounding box. */
  method Trace(data: seq<Dig>)
      returns (pos: Point, edges: seq<Edge>, minX: int, maxX: int, minY: int, maxY: int)
    ensures pos == Pos(data) && edges == Edges(data)
    ensures minX == MinX(data) && maxX == MaxX(data) && minY == MinY(data) && maxY == MaxY(data)
  {
    pos := (0, 0);
    edges := [];
    minX, maxX, minY, maxY := IsizeMax, IsizeMin, IsizeMax, IsizeMin;
    var i := 0;
    while i < |data|
      invariant 0 <= i <= |data|
      invariant pos == Pos(data[..i]) && edges == Edges(data[..i])
      invariant minX == MinX(data[..i]) && maxX == MaxX(data[..i])
      invariant minY == MinY(data[..i]) && maxY == MaxY(data[..i])
    {
      assert data[..i + 1][..i] == data[..i];
      var dig := data[i];
      var inc := Inc(dig.dir);
      var oldPos := pos;
      pos := (pos.0 + dig.dist * inc.0, pos.1 + dig.dist * inc.1);
      minX := Min(minX, pos.0);
      maxX := Max(maxX, pos.0);
      minY := Min(minY, pos.1);
      maxY := Max(maxY, pos.1);
      edges := edges + [(oldPos, pos)];
      i := i + 1;
    }
    assert data[..i] == data;
  }

  /* ---------------- part 1: the cell scan ---------------- */

  function Odd(n: nat): bool { n % 2 == 1 }

  /** How many of the first `n` edges `p` crosses. */
  function CrossCount(edges: seq<Edge>, p: Point, n: nat): (c: nat)
    requires n <= |edges|
    ensures c <= n
  {
    if n == 0 then 0
    else CrossCount(edges, p, n - 1) + (if Crosses(p, edges[n - 1]) == Some(CrossEdge) then 1 else 0)
  }

  /** Whether `p` lies on one of the first `n` edges. */
  function Touches(edges: seq<Edge>, p: Point, n: nat): bool
    requires n <= |edges|
  {
    n > 0 && (Touches(edges, p, n - 1) || Crosses(p, edges[n - 1]) in {Some(OnEdge), Some(CrossEdge)})
  }

  /** The innermost loop of `part1`: one cell against every edge. */
  method Probe(edges: seq<Edge>, p: Point, inside0: bool) returns (onEdge: bool, inside: bool)
    ensures onEdge == Touches(edges, p, |edges|)
    ensures inside == (inside0 != Odd(CrossCount(edges, p, |edges|)))
  {
    onEdge := false;
    inside := inside0;
    var k := 0;
    while k < |edges|
      invariant 0 <= k <= |edges|
      invariant onEdge == Touches(edges, p, k)
      invariant inside == (inside0 != Odd(CrossCount(edges, p, k)))
    {
      var cross := Crosses(p, edges[k]);
      match cross {
        case Some(OnEdge) =>
          onEdge := true;
        case Some(CrossEdge) =>
          onEdge := true;
          inside := !inside;
        case _ =>
      }
      k := k + 1;
    }
  }

  /** The toggles met in the first `n` cells of row `y` from `x0`. */
  function Toggles(edges: seq<Edge>, y: int, x0: int, n: nat): nat
  {
    if n == 0 then 0 else Toggles(edges, y, x0, n - 1) + CrossCount(edges, (x0 + n - 1, y), |edges|)
  }

  /** The state of the row loop after `n` cells from `x0`: cells dug and
      whether the scan is inside. */
  function RowScan(edges: seq<Edge>, y: int, x0: int, n: nat): (r: (nat, bool))
    ensures r.0 <= n
  {
    if n == 0 then (0, false)
    else
      var (dug, inside) := RowScan(edges, y, x0, n - 1);
      var p := (x0 + n - 1, y);
      var inside' := inside != Odd(CrossCount(edges, p, |edges|));
      (dug + (if Touches(edges, p, |edges|) || inside' then 1 else 0), inside')
  }

  /** The scan is inside exactly when it has met an odd number of toggles,
      so a cell is dug iff it is on an edge or an odd number of vertical
      edges lie on its left in this row (itself included). */
  lemma {:induction false} RowScanParity(edges: seq<Edge>, y: int, x0: int, n: nat)
    ensures RowScan(edges, y, x0, n).1 == Odd(Toggles(edges, y, x0, n))
    ensures n > 0 ==> (RowScan(edges, y, x0, n).0 == RowScan(edges, y, x0, n - 1).0 +
      (if Touches(edges, (x0 + n - 1, y), |edges|) || Odd(Toggles(edges, y, x0, n)) then 1 else 0))
    decreases n
  {
    if n > 0 {
      RowScanParity(edges, y, x0, n - 1);
      OddSum(Toggles(edges, y, x0, n - 1), CrossCount(edges, (x0 + n - 1, y), |edges|));
    }
  }

  lemma OddSum(a: nat, b: nat)
    ensures Odd(a + b) == (Odd(a) != Odd(b))
  {
  }

  /** The middle loop of `part1`: one row of the bounding box. */
  method ScanRow(edges: seq<Edge>, y: int, minX: int, maxX: int) returns (dug: nat)
    ensures dug == RowScan(edges, y, minX, Width(minX, maxX)).0
  {
    dug := 0;
    var inside := false;
    var x := minX;
    while x <= maxX
      invariant minX <= x && (x <= maxX + 1 || Width(minX, maxX) == 0)
      invariant x - minX <= Width(minX, maxX)
      invariant (dug, inside) == RowScan(edges, y, minX, x - minX)
    {
      var onEdge;
      onEdge, inside := Probe(edges, (x, y), inside);
      if onEdge || inside {
        dug := dug + 1;
      }
      x := x + 1;
    }
  }

  /** The number of cells from `lo` to `hi`, none when `lo > hi`. */
  function Width(lo: int, hi: int): nat
  {
    if lo <= hi then hi - lo + 1 else 0
  }

  /** The cells dug in the first `n` rows from `y0`. */
  function Dug(edges: seq<Edge>, minX: int, maxX: int, y0: int, n: nat): (d: nat)
    ensures d <= n * Width(minX, maxX)
  {
    if n == 0 then 0
    else Dug(edges, minX, maxX, y0, n - 1) + RowScan(edges, y0 + n - 1, minX, Width(minX, maxX)).0
  }

  /** `part1`: the cells of the bounding box that are dug. `None` where the
      source's `assert_eq!` fails: the plan does not come back to (0, 0). */
  method Part1(data: seq<Dig>) returns (r: Option<nat>)
    ensures r.None? <==> Pos(data) != (0, 0)
    ensures r.Some? ==> r.value == Dug(Edges(data), MinX(data), MaxX(data), MinY(data), Width(MinY(data), MaxY(data)))
    ensures r.Some? ==> r.value <= Width(MinX(data), MaxX(data)) * Width(MinY(data), MaxY(data))
  {
    var pos, edges, minX, maxX, minY, maxY := Trace(data);
    if pos != (0, 0) {
      return None;
    }
    var dug := 0;
    var y := minY;
    while y <= maxY
      invariant minY <= y && (y <= maxY + 1 || Width(minY, maxY) == 0)
      invariant y - minY <= Width(minY, maxY)
      invariant dug == Dug(edges, minX, maxX, minY, y - minY)
    {
      var row := ScanRow(edges, y, minX, maxX);
      dug := dug + row;
      y := y + 1;
    }
    return Some(dug);
  }

  /* ---------------- part 2: decoding the colours ---------------- */

  /** One hex digit, as `from_str_radix(_, 16)` reads it. */
  function HexDigit(c: char): Option<nat>
  {
    if '0' <= c <= '9' then Some(c as int - '0' as int)
    else if 'a' <= c <= 'f' then Some(c as int - 'a' as int + 10)
    else if 'A' <= c <= 'F' then Some(c as int - 'A' as int + 10)
    else None
  }

  /** A string of hex digits read as a number; `None` on any other character
      or on the empty string. */
  function HexValue(s: string): (r: Option<nat>)
    ensures r.Some? ==> r.value < Power16(|s|)
    decreases |s|
  {
    if s == [] then None
    else
      var d := HexDigit(s[|s| - 1]);
      if d.None? then None
      else if |s| == 1 then d
      else
        match HexValue(s[..|s| - 1])
        case None => None
        case Some(v) => Some(16 * v + d.value)
  }

  function Power16(n: nat): (r: nat)
    ensures r >= 1
  {
    if n == 0 then 1 else 16 * Power16(n - 1)
  }

  /** The sixth colour digit gives the direction. */
  function ColourDir(c: char): Option<Dir>
  {
    match c
    case '0' => Some(Right)
    case '1' => Some(Down)
    case '2' => Some(Left)
    case '3' => Some(Up)
    case _ => None
  }

  /** The real dig hidden in a colour: the distance from the first five hex
      digits and the direction from the sixth. `None` where the source panics:
      a colour shorter than six characters, a sixth digit other than `0` to
      `3`, or a distance that does not parse. */
  function Decode(colour: string): (r: Option<(Dir, nat)>)
    ensures r.Some? ==> r.value.1 < 0x10_0000
  {
    if |colour| < 6 then None
    else
      match ColourDir(colour[5])
      case None => None
      case Some(d) =>
        match HexValue(colour[..5])
        case None => None
        case Some(v) =>
          assert Power16(5) == 0x10_0000;
          Some((d, v))
  }

  /** Lower-case hex digit of `v < 16`. */
  function HexChar(v: nat): char
    requires v < 16
  {
    if v < 10 then ('0' as int + v) as char else ('a' as int + v - 10) as char
  }

  /** `n` written in `k` lower-case hex digits, most significant first. */
  function HexString(v: nat, k: nat): (s: string)
    ensures |s| == k
    decreases k
  {
    if k == 0 then [] else HexString(v / 16, k - 1) + [HexChar(v % 16)]
  }

  function DirChar(d: Dir): char
  {
    match d
    case Right => '0'
    case Down => '1'
    case Left => '2'
    case Up => '3'
  }

  lemma {:induction false} HexRoundTrip(v: nat, k: nat)
    requires 1 <= k && v < Power16(k)
    ensures HexValue(HexString(v, k)) == Some(v)
    decreases k
  {
    var s := HexString(v, k);
    assert s[..k - 1] == HexString(v / 16, k - 1);
    HexCharDigit(v % 16);
    if k > 1 {
      DivBelow16(v, k);
      HexRoundTrip(v / 16, k - 1);
    } else {
      assert v < 16;
    }
  }

  lemma HexCharDigit(v: nat)
    requires v < 16
    ensures HexDigit(HexChar(v)) == Some(v)
  {
  }

  lemma DivBelow16(v: nat, k: nat)
    requires 1 <= k && v < Power16(k)
    ensures v / 16 < Power16(k - 1) && v == 16 * (v / 16) + v % 16
  {
  }

  /** Decoding reads back any dig written as a colour. */
  lemma DecodeRoundTrip(d: Dir, dist: nat)
    requires dist < 0x10_0000
    ensures Decode(HexString(dist, 5) + [DirChar(d)]) == Some((d, dist))
  {
    var c := HexString(dist, 5) + [DirChar(d)];
    assert Power16(5) == 0x10_0000;
    HexRoundTrip(dist, 5);
    assert c[..5] == HexString(dist, 5);
  }

  /* ---------------- part 2: the sorted row values ---------------- */

  predicate StrictlySorted(ys: seq<int>)
  {
    forall i, j :: 0 <= i < j < |ys| ==> ys[i] < ys[j]
  }

  /** `BTreeSet::insert` on the set kept as a strictly sorted sequence. */
  function InsertSorted(ys: seq<int>, y: int): (r: seq<int>)
    requires StrictlySorted(ys)
    ensures StrictlySorted(r)
    ensures forall z :: z in r <==> z in ys || z == y
    decreases |ys|
  {
    if ys == [] then [y]
    else if y < ys[0] then
      assert forall k :: 0 <= k < |ys| ==> y < ys[k];
      [y] + ys
    else if y == ys[0] then ys
    else
      var rest := InsertSorted(ys[1..], y);
      assert forall k :: 0 <= k < |rest| ==> ys[0] < rest[k] by {
        forall k | 0 <= k < |rest|
          ensures ys[0] < rest[k]
        {
          assert rest[k] in rest;
          if rest[k] != y {
            var j :| 0 <= j < |ys[1..]| && ys[1..][j] == rest[k];
            assert ys[j + 1] == rest[k];
          }
        }
      }
      [ys[0]] + rest
  }

  /* ---------------- part 2: the row sweep ---------------- */

  /** How a vertical edge meets a row; declared in this order, which the
      row sort uses. */
  datatype EdgeType = EUp | EDown | ECross

  function TypeRank(t: EdgeType): nat
  {
    match t
    case EUp => 0
    case EDown => 1
    case ECross => 2
  }

  /** A vertical edge meeting row `y` at its top end turns down from it
      (`Down`), at its bottom end comes up to it (`Up`), elsewhere runs
      across it (`Cross`). */
  function Classify(e: Edge, y: int): (int, EdgeType)
  {
    var ymin := Min(e.0.1, e.1.1);
    var ymax := Max(e.0.1, e.1.1);
    (e.0.0, if ymin == y then EDown else if ymax == y then EUp else ECross)
  }

  predicate Meets(e: Edge, y: int)
  {
    Min(e.0.1, e.1.1) <= y <= Max(e.0.1, e.1.1)
  }

  /** The edges meeting row `y`, classified, in the order of `edges`. */
  function RowEdges(edges: seq<Edge>, y: int): (r: seq<(int, EdgeType)>)
    ensures |r| <= |edges|
    decreases |edges|
  {
    if edges == [] then []
    else
      var rest := RowEdges(edges[..|edges| - 1], y);
      if Meets(edges[|edges| - 1], y) then rest + [Classify(edges[|edges| - 1], y)] else rest
  }

  /** The derived order on `(x, EdgeType)`: by `x`, then by type. */
  function RowLe(a: (int, EdgeType), b: (int, EdgeType)): bool
  {
    a.0 < b.0 || (a.0 == b.0 && TypeRank(a.1) <= TypeRank(b.1))
  }

  /** `row_edges.sort()`. */
  function SortedRow(edges: seq<Edge>, y: int): seq<(int, EdgeType)>
  {
    Sorting.SortBy(RowEdges(edges, y), RowLe)
  }

  /** The sweep state within a row. */
  datatype Sweep = Sweep(inside: bool, startInside: Option<int>, horStart: Option<int>,
                         rowInsideStart: Option<int>, dug: int, numInside: int)

  /** The body of the sweep loop for one edge at `x`. First the rows just
      below are tracked (`inside`, `start_inside`, `num_inside_in_row`), then
      the current row (`hor_start`, `row_inside_start`, `dug`). `None` where
      the source panics. */
  function Step(s: Sweep, x: int, et: EdgeType): Option<Sweep>
  {
    var below :=
      if et == EUp then Some(s)
      else if s.inside then
        if s.startInside.None? then None
        else Some(s.(numInside := s.numInside + x - s.startInside.value + 1, startInside := None, inside := false))
      else if s.startInside.Some? then None
      else Some(s.(startInside := Some(x), inside := true));
    match below
    case None => None
    case Some(b) =>
      match (et, b.horStart, b.rowInsideStart)
      case (ECross, None, None) => Some(b.(rowInsideStart := Some(x)))
      case (ECross, None, Some(start)) => Some(b.(dug := b.dug + x - start + 1, rowInsideStart := None))
      case (ECross, Some(_), _) => None
      case (EUp, None, None) => Some(b.(horStart := Some(x)))
      case (EDown, None, None) => Some(b.(horStart := Some(x), rowInsideStart := Some(x)))
      case (EUp, Some(h), None) => Some(b.(dug := b.dug + x - h + 1, horStart := None))
      case (EUp, None, Some(start)) => Some(b.(dug := b.dug + x - start, horStart := Some(x)))
      case (EDown, None, Some(start)) => Some(b.(dug := b.dug + x - start, rowInsideStart := None, horStart := Some(x)))
      case (EUp, Some(h), Some(_)) => Some(b.(dug := b.dug + x - h + 1, horStart := None, rowInsideStart := Some(x + 1)))
      case (EDown, Some(h), None) => Some(b.(dug := b.dug + x - h + 1, horStart := None, rowInsideStart := Some(x + 1)))
      case (EDown, Some(h), Some(_)) => Some(b.(dug := b.dug + x - h + 1, horStart := None, rowInsideStart := None))
  }

  /** `inside` is set exactly when an inside run below is open. */
  predicate Tracks(s: Sweep)
  {
    s.inside <==> s.startInside.Some?
  }

  /** The `unwrap` and the `assert!` on `start_inside` never fire: the step
      keeps `inside` in step with `start_inside`, and panics only on a
      crossing inside a horizontal run. */
  lemma StepTracks(s: Sweep, x: int, et: EdgeType)
    requires Tracks(s)
    ensures Step(s, x, et).Some? ==> Tracks(Step(s, x, et).value)
    ensures Step(s, x, et).None? <==> et == ECross && s.horStart.Some?
  {
  }

  /** The sweep over the first `n` edges of a row. */
  function Fold(s: Sweep, es: seq<(int, EdgeType)>, n: nat): Option<Sweep>
    requires n <= |es|
  {
    if n == 0 then Some(s)
    else
      match Fold(s, es, n - 1)
      case None => None
      case Some(t) => Step(t, es[n - 1].0, es[n - 1].1)
  }

  /** A step that panics ends the row's sweep. */
  lemma {:induction false} FoldNone(s: Sweep, es: seq<(int, EdgeType)>, n: nat)
    requires n <= |es| && Fold(s, es, n).None?
    ensures Fold(s, es, |es|).None?
    decreases |es| - n
  {
    if n < |es| {
      FoldNone(s, es, n + 1);
    }
  }

  /** What a row leaves when it is well formed: the source asserts that no
      run is left open. */
  predicate Closed(s: Sweep)
  {
    s.startInside.None? && s.rowInsideStart.None? && !s.inside
  }

  /** The sweep of one row from `dug`, counting afresh the cells inside just
      below it. */
  function SweepRow(edges: seq<Edge>, y: int, dug: int): Option<(int, int)>
  {
    var es := SortedRow(edges, y);
    match Fold(Sweep(false, None, None, None, dug, 0), es, |es|)
    case None => None
    case Some(t) => if Closed(t) then Some((t.dug, t.numInside)) else None
  }

  /** The whole sweep over the first `n` row values: the dug count, the
      inside count of the last row and the last row. */
  function Area(edges: seq<Edge>, ys: seq<int>, n: nat): Option<(int, int, int)>
    requires n <= |ys|
  {
    if n == 0 then Some((0, 0, 0))
    else
      match Area(edges, ys, n - 1)
      case None => None
      case Some((dug, numInside, lastY)) =>
        var y := ys[n - 1];
        match SweepRow(edges, y, dug + numInside * (y - lastY - 1))
        case None => None
        case Some((d, inside)) => Some((d, inside, y))
  }

  /** The inner loop of `part2` over one row's sorted edges, with the checks
      after it. */
  method SweepRowLoop(edges: seq<Edge>, y: int, dug0: int) returns (r: Option<(int, int)>)
    ensures r == SweepRow(edges, y, dug0)
  {
    var es := SortedRow(edges, y);
    var s := Sweep(false, None, None, None, dug0, 0);
    var i := 0;
    while i < |es|
      invariant 0 <= i <= |es|
      invariant Fold(Sweep(false, None, None, None, dug0, 0), es, i) == Some(s)
    {
      var next := Step(s, es[i].0, es[i].1);
      if next.None? {
        FoldNone(Sweep(false, None, None, None, dug0, 0), es, i + 1);
        return None;
      }
      s := next.value;
      i := i + 1;
    }
    if !Closed(s) {
      return None;
    }
    return Some((s.dug, s.numInside));
  }

  /** The plan read from the colours; `None` where a colour does not decode. */
  function Decoded(data: seq<Dig>): (r: Option<seq<Dig>>)
    ensures r.Some? ==> |r.value| == |data|
    decreases |data|
  {
    if data == [] then Some([])
    else
      match (Decoded(data[..|data| - 1]), Decode(data[|data| - 1].colour))
      case (Some(init), Some((d, dist))) => Some(init + [Dig(d, dist, [])])
      case _ => None
  }

  /** The vertical edges of the plan: `part2` keeps only these. */
  function VerticalEdges(ds: seq<Dig>): seq<Edge>
    decreases |ds|
  {
    if ds == [] then []
    else
      var init := VerticalEdges(ds[..|ds| - 1]);
      if Inc(ds[|ds| - 1].dir).0 == 0 then init + [(Pos(ds[..|ds| - 1]), Pos(ds))] else init
  }

  /** The rows where some dig ends, in increasing order. */
  function YValues(ds: seq<Dig>): (r: seq<int>)
    ensures StrictlySorted(r)
    decreases |ds|
  {
    if ds == [] then []
    else InsertSorted(YValues(ds[..|ds| - 1]), Pos(ds).1)
  }

  /** Each row in `YValues` is where some dig ends, and every such row is
      there. */
  lemma {:induction false} YValuesSpec(ds: seq<Dig>)
    ensures forall y :: y in YValues(ds) <==> exists k :: 0 < k <= |ds| && Pos(ds[..k]).1 == y
    decreases |ds|
  {
    if ds != [] {
      var init := ds[..|ds| - 1];
      YValuesSpec(init);
      assert forall k :: 0 < k <= |init| ==> ds[..k] == init[..k];
      assert ds[..|ds|] == ds;
    }
  }

  /** The first loop of `part2`: decode each colour, follow the plan, keep
      the vertical edges and the rows where a dig ends. */
  method Trace2(data: seq<Dig>) returns (r: Option<(Point, seq<Edge>, seq<int>)>)
    ensures r.None? <==> Decoded(data).None?
    ensures r.Some? ==> r.value == (Pos(Decoded(data).value), VerticalEdges(Decoded(data).value), YValues(Decoded(data).value))
  {
    var pos := (0, 0);
    var edges := [];
    var ys := [];
    ghost var ds := [];
    var i := 0;
    while i < |data|
      invariant 0 <= i <= |data|
      invariant Decoded(data[..i]) == Some(ds)
      invariant pos == Pos(ds) && edges == VerticalEdges(ds) && ys == YValues(ds)
    {
      assert data[..i + 1][..i] == data[..i];
      var decoded := Decode(data[i].colour);
      if decoded.None? {
        assert Decoded(data[..i + 1]).None?;
        DecodedNone(data, i + 1);
        return None;
      }
      var (dir, dist) := decoded.value;
      pos, edges, ys := TraceStep(ds, pos, edges, ys, dir, dist);
      ds := ds + [Dig(dir, dist, [])];
      i := i + 1;
    }
    assert data[..i] == data;
    return Some((pos, edges, ys));
  }

  /** The body of the first loop of `part2` for one decoded dig: move, record
      the row reached, and keep the edge if it is vertical. */
  method TraceStep(ghost ds: seq<Dig>, pos0: Point, edges0: seq<Edge>, ys0: seq<int>, dir: Dir, dist: nat)
      returns (pos: Point, edges: seq<Edge>, ys: seq<int>)
    requires pos0 == Pos(ds) && edges0 == VerticalEdges(ds) && ys0 == YValues(ds)
    ensures pos == Pos(ds + [Dig(dir, dist, [])])
    ensures edges == VerticalEdges(ds + [Dig(dir, dist, [])])
    ensures ys == YValues(ds + [Dig(dir, dist, [])])
  {
    var x := Dig(dir, dist, []);
    var inc := Inc(dir);
    pos := (pos0.0 + dist * inc.0, pos0.1 + dist * inc.1);
    PosSnoc(ds, x);
    assert pos == Pos(ds + [x]) by {
      assert x.dist == dist && Inc(x.dir) == inc;
    }
    ys := InsertSorted(ys0, pos.1);
    YValuesSnoc(ds, x);
    edges := edges0;
    if inc.0 == 0 {
      edges := edges + [(pos0, pos)];
    }
    EdgesSnoc(ds, x);
  }

  /** A colour that does not decode spoils the whole plan. */
  lemma {:induction false} DecodedNone(data: seq<Dig>, n: nat)
    requires n <= |data| && Decoded(data[..n]).None?
    ensures Decoded(data).None?
    decreases |data| - n
  {
    if n < |data| {
      assert data[..n + 1][..n] == data[..n];
      DecodedNone(data, n + 1);
    } else {
      assert data[..n] == data;
    }
  }

  /** What `part2` computes; `None` where it panics. */
  function Part2Spec(data: seq<Dig>): Option<int>
  {
    match Decoded(data)
    case None => None
    case Some(ds) =>
      if Pos(ds) != (0, 0) then None
      else
        var ys := YValues(ds);
        match Area(VerticalEdges(ds), ys, |ys|)
        case None => None
        case Some(t) => Some(t.0)
  }

  /** `part2`: sweep the rows where some dig ends; between two such rows
      every row has the inside cells of the row just below the first. */
  method Part2(data: seq<Dig>) returns (r: Option<int>)
    ensures r == Part2Spec(data)
  {
    var traced := Trace2(data);
    if traced.None? {
      return None;
    }
    var (pos, edges, ys) := traced.value;
    if pos != (0, 0) {
      return None;
    }
    var area := SweepRows(edges, ys);
    if area.None? {
      return None;
    }
    return Some(area.value.0);
  }

  /** The outer loop of `part2`, over the rows in increasing order. */
  method SweepRows(edges: seq<Edge>, ys: seq<int>) returns (r: Option<(int, int, int)>)
    ensures r == Area(edges, ys, |ys|)
  {
    var dug := 0;
    var numInside := 0;
    var lastY := 0;
    var i := 0;
    while i < |ys|
      invariant 0 <= i <= |ys|
      invariant Area(edges, ys, i) == Some((dug, numInside, lastY))
    {
      var y := ys[i];
      var start := dug + numInside * (y - lastY - 1);
      var row := SweepRowLoop(edges, y, start);
      AreaStep(edges, ys, i, dug, numInside, lastY, row);
      if row.None? {
        AreaNone(edges, ys, i + 1);
        return None;
      }
      dug, numInside, lastY := row.value.0, row.value.1, y;
      i := i + 1;
    }
    return Some((dug, numInside, lastY));
  }

  /** One more row of the sweep. */
  lemma AreaStep(edges: seq<Edge>, ys: seq<int>, i: nat, dug: int, numInside: int, lastY: int,
                  row: Option<(int, int)>)
    requires i < |ys| && Area(edges, ys, i) == Some((dug, numInside, lastY))
    requires row == SweepRow(edges, ys[i], dug + numInside * (ys[i] - lastY - 1))
    ensures row.None? ==> Area(edges, ys, i + 1).None?
    ensures row.Some? ==> Area(edges, ys, i + 1) == Some((row.value.0, row.value.1, ys[i]))
  {
  }

  /** A row that fails spoils the whole sweep. */
  lemma {:induction false} AreaNone(edges: seq<Edge>, ys: seq<int>, n: nat)
    requires n <= |ys| && Area(edges, ys, n).None?
    ensures Area(edges, ys, |ys|).None?
    decreases |ys| - n
  {
    if n < |ys| {
      AreaNone(edges, ys, n + 1);
    }
  }

  /* ---------------- a worked square ---------------- */

  /** The vertical edges of the square of side `n` dug right, down, left and
      up from the origin. */
  function SquareEdges(n: int): seq<Edge>
  {
    [((n, 0), (n, n)), ((0, n), (0, 0))]
  }

  /** Its top row: both edges turn down from it, so the row digs its `n + 1`
      cells and leaves as many inside just below it. */
  lemma SquareTopRow(n: int)
    requires n > 0
    ensures SweepRow(SquareEdges(n), 0, 0) == Some((n + 1, n + 1))
  {
    SquareRowEntries(n, 0, EDown);
    var s0 := Sweep(false, None, None, None, 0, 0);
    var s1 := Sweep(true, Some(0), Some(0), Some(0), 0, 0);
    var s2 := Sweep(false, None, None, None, n + 1, n + 1);
    assert Step(s0, 0, EDown) == Some(s1);
    assert Step(s1, n, EDown) == Some(s2);
    FoldPair(s0, [(0, EDown), (n, EDown)], s1, s2);
  }

  /** Its bottom row: both edges come up to it, so the row adds its `n + 1`
      cells. */
  lemma SquareBottomRow(n: int, dug: int)
    requires n > 0
    ensures SweepRow(SquareEdges(n), n, dug) == Some((dug + n + 1, 0))
  {
    SquareRowEntries(n, n, EUp);
    var s0 := Sweep(false, None, None, None, dug, 0);
    var s1 := Sweep(false, None, Some(0), None, dug, 0);
    var s2 := Sweep(false, None, None, None, dug + n + 1, 0);
    assert Step(s0, 0, EUp) == Some(s1);
    assert Step(s1, n, EUp) == Some(s2);
    FoldPair(s0, [(0, EUp), (n, EUp)], s1, s2);
  }

  /** On its top and bottom rows the square's two edges meet the row at
      `x = 0` and `x = n`, both turning down or both coming up. */
  lemma SquareRowEntries(n: int, y: int, t: EdgeType)
    requires n > 0 && ((y == 0 && t == EDown) || (y == n && t == EUp))
    ensures SortedRow(SquareEdges(n), y) == [(0, t), (n, t)]
  {
    var e0, e1 := ((n, 0), (n, n)), ((0, n), (0, 0));
    assert Meets(e0, y) && Meets(e1, y);
    assert Classify(e0, y) == (n, t) && Classify(e1, y) == (0, t);
    RowEdgesPair(e0, e1, y);
    assert RowEdges(SquareEdges(n), y) == [(n, t), (0, t)];
    assert !RowLe((n, t), (0, t));
    SortPair((n, t), (0, t), RowLe);
  }

  /** The row entries of two edges, in their order. */
  lemma RowEdgesPair(e0: Edge, e1: Edge, y: int)
    ensures RowEdges([e0, e1], y) ==
      (if Meets(e0, y) then [Classify(e0, y)] else []) + (if Meets(e1, y) then [Classify(e1, y)] else [])
  {
    assert [e0, e1][..1] == [e0];
    assert [e0][..0] == [];
  }

  /** Insertion sort of two entries swaps them exactly when the first is not
      below the second. */
  lemma SortPair<T>(a: T, b: T, le: (T, T) -> bool)
    ensures Sorting.SortBy([a, b], le) == if le(a, b) then [a, b] else [b, a]
  {
    assert [a, b][..1] == [a];
    assert [a][..0] == [];
    assert Sorting.SortBy([a], le) == [a] by {
      assert Sorting.Insert([], a, le) == [] + [a];
    }
    if !le(a, b) {
      assert Sorting.Insert([a], b, le) == Sorting.Insert([], b, le) + [a];
    }
  }

  /** A sweep over two entries. */
  lemma FoldPair(s: Sweep, es: seq<(int, EdgeType)>, s1: Sweep, s2: Sweep)
    requires |es| == 2 && Step(s, es[0].0, es[0].1) == Some(s1) && Step(s1, es[1].0, es[1].1) == Some(s2)
    ensures Fold(s, es, 2) == Some(s2)
  {
    assert Fold(s, es, 1) == Some(s1);
  }

  /** The sweep of its two rows digs all `(n + 1) * (n + 1)` cells: the top
      row, the `n - 1` rows between carried from it, and the bottom row. */
  lemma SquareArea(n: int)
    requires n > 0
    ensures Area(SquareEdges(n), [0, n], 2) == Some(((n + 1) * (n + 1), 0, n))
  {
    var d0 := n + 1;
    SquareTopRow(n);
    SquareBottomRow(n, d0 + d0 * (n - 0 - 1));
    assert d0 + d0 * (n - 0 - 1) + n + 1 == (n + 1) * (n + 1);
    AreaTwoRows(SquareEdges(n), 0, n, d0, d0, (n + 1) * (n + 1), 0);
  }

  /** The sweep of two rows, the first one at or below row 0. */
  lemma AreaTwoRows(edges: seq<Edge>, y0: int, y1: int, d0: int, n0: int, d1: int, n1: int)
    requires SweepRow(edges, y0, 0) == Some((d0, n0))
    requires SweepRow(edges, y1, d0 + n0 * (y1 - y0 - 1)) == Some((d1, n1))
    ensures Area(edges, [y0, y1], 2) == Some((d1, n1, y1))
  {
    var ys := [y0, y1];
    AreaStep(edges, ys, 0, 0, 0, 0, SweepRow(edges, y0, 0 + 0 * (y0 - 0 - 1)));
    AreaStep(edges, ys, 1, d0, n0, y0, SweepRow(edges, y1, d0 + n0 * (y1 - y0 - 1)));
  }

  /** The square's plan as the second sample writes it: four digs of
      `R 0` whose colours hide 2 right, 2 down, 2 left and 2 up. */
  function SquarePlan(): seq<Dig>
  {
    [Dig(Right, 0, "000020"), Dig(Right, 0, "000021"), Dig(Right, 0, "000022"), Dig(Right, 0, "000023")]
  }

  /** The digs the square's colours decode to. */
  function SquareDigs(): seq<Dig>
  {
    [Dig(Right, 2, []), Dig(Down, 2, []), Dig(Left, 2, []), Dig(Up, 2, [])]
  }

  lemma SquareHex()
    ensures HexValue("00002") == Some(2)
  {
    assert HexValue("0000") == Some(0) by {
      assert HexValue("00") == Some(0) by { assert "00"[..1] == "0"; }
      assert "000"[..2] == "00";
      assert "0000"[..3] == "000";
    }
    assert "00002"[..4] == "0000";
  }

  /** A colour `00002` followed by a direction digit decodes to a dig of 2. */
  lemma SquareColour(c: char, d: Dir)
    requires ColourDir(c) == Some(d)
    ensures Decode("00002" + [c]) == Some((d, 2))
  {
    SquareHex();
    assert ("00002" + [c])[..5] == "00002";
  }

  /** Each colour of the square decodes to its dig. */
  lemma SquareDecoded()
    ensures Decoded(SquarePlan()) == Some(SquareDigs())
  {
    var c0, c1, c2, c3 := Dig(Right, 0, "000020"), Dig(Right, 0, "000021"), Dig(Right, 0, "000022"), Dig(Right, 0, "000023");
    var r, d, l, u := Dig(Right, 2, []), Dig(Down, 2, []), Dig(Left, 2, []), Dig(Up, 2, []);
    SquareColours(c0, c1, c2, c3);
    assert [] + [c0] == [c0] && [c0] + [c1] == [c0, c1] && [c0, c1] + [c2] == [c0, c1, c2];
    assert [c0, c1, c2] + [c3] == SquarePlan();
    assert [] + [r] == [r] && [r] + [d] == [r, d] && [r, d] + [l] == [r, d, l] && [r, d, l] + [u] == SquareDigs();
    DecodedSnoc([], c0, [], Right, 2);
    DecodedSnoc([c0], c1, [r], Down, 2);
    DecodedSnoc([c0, c1], c2, [r, d], Left, 2);
    DecodedSnoc([c0, c1, c2], c3, [r, d, l], Up, 2);
  }

  /** The square's four colours name 2 right, 2 down, 2 left and 2 up. */
  lemma SquareColours(c0: Dig, c1: Dig, c2: Dig, c3: Dig)
    requires c0.colour == "000020" && c1.colour == "000021" && c2.colour == "000022" && c3.colour == "000023"
    ensures Decode(c0.colour) == Some((Right, 2)) && Decode(c1.colour) == Some((Down, 2))
    ensures Decode(c2.colour) == Some((Left, 2)) && Decode(c3.colour) == Some((Up, 2))
  {
    SquareColour('0', Right);
    SquareColour('1', Down);
    SquareColour('2', Left);
    SquareColour('3', Up);
    assert "000020" == "00002" + ['0'] && "000021" == "00002" + ['1'];
    assert "000022" == "00002" + ['2'] && "000023" == "00002" + ['3'];
  }

  /** The square comes back to the origin, has two vertical edges, and its
      digs end on rows 0 and 2. */
  lemma SquareTrace()
    ensures Pos(SquareDigs()) == (0, 0)
    ensures VerticalEdges(SquareDigs()) == SquareEdges(2)
    ensures YValues(SquareDigs()) == [0, 2]
  {
    var r, d, l, u := Dig(Right, 2, []), Dig(Down, 2, []), Dig(Left, 2, []), Dig(Up, 2, []);
    assert [r, d, l] + [u] == SquareDigs();
    SquarePositions(r, d, l, u);
    SquareVertical(r, d, l, u);
    SquareRows(r, d, l, u);
  }

  /** The square's down and up digs are its vertical edges. */
  lemma SquareVertical(r: Dig, d: Dig, l: Dig, u: Dig)
    requires r == Dig(Right, 2, []) && d == Dig(Down, 2, []) && l == Dig(Left, 2, []) && u == Dig(Up, 2, [])
    ensures VerticalEdges([r, d, l, u]) == SquareEdges(2)
  {
    assert [] + [r] == [r] && [r] + [d] == [r, d] && [r, d] + [l] == [r, d, l] && [r, d, l] + [u] == [r, d, l, u];
    SquarePositions(r, d, l, u);
    EdgesSnoc([], r);
    EdgesSnoc([r], d);
    EdgesSnoc([r, d], l);
    EdgesSnoc([r, d, l], u);
  }

  /** The square's digs end on rows 0 and 2. */
  lemma SquareRows(r: Dig, d: Dig, l: Dig, u: Dig)
    requires r == Dig(Right, 2, []) && d == Dig(Down, 2, []) && l == Dig(Left, 2, []) && u == Dig(Up, 2, [])
    ensures YValues([r, d, l, u]) == [0, 2]
  {
    assert [] + [r] == [r] && [r] + [d] == [r, d] && [r, d] + [l] == [r, d, l] && [r, d, l] + [u] == [r, d, l, u];
    SquarePositions(r, d, l, u);
    YValuesSnoc([], r);
    YValuesSnoc([r], d);
    YValuesSnoc([r, d], l);
    YValuesSnoc([r, d, l], u);
    InsertPair(0, 2);
  }

  /** Inserting either of two sorted rows again changes nothing. */
  lemma InsertPair(a: int, b: int)
    requires a < b
    ensures InsertSorted([], a) == [a]
    ensures InsertSorted([a], a) == [a]
    ensures InsertSorted([a], b) == [a, b]
    ensures InsertSorted([a, b], a) == [a, b]
    ensures InsertSorted([a, b], b) == [a, b]
  {
    assert [a, b][1..] == [b];
  }

  /** The corners the square's digs reach. */
  lemma SquarePositions(r: Dig, d: Dig, l: Dig, u: Dig)
    requires r == Dig(Right, 2, []) && d == Dig(Down, 2, []) && l == Dig(Left, 2, []) && u == Dig(Up, 2, [])
    ensures Pos([r]) == (2, 0) && Pos([r, d]) == (2, 2) && Pos([r, d, l]) == (0, 2) && Pos([r, d, l, u]) == (0, 0)
  {
    assert [] + [r] == [r] && [r] + [d] == [r, d] && [r, d] + [l] == [r, d, l] && [r, d, l] + [u] == [r, d, l, u];
    PosSnoc([], r);
    PosSnoc([r], d);
    PosSnoc([r, d], l);
    PosSnoc([r, d, l], u);
  }

  /** `part2` reads the square from the colours and finds its nine cells. */
  lemma SquarePart2()
    ensures Part2Spec(SquarePlan()) == Some(9)
  {
    SquareDecoded();
    SquareTrace();
    SquareArea(2);
  }

  /** One more colour of a plan. */
  lemma DecodedSnoc(init: seq<Dig>, x: Dig, ds: seq<Dig>, d: Dir, dist: nat)
    requires Decoded(init) == Some(ds) && Decode(x.colour) == Some((d, dist))
    ensures Decoded(init + [x]) == Some(ds + [Dig(d, dist, [])])
  {
    assert (init + [x])[..|init|] == init;
  }

  /** One more dig of a decoded plan. */
  lemma TraceSnoc(ds: seq<Dig>, x: Dig)
    ensures Pos(ds + [x]) == (Pos(ds).0 + x.dist * Inc(x.dir).0, Pos(ds).1 + x.dist * Inc(x.dir).1)
    ensures VerticalEdges(ds + [x]) ==
      VerticalEdges(ds) + if Inc(x.dir).0 == 0 then [(Pos(ds), Pos(ds + [x]))] else []
    ensures YValues(ds + [x]) == InsertSorted(YValues(ds), Pos(ds + [x]).1)
  {
    PosSnoc(ds, x);
    EdgesSnoc(ds, x);
    YValuesSnoc(ds, x);
  }

  lemma PosSnoc(ds: seq<Dig>, x: Dig)
    ensures Pos(ds + [x]) == (Pos(ds).0 + x.dist * Inc(x.dir).0, Pos(ds).1 + x.dist * Inc(x.dir).1)
  {
    assert (ds + [x])[..|ds|] == ds;
  }

  lemma EdgesSnoc(ds: seq<Dig>, x: Dig)
    ensures VerticalEdges(ds + [x]) ==
      VerticalEdges(ds) + if Inc(x.dir).0 == 0 then [(Pos(ds), Pos(ds + [x]))] else []
  {
    assert (ds + [x])[..|ds|] == ds;
  }

  lemma YValuesSnoc(ds: seq<Dig>, x: Dig)
    ensures YValues(ds + [x]) == InsertSorted(YValues(ds), Pos(ds + [x]).1)
  {
    assert (ds + [x])[..|ds|] == ds;
  }

  /** All four edges of the square, as `part1` follows them. */
  function SquareOutline(): seq<Edge>
  {
    [((0, 0), (2, 0)), ((2, 0), (2, 2)), ((2, 2), (0, 2)), ((0, 2), (0, 0))]
  }

  /** The square's digs trace its outline inside the box from (0, 0) to
      (2, 2). */
  lemma SquareOutlineTrace()
    ensures Edges(SquareDigs()) == SquareOutline()
    ensures MinX(SquareDigs()) == 0 && MaxX(SquareDigs()) == 2
    ensures MinY(SquareDigs()) == 0 && MaxY(SquareDigs()) == 2
  {
    var ds := SquareDigs();
    assert ds[..1][..0] == [] && ds[..2][..1] == ds[..1];
    assert ds[..3][..2] == ds[..2] && ds[..4][..3] == ds[..3] && ds[..4] == ds;
    assert Pos(ds[..1]) == (2, 0);
    assert Pos(ds[..2]) == (2, 2);
    assert Pos(ds[..3]) == (0, 2);
    assert Pos(ds) == (0, 0);
    assert Edges(ds[..2]) == SquareOutline()[..2];
    assert Edges(ds[..3]) == SquareOutline()[..3];
    assert MinX(ds[..1]) == 2 && MaxX(ds[..1]) == 2 && MinY(ds[..1]) == 0 && MaxY(ds[..1]) == 0;
    assert MinX(ds[..2]) == 2 && MaxX(ds[..2]) == 2 && MinY(ds[..2]) == 0 && MaxY(ds[..2]) == 2;
    assert MinX(ds[..3]) == 0 && MaxX(ds[..3]) == 2 && MinY(ds[..3]) == 0 && MaxY(ds[..3]) == 2;
  }

  /** Every row of the square digs its three cells: the top and bottom rows
      lie on horizontal edges, and in the middle row the left edge turns the
      scan inside until the right edge. */
  lemma SquareRow(y: int)
    requires 0 <= y <= 2
    ensures RowScan(SquareOutline(), y, 0, 3).0 == 3
  {
    var e := SquareOutline();
    assert Touches(e, (0, y), 4) && Touches(e, (2, y), 4);
    assert y != 1 ==> Touches(e, (1, y), 4);
    assert CrossCount(e, (1, y), 4) == 0;
    assert RowScan(e, y, 0, 1).0 == 1;
    assert RowScan(e, y, 0, 2).0 == 2;
  }

  /** `part1` counts nine cells for the square, as `part2` does. */
  lemma SquarePart1()
    ensures Dug(Edges(SquareDigs()), MinX(SquareDigs()), MaxX(SquareDigs()), MinY(SquareDigs()),
                Width(MinY(SquareDigs()), MaxY(SquareDigs()))) == 9
  {
    SquareOutlineTrace();
    SquareRow(0);
    SquareRow(1);
    SquareRow(2);
    var e := SquareOutline();
    assert Dug(e, 0, 2, 0, 1) == 3;
    assert Dug(e, 0, 2, 0, 2) == 6;
  }
}
