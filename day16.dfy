// Day 16: a beam of light enters a grid of mirrors and splitters at the top
// left corner heading right. `part1` follows every beam with a worklist and a
// set of visited (position, direction) states, and counts the positions that
// some beam passes through.

module Day16 {
  import opened Lib

  datatype Sq = Empty | HorizSplit | VertSplit | Slash | BSlash

  datatype Dir = Up | Down | Left | Right

  /** `From<char> for Sq`; any other character panics. */
  function ParseSq(c: char): (r: Option<Sq>)
    ensures r.Some? <==> c in ".-|/\\"
  {
    match c
    case '.' => Some(Empty)
    case '-' => Some(HorizSplit)
    case '|' => Some(VertSplit)
    case '/' => Some(Slash)
    case '\\' => Some(BSlash)
    case _ => None
  }

  /** One line of the grid; `None` when some character is not a cell. */
  function ParseRow(line: string): (r: Option<seq<Sq>>)
    ensures r.Some? <==> forall k :: 0 <= k < |line| ==> ParseSq(line[k]).Some?
    ensures r.Some? ==> |r.value| == |line| && forall k :: 0 <= k < |line| ==> ParseSq(line[k]) == Some(r.value[k])
    decreases |line|
  {
    if line == [] then Some([])
    else
      var front := line[..|line| - 1];
      assert forall k :: 0 <= k < |front| ==> front[k] == line[k];
      match (ParseRow(front), ParseSq(line[|line| - 1]))
      case (Some(init), Some(s)) => Some(init + [s])
      case _ => None
  }

  /** `parse_input`: one row per line. */
  function ParseInput(text: string): (r: Option<seq<seq<Sq>>>)
    ensures r.Some? <==> forall y :: 0 <= y < |Lines(text)| ==> ParseRow(Lines(text)[y]).Some?
    ensures r.Some? ==> |r.value| == |Lines(text)|
    ensures r.Some? ==> forall y :: 0 <= y < |r.value| ==> ParseRow(Lines(text)[y]) == Some(r.value[y])
  {
    ParseLines(text, ParseRow)
  }

  /* ---------------- moving ---------------- */

  function Opposite(d: Dir): Dir
  {
    match d
    case Up => Down
    case Down => Up
    case Left => Right
    case Right => Left
  }

  /** `next_pos`: one step in direction `d`, or `None` where the step would
      leave the `width` by `height` grid. */
  function NextPos(x: nat, y: nat, width: nat, height: nat, d: Dir): (r: Option<(nat, nat)>)
    ensures r.None? <==> (d == Up && y == 0) || (d == Down && y + 1 >= height) ||
                         (d == Left && x == 0) || (d == Right && x + 1 >= width)
    ensures r.Some? && d == Up ==> r.value == (x, y - 1)
    ensures r.Some? && d == Down ==> r.value == (x, y + 1) && y + 1 < height
    ensures r.Some? && d == Left ==> r.value == (x - 1, y)
    ensures r.Some? && d == Right ==> r.value == (x + 1, y) && x + 1 < width
  {
    match d
    case Up => if y > 0 then Some((x, y - 1)) else None
    case Down => if y + 1 < height then Some((x, y + 1)) else None
    case Left => if x > 0 then Some((x - 1, y)) else None
    case Right => if x + 1 < width then Some((x + 1, y)) else None
  }

  /** A step never leaves the grid, and stepping back returns to where the
      beam came from: the grid does not wrap. */
  lemma NextPosInverse(x: nat, y: nat, width: nat, height: nat, d: Dir)
    requires x < width && y < height
    ensures NextPos(x, y, width, height, d).Some? ==>
      var (x', y') := NextPos(x, y, width, height, d).value;
      x' < width && y' < height && NextPos(x', y', width, height, Opposite(d)) == Some((x, y))
  {
  }

  /** The directions a beam leaves a cell in. */
  function Turn(d: Dir, sq: Sq): (ds: seq<Dir>)
    ensures 1 <= |ds| <= 2
  {
    match (d, sq)
    case (_, Empty) => [d]
    case (Right, HorizSplit) => [d]
    case (Left, HorizSplit) => [d]
    case (Up, VertSplit) => [d]
    case (Down, VertSplit) => [d]
    case (Right, VertSplit) => [Up, Down]
    case (Left, VertSplit) => [Up, Down]
    case (Down, HorizSplit) => [Left, Right]
    case (Up, HorizSplit) => [Left, Right]
    case (Right, Slash) => [Up]
    case (Left, Slash) => [Down]
    case (Up, Slash) => [Right]
    case (Down, Slash) => [Left]
    case (Right, BSlash) => [Down]
    case (Left, BSlash) => [Up]
    case (Up, BSlash) => [Left]
    case (Down, BSlash) => [Right]
  }

  predicate Horizontal(d: Dir) { d == Left || d == Right }

  /** A splitter hit end-on passes the beam; hit on its flat side it sends two
      beams out at right angles, one each way. */
  lemma SplitterTurns(d: Dir, sq: Sq)
    requires sq == HorizSplit || sq == VertSplit
    ensures Horizontal(d) == (sq == HorizSplit) ==> Turn(d, sq) == [d]
    ensures Horizontal(d) != (sq == HorizSplit) ==>
      |Turn(d, sq)| == 2 && Turn(d, sq)[1] == Opposite(Turn(d, sq)[0]) &&
      Horizontal(Turn(d, sq)[0]) != Horizontal(d)
  {
  }

  /** Empty cells and mirrors deflect a single beam, and light runs both ways
      through them: sending a beam back out the way it left brings it back
      out the way it came in. A mirror always turns the beam by a right angle. */
  lemma MirrorReversible(d: Dir, sq: Sq)
    requires sq == Empty || sq == Slash || sq == BSlash
    ensures |Turn(d, sq)| == 1
    ensures Turn(Opposite(Turn(d, sq)[0]), sq) == [Opposite(d)]
    ensures sq != Empty ==> Horizontal(Turn(d, sq)[0]) != Horizontal(d)
  {
  }

  /* ---------------- beam states ---------------- */

  /** A beam: the cell it is in and the direction it is heading. */
  datatype Beam = Beam(x: nat, y: nat, dir: Dir)

  const Start := Beam(0, 0, Right)

  function Width(data: seq<seq<Sq>>): nat
  {
    if data == [] then 0 else |data[0]|
  }

  /** The beam stands on a cell the grid does not have: `data[y][x]` panics. */
  predicate Bad(data: seq<seq<Sq>>, b: Beam)
  {
    b.y >= |data| || b.x >= |data[b.y]|
  }

  /** The beams that leave in the directions `ds` from `(x, y)`, dropping
      those that would leave the grid. */
  function Spread(x: nat, y: nat, width: nat, height: nat, ds: seq<Dir>): (r: seq<Beam>)
    ensures forall n :: n in r <==>
      (exists k :: 0 <= k < |ds| && n.dir == ds[k] && NextPos(x, y, width, height, ds[k]) == Some((n.x, n.y)))
    decreases |ds|
  {
    if ds == [] then []
    else
      var rest := Spread(x, y, width, height, ds[1..]);
      assert forall k :: 1 <= k < |ds| ==> ds[k] == ds[1..][k - 1];
      match NextPos(x, y, width, height, ds[0])
      case None => rest
      case Some((x', y')) => [Beam(x', y', ds[0])] + rest
  }

  /** The beams that follow `b` one step later; none from a bad state, where
      the source panics. */
  function Next(data: seq<seq<Sq>>, b: Beam): seq<Beam>
  {
    if Bad(data, b) then []
    else Spread(b.x, b.y, Width(data), |data|, Turn(b.dir, data[b.y][b.x]))
  }

  /** Holds the start and every beam that follows a beam it holds. */
  ghost predicate Closed(data: seq<seq<Sq>>, c: set<Beam>)
  {
    Start in c && forall b, n :: b in c && n in Next(data, b) ==> n in c
  }

  /** Every beam of `s` is in every closed set: the light does reach it. */
  ghost predicate Forced(data: seq<seq<Sq>>, s: set<Beam>)
  {
    forall c :: Closed(data, c) ==> s <= c
  }

  /** The beams the light reaches: the least closed set. */
  ghost predicate Energized(data: seq<seq<Sq>>, s: set<Beam>)
  {
    Closed(data, s) && Forced(data, s)
  }

  /** The source panics: there is no first row, or the light reaches a cell
      the grid does not have. */
  ghost predicate Panics(data: seq<seq<Sq>>)
  {
    data == [] || exists b :: Bad(data, b) && Forced(data, {b})
  }

  /** `n` leaves `(b.x, b.y)` in one of the directions `ds`. */
  predicate Reached(b: Beam, width: nat, height: nat, ds: seq<Dir>, n: Beam)
  {
    n.dir in ds && NextPos(b.x, b.y, width, height, n.dir) == Some((n.x, n.y))
  }

  /** Every state of a `width` by `height` grid. */
  ghost function AllStates(width: nat, height: nat): set<Beam>
  {
    set x: nat, y: nat, d: Dir | x < width && y < height && d in {Up, Down, Left, Right} :: Beam(x, y, d)
  }

  lemma InAllStates(b: Beam, width: nat, height: nat)
    requires b.x < width && b.y < height
    ensures b in AllStates(width, height)
  {
    var d := b.dir;
    assert d in {Up, Down, Left, Right} by {
      match d {
        case Up =>
        case Down =>
        case Left =>
        case Right =>
      }
    }
    assert b == Beam(b.x, b.y, d);
  }

  /** A least closed set is the only one: the light reaches a fixed set of
      beams, whatever order the worklist takes them in. */
  lemma EnergizedUnique(data: seq<seq<Sq>>, s: set<Beam>, t: set<Beam>)
    requires Energized(data, s) && Energized(data, t)
    ensures s == t
  {
    assert Closed(data, t) && Closed(data, s);
  }

  /** The inner loop of `part1` for one beam `b`: queue each beam that
      follows `b` and was not visited yet. */
  method Follow(data: seq<seq<Sq>>, b: Beam, visited0: set<Beam>)
      returns (visited: set<Beam>, added: seq<Beam>)
    requires data != [] && !Bad(data, b)
    ensures visited0 <= visited
    ensures forall n :: n in Next(data, b) ==> n in visited
    ensures forall n :: n in visited && n !in visited0 ==> n in Next(data, b)
    ensures forall n :: n in added <==> n in visited && n !in visited0
  {
    var height := |data|;
    var width := |data[0]|;
    var dirs := Turn(b.dir, data[b.y][b.x]);
    visited := visited0;
    added := [];
    var j := 0;
    while j < |dirs|
      invariant 0 <= j <= |dirs|
      invariant visited0 <= visited
      invariant forall n :: n in Next(data, b) && Reached(b, width, height, dirs[..j], n) ==> n in visited
      invariant forall n :: n in visited && n !in visited0 ==> n in Next(data, b)
      invariant forall n :: n in added <==> n in visited && n !in visited0
    {
      var d := dirs[j];
      var pos := NextPos(b.x, b.y, width, height, d);
      if pos.Some? {
        var n := Beam(pos.value.0, pos.value.1, d);
        assert n in Next(data, b);
        if n !in visited {
          visited := visited + {n};
          added := added + [n];
        }
      }
      assert forall n :: Reached(b, width, height, dirs[..j + 1], n) ==>
        Reached(b, width, height, dirs[..j], n) || n.dir == d;
      j := j + 1;
    }
    forall n | n in Next(data, b)
      ensures n in visited
    {
      var k :| 0 <= k < |dirs| && n.dir == dirs[k] && NextPos(b.x, b.y, width, height, dirs[k]) == Some((n.x, n.y));
      assert dirs[..j] == dirs;
      assert Reached(b, width, height, dirs[..j], n);
    }
  }

  /** One round of the worklist: every beam of `beams` is processed and the
      beams it leads to that were not visited yet are queued. `None` where a
      beam stands on a missing cell. */
  method Round(data: seq<seq<Sq>>, beams: seq<Beam>, visited0: set<Beam>)
      returns (r: Option<(seq<Beam>, set<Beam>)>)
    requires data != []
    ensures r.None? ==> exists b :: b in beams && Bad(data, b)
    ensures r.Some? ==> visited0 <= r.value.1
    ensures r.Some? ==> forall n :: n in r.value.0 <==> n in r.value.1 && n !in visited0
    ensures r.Some? ==> forall n :: n in r.value.1 && n !in visited0 ==> exists b :: b in beams && n in Next(data, b)
    ensures r.Some? ==> forall b, n :: b in beams && n in Next(data, b) ==> n in r.value.1
    ensures r.Some? ==> forall b :: b in beams ==> !Bad(data, b)
  {
    var visited := visited0;
    var newBeams := [];
    var i := 0;
    while i < |beams|
      invariant 0 <= i <= |beams|
      invariant visited0 <= visited
      invariant forall n :: n in newBeams <==> n in visited && n !in visited0
      invariant forall n :: n in visited && n !in visited0 ==> exists b :: b in beams && n in Next(data, b)
      invariant forall k, n :: 0 <= k < i && n in Next(data, beams[k]) ==> n in visited
      invariant forall k :: 0 <= k < i ==> !Bad(data, beams[k])
    {
      var b := beams[i];
      if b.y >= |data| || b.x >= |data[b.y]| {
        assert b in beams && Bad(data, b);
        return None;
      }
      var visited', added := Follow(data, b, visited);
      RoundStep(data, beams, i, visited0, visited, visited', newBeams, added);
      visited, newBeams := visited', newBeams + added;
      i := i + 1;
    }
    forall b, n | b in beams && n in Next(data, b)
      ensures n in visited
    {
      var k :| 0 <= k < |beams| && beams[k] == b;
    }
    forall b | b in beams
      ensures !Bad(data, b)
    {
      var k :| 0 <= k < |beams| && beams[k] == b;
    }
    return Some((newBeams, visited));
  }

  /** The invariant of `Round` survives processing `beams[i]`. */
  lemma RoundStep(data: seq<seq<Sq>>, beams: seq<Beam>, i: nat, visited0: set<Beam>,
                  visited: set<Beam>, visited': set<Beam>, newBeams: seq<Beam>, added: seq<Beam>)
    requires i < |beams|
    requires visited0 <= visited <= visited'
    requires forall n :: n in newBeams <==> n in visited && n !in visited0
    requires forall n :: n in visited && n !in visited0 ==> exists b :: b in beams && n in Next(data, b)
    requires forall k, n :: 0 <= k < i && n in Next(data, beams[k]) ==> n in visited
    requires forall n :: n in Next(data, beams[i]) ==> n in visited'
    requires forall n :: n in visited' && n !in visited ==> n in Next(data, beams[i])
    requires forall n :: n in added <==> n in visited' && n !in visited
    ensures forall n :: n in newBeams + added <==> n in visited' && n !in visited0
    ensures forall n :: n in visited' && n !in visited0 ==> exists b :: b in beams && n in Next(data, b)
    ensures forall k, n :: 0 <= k < i + 1 && n in Next(data, beams[k]) ==> n in visited'
  {
    forall n | n in visited' && n !in visited0
      ensures exists b :: b in beams && n in Next(data, b)
    {
      if n !in visited {
        assert beams[i] in beams;
      }
    }
  }

  /** The invariant of the beam search: the worklist is visited, the visited
      states lie on the grid, include the start and are all forced, and every
      visited state off the worklist was safe to read and has had its
      successors visited. */
  ghost predicate Frontier(data: seq<seq<Sq>>, beams: seq<Beam>, visited: set<Beam>)
  {
    && (forall b :: b in beams ==> b in visited)
    && visited <= AllStates(Width(data), |data|)
    && (forall b :: b in visited ==> b.x < Width(data) && b.y < |data|)
    && Start in visited
    && Forced(data, visited)
    && (forall b, n :: b in visited && b !in beams && n in Next(data, b) ==> n in visited)
    && (forall b :: b in visited && b !in beams ==> !Bad(data, b))
  }

  /** A round that does not panic keeps the invariant of the search. */
  lemma RoundKeeps(data: seq<seq<Sq>>, beams: seq<Beam>, visited: set<Beam>, visited': set<Beam>, newBeams: seq<Beam>)
    requires data != [] && Frontier(data, beams, visited)
    requires visited <= visited'
    requires forall n :: n in newBeams <==> n in visited' && n !in visited
    requires forall n :: n in visited' && n !in visited ==> exists b :: b in beams && n in Next(data, b)
    requires forall b, n :: b in beams && n in Next(data, b) ==> n in visited'
    requires forall b :: b in beams ==> !Bad(data, b)
    ensures Frontier(data, newBeams, visited')
  {
    NewBeamsInGrid(data, beams, visited, visited', newBeams);
    ForcedGrows(data, beams, visited, visited');
  }

  /** The beam search of `part1`: the set of visited states once the worklist
      runs dry, or `None` where the source panics. */
  method EnergizedBeams(data: seq<seq<Sq>>) returns (r: Option<set<Beam>>)
    ensures r.None? <==> Panics(data)
    ensures r.Some? ==> Energized(data, r.value)
    ensures r.Some? ==> forall b :: b in r.value ==> b.x < Width(data) && b.y < |data|
  {
    if data == [] {
      return None;
    }
    var height := |data|;
    var width := |data[0]|;
    if width == 0 {
      assert Bad(data, Start);
      assert Forced(data, {Start});
      return None;
    }
    var visited := {Start};
    var beams := [Start];
    InAllStates(Start, width, height);
    while beams != []
      invariant Frontier(data, beams, visited)
      decreases AllStates(width, height) - visited, |beams|
    {
      var round := Round(data, beams, visited);
      if round.None? {
        ghost var b :| b in beams && Bad(data, b);
        assert Forced(data, {b});
        return None;
      }
      var (newBeams, visited') := round.value;
      RoundKeeps(data, beams, visited, visited', newBeams);
      if newBeams != [] {
        assert newBeams[0] in visited' - visited;
      }
      visited := visited';
      beams := newBeams;
    }
    assert Closed(data, visited);
    NoPanic(data, visited);
    return Some(visited);
  }

  /** The beams a round queues lie on the grid. */
  lemma NewBeamsInGrid(data: seq<seq<Sq>>, beams: seq<Beam>, visited: set<Beam>, visited': set<Beam>, newBeams: seq<Beam>)
    requires data != []
    requires forall b :: b in beams ==> b.x < Width(data) && b.y < |data|
    requires forall n :: n in newBeams <==> n in visited' && n !in visited
    requires forall n :: n in visited' && n !in visited ==> exists b :: b in beams && n in Next(data, b)
    ensures forall n :: n in newBeams ==> n.x < Width(data) && n.y < |data|
    ensures forall n :: n in newBeams ==> n in AllStates(Width(data), |data|)
  {
    forall n | n in newBeams
      ensures n.x < Width(data) && n.y < |data|
    {
      var b :| b in beams && n in Next(data, b);
    }
    forall n | n in newBeams
      ensures n in AllStates(Width(data), |data|)
    {
      InAllStates(n, Width(data), |data|);
    }
  }

  /** Beams that follow forced beams are forced too. */
  lemma ForcedGrows(data: seq<seq<Sq>>, beams: seq<Beam>, visited: set<Beam>, visited': set<Beam>)
    requires Forced(data, visited)
    requires forall b :: b in beams ==> b in visited
    requires forall n :: n in visited' && n !in visited ==> exists b :: b in beams && n in Next(data, b)
    ensures Forced(data, visited')
  {
    forall c | Closed(data, c)
      ensures visited' <= c
    {
      forall n | n in visited'
        ensures n in c
      {
        if n !in visited {
          var b :| b in beams && n in Next(data, b);
        }
      }
    }
  }

  /** A closed set without bad states rules out a panic. */
  lemma NoPanic(data: seq<seq<Sq>>, s: set<Beam>)
    requires data != [] && Energized(data, s)
    ensures !Panics(data) <==> forall b :: b in s ==> !Bad(data, b)
  {
    if exists b :: b in s && Bad(data, b) {
      var b :| b in s && Bad(data, b);
      assert Forced(data, {b});
    }
    if Panics(data) {
      var b :| Bad(data, b) && Forced(data, {b});
      assert {b} <= s;
    }
  }

  /* ---------------- counting ---------------- */

  /** The positions some beam passes through. */
  function Positions(s: set<Beam>): set<(nat, nat)>
  {
    set b | b in s :: (b.x, b.y)
  }

  /** The cells of a `width` by `height` grid, row by row. */
  function Cells(width: nat, height: nat): set<(nat, nat)>
    decreases height
  {
    if height == 0 then {} else Cells(width, height - 1) + RowCells(width, height - 1)
  }

  /** The cells of row `y`. */
  function RowCells(width: nat, y: nat): set<(nat, nat)>
    decreases width
  {
    if width == 0 then {} else RowCells(width - 1, y) + {(width - 1, y)}
  }

  lemma {:induction false} InRowCells(x: nat, y: nat, width: nat)
    requires x < width
    ensures (x, y) in RowCells(width, y)
    decreases width
  {
    if x < width - 1 {
      InRowCells(x, y, width - 1);
    }
  }

  lemma {:induction false} InCells(x: nat, y: nat, width: nat, height: nat)
    requires x < width && y < height
    ensures (x, y) in Cells(width, height)
    decreases height
  {
    if y < height - 1 {
      InCells(x, y, width, height - 1);
    } else {
      InRowCells(x, y, width);
    }
  }

  /** Row `y` holds exactly `width` cells and none of the rows above. */
  lemma {:induction false} RowCellsCount(width: nat, y: nat)
    ensures |RowCells(width, y)| == width
    decreases width
  {
    if width > 0 {
      RowCellsCount(width - 1, y);
      RowCellsMembers(width - 1, y);
    }
  }

  lemma {:induction false} RowCellsMembers(width: nat, y: nat)
    ensures forall p :: p in RowCells(width, y) ==> p.1 == y && p.0 < width
    decreases width
  {
    if width > 0 {
      RowCellsMembers(width - 1, y);
    }
  }

  lemma {:induction false} CellsBelow(width: nat, height: nat)
    ensures forall p :: p in Cells(width, height) ==> p.1 < height
    decreases height
  {
    if height > 0 {
      CellsBelow(width, height - 1);
      RowCellsMembers(width, height - 1);
    }
  }

  lemma {:induction false} CellsCount(width: nat, height: nat)
    ensures |Cells(width, height)| == width * height
    decreases height
  {
    if height > 0 {
      var above, row := Cells(width, height - 1), RowCells(width, height - 1);
      CellsCount(width, height - 1);
      RowCellsCount(width, height - 1);
      RowBelowDisjoint(width, height - 1);
      DisjointCard(above, row);
      MulStep(width, height);
    }
  }

  /** Row `y` shares no cell with the rows above it. */
  lemma RowBelowDisjoint(width: nat, y: nat)
    ensures Cells(width, y) !! RowCells(width, y)
  {
    CellsBelow(width, y);
    RowCellsMembers(width, y);
    forall p | p in Cells(width, y)
      ensures p !in RowCells(width, y)
    {
    }
  }

  lemma MulStep(a: nat, b: nat)
    requires b > 0
    ensures a * (b - 1) + a == a * b
  {
  }

  lemma DisjointCard<T>(a: set<T>, b: set<T>)
    requires a !! b
    ensures |a + b| == |a| + |b|
  {
  }

  /** The count is at most the number of cells. */
  lemma PositionsBound(s: set<Beam>, width: nat, height: nat)
    requires forall b :: b in s ==> b.x < width && b.y < height
    ensures |Positions(s)| <= width * height
  {
    forall p | p in Positions(s)
      ensures p in Cells(width, height)
    {
      var b :| b in s && p == (b.x, b.y);
      InCells(b.x, b.y, width, height);
    }
    CellsCount(width, height);
    SubsetCard(Positions(s), Cells(width, height));
  }

  lemma {:induction false} SubsetCard<T>(a: set<T>, b: set<T>)
    requires a <= b
    ensures |a| <= |b|
    decreases |a|
  {
    if a != {} {
      var e :| e in a;
      SubsetCard(a - {e}, b - {e});
      assert |b - {e}| == |b| - 1;
    }
  }

  /** `part1`: the number of energized positions, at most one per cell.
      `None` where the source panics. */
  method Part1(data: seq<seq<Sq>>) returns (r: Option<nat>)
    ensures r.None? <==> Panics(data)
    ensures r.Some? ==> exists s :: Energized(data, s) && r.value == |Positions(s)|
    ensures r.Some? ==> r.value <= Width(data) * |data|
  {
    var e := EnergizedBeams(data);
    if e.None? {
      return None;
    }
    PositionsBound(e.value, Width(data), |data|);
    return Some(|Positions(e.value)|);
  }
}
