// Day 10: a loop of pipes through a field of tiles. Two orthogonal
// neighbours are connected when the pipe shapes on both sides open towards
// each other; `S` is the start and may connect any way. Part 1 walks the loop
// from the start and returns half its length.

module Day10 {
  import opened Lib

  type Field = seq<seq<char>>
  type Pos = (nat, nat)

  /** The tile at column `x` of row `y`; indexing outside the rows panics. */
  function Cell(field: Field, x: nat, y: nat): (r: Option<char>)
    ensures r.Some? <==> y < |field| && x < |field[y]|
  {
    if y < |field| && x < |field[y]| then Some(field[y][x]) else None
  }

  function Min(a: nat, b: nat): nat { if a <= b then a else b }
  function Max(a: nat, b: nat): nat { if a <= b then b else a }

  /** Tiles that open downwards, upwards, rightwards and leftwards. */
  const OpensDown := "|7FS"
  const OpensUp := "|LJS"
  const OpensRight := "-LFS"
  const OpensLeft := "-J7S"

  /** `is_connected`: the upper (left) tile must open down (right) and the
      lower (right) tile up (left); positions that are neither in one column
      nor in one row panic, and so does a tile outside the field. The second
      tile is only read when the first one opens the right way. */
  function IsConnected(field: Field, p1: Pos, p2: Pos): Option<bool>
  {
    if p1.0 == p2.0 then
      match Cell(field, p1.0, Min(p1.1, p2.1))
      case None => None
      case Some(a) =>
        if a !in OpensDown then Some(false)
        else match Cell(field, p1.0, Max(p1.1, p2.1))
          case None => None
          case Some(b) => Some(b in OpensUp)
    else if p1.1 == p2.1 then
      match Cell(field, Min(p1.0, p2.0), p1.1)
      case None => None
      case Some(a) =>
        if a !in OpensRight then Some(false)
        else match Cell(field, Max(p1.0, p2.0), p1.1)
          case None => None
          case Some(b) => Some(b in OpensLeft)
    else None
  }

  /** The check does not depend on the order of the two positions, and for
      in-field vertical and horizontal neighbours it is exactly the shape rule. */
  lemma IsConnectedRules(field: Field, p1: Pos, p2: Pos)
    ensures IsConnected(field, p1, p2) == IsConnected(field, p2, p1)
    ensures IsConnected(field, p1, p2).None? <==>
      (p1.0 != p2.0 && p1.1 != p2.1) || (p1.0 == p2.0 && p1.1 != p2.1 && Cell(field, p1.0, Min(p1.1, p2.1)).None?)
        || (p1.0 == p2.0 && p1.1 == p2.1 && Cell(field, p1.0, p1.1).None?)
        || (p1.0 == p2.0 && Cell(field, p1.0, Min(p1.1, p2.1)).Some? && Cell(field, p1.0, Min(p1.1, p2.1)).value in OpensDown
            && Cell(field, p1.0, Max(p1.1, p2.1)).None?)
        || (p1.0 != p2.0 && p1.1 == p2.1 && Cell(field, Min(p1.0, p2.0), p1.1).None?)
        || (p1.0 != p2.0 && p1.1 == p2.1 && Cell(field, Min(p1.0, p2.0), p1.1).Some?
            && Cell(field, Min(p1.0, p2.0), p1.1).value in OpensRight && Cell(field, Max(p1.0, p2.0), p1.1).None?)
    ensures p1.0 == p2.0 && p1.1 + 1 == p2.1 && p2.1 < |field| && p1.0 < |field[p1.1]| && p1.0 < |field[p2.1]| ==>
      IsConnected(field, p1, p2) == Some(field[p1.1][p1.0] in OpensDown && field[p2.1][p2.0] in OpensUp)
    ensures p1.1 == p2.1 && p1.0 + 1 == p2.0 && p1.1 < |field| && p2.0 < |field[p1.1]| ==>
      IsConnected(field, p1, p2) == Some(field[p1.1][p1.0] in OpensRight && field[p2.1][p2.0] in OpensLeft)
  {
  }

  /* ---------------- adjacency ---------------- */

  /** The orthogonal neighbours `adjacent` considers, in its order: left,
      right, up, down; right needs a column left in this row, down a row
      below. The row itself must exist (reading its length panics otherwise). */
  function Candidates(field: Field, p: Pos): (cs: seq<Pos>)
    requires p.1 < |field|
    ensures |cs| <= 4
  {
    var (x, y) := p;
    (if x > 0 then [(x - 1, y)] else [])
    + (if x + 1 < |field[y]| then [(x + 1, y)] else [])
    + (if y > 0 then [(x, y - 1)] else [])
    + (if y + 1 < |field| then [(x, y + 1)] else [])
  }

  /** The candidates connected to `p`, in order; a panicking check panics. */
  function Keep(field: Field, p: Pos, cs: seq<Pos>): Option<seq<Pos>>
    decreases |cs|
  {
    if cs == [] then Some([])
    else match Keep(field, p, cs[..|cs| - 1])
      case None => None
      case Some(kept) =>
        match IsConnected(field, p, cs[|cs| - 1])
        case None => None
        case Some(b) => Some(if b then kept + [cs[|cs| - 1]] else kept)
  }

  /** What `adjacent` returns. */
  function AdjacentList(field: Field, p: Pos): Option<seq<Pos>>
  {
    if p.1 >= |field| then None else Keep(field, p, Candidates(field, p))
  }

  /** What is kept is the connected candidates, in their order; when nothing
      panics, every connected candidate is kept. */
  lemma {:induction false} KeepSound(field: Field, p: Pos, cs: seq<Pos>)
    requires Keep(field, p, cs).Some?
    ensures |Keep(field, p, cs).value| <= |cs|
    ensures forall q :: q in cs ==> IsConnected(field, p, q).Some?
    ensures forall q :: q in Keep(field, p, cs).value <==> q in cs && IsConnected(field, p, q) == Some(true)
    decreases |cs|
  {
    if cs != [] {
      KeepSound(field, p, cs[..|cs| - 1]);
      assert cs == cs[..|cs| - 1] + [cs[|cs| - 1]];
    }
  }

  /** Orthogonal neighbours. */
  predicate Neighbours(p: Pos, q: Pos)
  {
    (q.1 == p.1 && (q.0 + 1 == p.0 || p.0 + 1 == q.0)) || (q.0 == p.0 && (q.1 + 1 == p.1 || p.1 + 1 == q.1))
  }

  /** `adjacent` returns at most four positions, each an orthogonal
      neighbour connected to `p`, and misses no in-field orthogonal neighbour
      that is connected to `p`. */
  lemma AdjacentSound(field: Field, p: Pos)
    requires AdjacentList(field, p).Some?
    ensures |AdjacentList(field, p).value| <= 4
    ensures forall q :: q in AdjacentList(field, p).value ==> Neighbours(p, q) && IsConnected(field, p, q) == Some(true)
    ensures forall q: Pos ::
      (Neighbours(p, q) && q.1 < |field| && q.0 < |field[q.1]| && IsConnected(field, p, q) == Some(true))
      ==> q in AdjacentList(field, p).value
  {
    KeepSound(field, p, Candidates(field, p));
    CandidatesAreNeighbours(field, p);
  }

  /** The candidates are orthogonal neighbours, and include every in-field one. */
  lemma CandidatesAreNeighbours(field: Field, p: Pos)
    requires p.1 < |field|
    ensures forall q :: q in Candidates(field, p) ==> Neighbours(p, q)
    ensures forall q: Pos :: Neighbours(p, q) && q.1 < |field| && q.0 < |field[q.1]| ==> q in Candidates(field, p)
  {
  }

  /** One of `adjacent`'s four checks, on what the earlier ones kept:
      `next` is the neighbour in one direction when it lies in the field, else
      nothing; it is kept when it is connected to `p`, and a panic earlier or
      here is a panic. */
  function Check(field: Field, p: Pos, cur: Option<seq<Pos>>, next: seq<Pos>): Option<seq<Pos>>
    requires |next| <= 1
  {
    if next == [] || cur.None? then cur
    else match IsConnected(field, p, next[0])
      case None => None
      case Some(b) => Some(if b then cur.value + next else cur.value)
  }

  /** Filtering one more candidate is one more check. */
  lemma KeepSnoc(field: Field, p: Pos, cs: seq<Pos>, next: seq<Pos>)
    requires |next| <= 1
    ensures Keep(field, p, cs + next) == Check(field, p, Keep(field, p, cs), next)
  {
    if next == [] {
      assert cs + next == cs;
    } else {
      assert next == [next[0]];
      assert (cs + next)[..|cs|] == cs && (cs + next)[|cs|] == next[0];
    }
  }

  /** The four checks filter the candidates. */
  lemma KeepCandidatesSteps(field: Field, p: Pos, left: seq<Pos>, right: seq<Pos>, up: seq<Pos>, down: seq<Pos>)
    requires p.1 < |field|
    requires left == (if p.0 > 0 then [(p.0 - 1, p.1)] else [])
    requires right == (if p.0 + 1 < |field[p.1]| then [(p.0 + 1, p.1)] else [])
    requires up == (if p.1 > 0 then [(p.0, p.1 - 1)] else [])
    requires down == (if p.1 + 1 < |field| then [(p.0, p.1 + 1)] else [])
    ensures Keep(field, p, Candidates(field, p))
      == Check(field, p, Check(field, p, Check(field, p, Check(field, p, Some([]), left), right), up), down)
  {
    var upTo2 := left + right;
    var upTo3 := upTo2 + up;
    assert upTo3 + down == Candidates(field, p);
    KeepSnoc(field, p, [], left);
    assert [] + left == left;
    KeepSnoc(field, p, left, right);
    KeepSnoc(field, p, upTo2, up);
    KeepSnoc(field, p, upTo3, down);
  }

  /** One check of `adjacent`. */
  method Consider(field: Field, p: Pos, next: seq<Pos>, cur: Option<seq<Pos>>) returns (r: Option<seq<Pos>>)
    requires |next| <= 1
    ensures r == Check(field, p, cur, next)
  {
    if next == [] || cur.None? {
      return cur;
    }
    var c := IsConnected(field, p, next[0]);
    if c.None? {
      return None;
    }
    r := Some(if c.value then cur.value + next else cur.value);
  }

  /** `adjacent`: push each in-field neighbour, left, right, up and down, that
      is connected to `p`. */
  method Adjacent(field: Field, p: Pos) returns (r: Option<seq<Pos>>)
    ensures r == AdjacentList(field, p)
  {
    var (x, y) := p;
    if y >= |field| {
      if x > 0 {
        assert IsConnected(field, p, (x - 1, y)).None?;
      }
      return None;
    }
    var left: seq<Pos> := if x > 0 then [(x - 1, y)] else [];
    var right: seq<Pos> := if x + 1 < |field[y]| then [(x + 1, y)] else [];
    var up: seq<Pos> := if y > 0 then [(x, y - 1)] else [];
    var down: seq<Pos> := if y + 1 < |field| then [(x, y + 1)] else [];
    KeepCandidatesSteps(field, p, left, right, up, down);
    r := Consider(field, p, left, Some([]));
    r := Consider(field, p, right, r);
    r := Consider(field, p, up, r);
    r := Consider(field, p, down, r);
  }

  /** Filtering an already filtered list by the same check keeps all of it. */
  lemma {:induction false} KeepKept(field: Field, p: Pos, cs: seq<Pos>)
    requires forall q :: q in cs ==> IsConnected(field, p, q) == Some(true)
    ensures Keep(field, p, cs) == Some(cs)
    decreases |cs|
  {
    if cs != [] {
      KeepKept(field, p, cs[..|cs| - 1]);
      assert cs == cs[..|cs| - 1] + [cs[|cs| - 1]];
    }
  }

  /** `connected` re-filters `adjacent`'s list by the same check, so it
      returns the same list. */
  function ConnectedList(field: Field, p: Pos): (r: Option<seq<Pos>>)
    ensures r == AdjacentList(field, p)
  {
    match AdjacentList(field, p)
    case None => None
    case Some(adj) =>
      KeepSound(field, p, Candidates(field, p));
      KeepKept(field, p, adj);
      Keep(field, p, adj)
  }

  /* ---------------- the start ---------------- */

  predicate StartAt(field: Field, x: nat, y: nat) { y < |field| && x < |field[y]| && field[y][x] == 'S' }

  /** `(x', y')` comes before `(x, y)` in row-major order. */
  predicate Before(x1: nat, y1: nat, x: nat, y: nat) { y1 < y || (y1 == y && x1 < x) }

  /** The start search in `parse_input`: the first `S` in row-major order; a
      field without one panics. */
  method FindStart(field: Field) returns (r: Option<Pos>)
    ensures r.Some? ==> StartAt(field, r.value.0, r.value.1)
    ensures r.Some? ==> forall x: nat, y: nat :: Before(x, y, r.value.0, r.value.1) ==> !StartAt(field, x, y)
    ensures r.None? ==> forall x: nat, y: nat :: !StartAt(field, x, y)
  {
    var y := 0;
    while y < |field|
      invariant 0 <= y <= |field|
      invariant forall x1: nat, y1: nat :: y1 < y ==> !StartAt(field, x1, y1)
    {
      var x := 0;
      while x < |field[y]|
        invariant 0 <= x <= |field[y]|
        invariant forall x1: nat, y1: nat :: Before(x1, y1, x, y) ==> !StartAt(field, x1, y1)
      {
        if field[y][x] == 'S' {
          return Some((x, y));
        }
        x := x + 1;
      }
      y := y + 1;
    }
    r := None;
  }

  /* ---------------- part 1 ---------------- */

  datatype Outcome<T> = Done(value: T) | Panic | OutOfFuel

  /** One move along the loop: the cell must have exactly two connections
      (asserted), and the walk takes the one it did not come from (on the
      first move, when `last` is the cell itself, the first one). */
  function Step(field: Field, last: Pos, pos: Pos): Option<Pos>
  {
    match ConnectedList(field, pos)
    case None => None
    case Some(cs) => if |cs| != 2 then None else Some(if cs[0] == last then cs[1] else cs[0])
  }

  /** The cells visited after `visited`, until the walk is back at `start`. */
  function Walk(field: Field, start: Pos, last: Pos, pos: Pos, visited: seq<Pos>, fuel: nat): Outcome<seq<Pos>>
    decreases fuel
  {
    if fuel == 0 then OutOfFuel
    else match Step(field, last, pos)
      case None => Panic
      case Some(next) =>
        if next == start then Done(visited + [next])
        else Walk(field, start, pos, next, visited + [next], fuel - 1)
  }

  /** A walk from `p` through `qs`: each cell it leaves has exactly two
      connections, and each move goes to one of them. */
  predicate Chain(field: Field, p: Pos, qs: seq<Pos>)
    decreases |qs|
  {
    qs == [] ||
    (ConnectedList(field, p).Some? && |ConnectedList(field, p).value| == 2
     && IsConnected(field, p, qs[0]) == Some(true) && Chain(field, qs[0], qs[1..]))
  }

  lemma {:induction false} StepConnected(field: Field, last: Pos, pos: Pos)
    requires Step(field, last, pos).Some?
    ensures ConnectedList(field, pos).Some? && |ConnectedList(field, pos).value| == 2
    ensures IsConnected(field, pos, Step(field, last, pos).value) == Some(true)
  {
    var cs := ConnectedList(field, pos).value;
    KeepSound(field, pos, Candidates(field, pos));
    assert Step(field, last, pos).value in cs;
  }

  /** `path` extends `visited` by a chain of connected moves from `pos` that
      ends at `start` and does not pass `start` before. */
  ghost predicate LoopFrom(field: Field, start: Pos, pos: Pos, visited: seq<Pos>, path: seq<Pos>) {
    |path| > |visited| && path[..|visited|] == visited && path[|path| - 1] == start
    && (forall i :: |visited| <= i < |path| - 1 ==> path[i] != start)
    && Chain(field, pos, path[|visited|..])
  }

  /** A finished walk is a closed loop. */
  lemma {:induction false} WalkIsLoop(field: Field, start: Pos, last: Pos, pos: Pos, visited: seq<Pos>, fuel: nat)
    requires Walk(field, start, last, pos, visited, fuel).Done?
    ensures LoopFrom(field, start, pos, visited, Walk(field, start, last, pos, visited, fuel).value)
    decreases fuel
  {
    var next := Step(field, last, pos).value;
    StepConnected(field, last, pos);
    var path := Walk(field, start, last, pos, visited, fuel).value;
    if next == start {
      assert path == visited + [next];
      assert path[|visited|..] == [next];
      assert Chain(field, next, []);
    } else {
      WalkIsLoop(field, start, pos, next, visited + [next], fuel - 1);
      LoopStep(field, start, pos, next, visited, path);
    }
  }

  /** One connected move from `pos` to `next` in front of a loop from `next`. */
  lemma LoopStep(field: Field, start: Pos, pos: Pos, next: Pos, visited: seq<Pos>, path: seq<Pos>)
    requires ConnectedList(field, pos).Some? && |ConnectedList(field, pos).value| == 2
    requires IsConnected(field, pos, next) == Some(true) && next != start
    requires LoopFrom(field, start, next, visited + [next], path)
    ensures LoopFrom(field, start, pos, visited, path)
  {
    var v2 := visited + [next];
    assert path[..|visited|] == path[..|v2|][..|visited|];
    assert path[|visited|..][1..] == path[|v2|..];
    assert path[|visited|] == path[..|v2|][|visited|];
  }

  /** `part1`: walk the loop from the start back to the start, counting
      moves, and return half the count. */
  method Part1(field: Field, start: Pos, fuel: nat) returns (r: Outcome<nat>)
    ensures r.Done? <==> Walk(field, start, start, start, [], fuel).Done?
    ensures r.Done? ==> r.value == |Walk(field, start, start, start, [], fuel).value| / 2
    ensures r.Panic? <==> Walk(field, start, start, start, [], fuel).Panic?
  {
    var lastPos := start;
    var pos := start;
    var count := 0;
    ghost var visited: seq<Pos> := [];
    var left := fuel;
    while true
      invariant count == |visited|
      invariant Walk(field, start, lastPos, pos, visited, left) == Walk(field, start, start, start, [], fuel)
      decreases left
    {
      if left == 0 {
        return OutOfFuel;
      }
      var connections := ConnectedList(field, pos);
      if connections.None? || |connections.value| != 2 {
        return Panic;
      }
      var cs := connections.value;
      var newPos := if cs[0] == lastPos then cs[1] else cs[0];
      lastPos := pos;
      pos := newPos;
      count := count + 1;
      visited := visited + [newPos];
      left := left - 1;
      if pos == start {
        return Done(count / 2);
      }
    }
  }
}
