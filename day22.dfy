// Day 22: bricks of sand fall until they rest on the ground or on other
// bricks. Part 1 counts the bricks that could be taken away without any
// other brick falling; part 2 sums, over every brick, how many others would
// fall if it were taken away.

module Day22 {
  import opened Lib
  import Sorting

  type Point = (nat, nat, nat)

  /** A brick, from one end cube to the other. */
  datatype Brick = Brick(pos0: Point, pos1: Point)

  function Min(a: nat, b: nat): nat { if a <= b then a else b }
  function Max(a: nat, b: nat): nat { if a >= b then a else b }

  /** The z of the brick's lowest end. */
  function MinZ(b: Brick): nat
  {
    Min(b.pos0.2, b.pos1.2)
  }

  /** `Brick::poses`: every unit cube of the brick, along the first axis
      whose ends differ (x, then y, then z), the other two coordinates taken
      from `pos0`. */
  function Poses(b: Brick): (r: seq<Point>)
    ensures |r| >= 1
    ensures forall k :: 0 <= k < |r| ==> r[k].2 >= MinZ(b)
    ensures b.pos0.0 != b.pos1.0 ==>
      (var mn := Min(b.pos0.0, b.pos1.0);
       |r| == Max(b.pos0.0, b.pos1.0) - mn + 1 &&
       forall k :: 0 <= k < |r| ==> r[k] == (mn + k, b.pos0.1, b.pos0.2))
    ensures b.pos0.0 == b.pos1.0 && b.pos0.1 != b.pos1.1 ==>
      (var mn := Min(b.pos0.1, b.pos1.1);
       |r| == Max(b.pos0.1, b.pos1.1) - mn + 1 &&
       forall k :: 0 <= k < |r| ==> r[k] == (b.pos0.0, mn + k, b.pos0.2))
    ensures b.pos0.0 == b.pos1.0 && b.pos0.1 == b.pos1.1 ==>
      (var mn := Min(b.pos0.2, b.pos1.2);
       |r| == Max(b.pos0.2, b.pos1.2) - mn + 1 &&
       forall k :: 0 <= k < |r| ==> r[k] == (b.pos0.0, b.pos0.1, mn + k))
  {
    if b.pos0.0 != b.pos1.0 then
      var mn := Min(b.pos0.0, b.pos1.0);
      seq(Max(b.pos0.0, b.pos1.0) - mn + 1, k => (mn + k, b.pos0.1, b.pos0.2))
    else if b.pos0.1 != b.pos1.1 then
      var mn := Min(b.pos0.1, b.pos1.1);
      seq(Max(b.pos0.1, b.pos1.1) - mn + 1, k => (b.pos0.0, mn + k, b.pos0.2))
    else
      var mn := Min(b.pos0.2, b.pos1.2);
      seq(Max(b.pos0.2, b.pos1.2) - mn + 1, k => (b.pos0.0, b.pos0.1, mn + k))
  }

  /** A brick of one cube is just that cube. */
  lemma OneCube(b: Brick)
    requires b.pos0 == b.pos1
    ensures Poses(b) == [b.pos0]
  {
  }

  /** Which brick fills each settled cube. */
  type Space = map<Point, nat>

  /** A cube moved down by `d`. */
  function Lower(p: Point, d: nat): Point
    requires d <= p.2
  {
    (p.0, p.1, p.2 - d)
  }

  /** `can_drop`: every cube of the brick, lowered by `d`, is free. */
  predicate CanDrop(b: Brick, space: Space, d: nat)
    requires d <= MinZ(b)
  {
    forall k :: 0 <= k < |Poses(b)| ==> Lower(Poses(b)[k], d) !in space
  }

  method CanDropAt(b: Brick, space: Space, d: nat) returns (r: bool)
    requires d <= MinZ(b)
    ensures r == CanDrop(b, space, d)
  {
    var ps := Poses(b);
    var k := 0;
    while k < |ps|
      invariant 0 <= k <= |ps|
      invariant forall m :: 0 <= m < k ==> Lower(ps[m], d) !in space
    {
      if Lower(ps[k], d) in space {
        return false;
      }
      k := k + 1;
    }
    return true;
  }

  /** The drop loop from `d` on: keep going while the bottom stays above
      z = 0 and the cubes fit, then step back one. */
  function DropFrom(b: Brick, space: Space, d: nat): (r: nat)
    requires 1 <= d && (d == 1 || d <= MinZ(b))
    ensures r == 0 || r < MinZ(b)
    decreases MinZ(b) - d
  {
    if MinZ(b) > d && CanDrop(b, space, d) then DropFrom(b, space, d + 1) else d - 1
  }

  /** How far a brick falls onto `space`. */
  function Drop(b: Brick, space: Space): (r: nat)
    ensures r == 0 || r < MinZ(b)
  {
    DropFrom(b, space, 1)
  }

  lemma {:induction false} DropFromMeaning(b: Brick, space: Space, d: nat)
    requires 1 <= d && (d == 1 || d <= MinZ(b))
    requires forall e :: 1 <= e < d ==> CanDrop(b, space, e)
    ensures forall e :: 1 <= e <= DropFrom(b, space, d) ==> CanDrop(b, space, e)
    ensures DropFrom(b, space, d) + 1 >= MinZ(b) || !CanDrop(b, space, DropFrom(b, space, d) + 1)
    decreases MinZ(b) - d
  {
    if MinZ(b) > d && CanDrop(b, space, d) {
      DropFromMeaning(b, space, d + 1);
    }
  }

  /** A brick drops by the largest amount that keeps its bottom at z >= 1
      and every lowered cube free: all smaller drops fit, and one more would
      reach the ground or hit a cube. */
  lemma DropMeaning(b: Brick, space: Space)
    ensures MinZ(b) >= 1 ==> Drop(b, space) < MinZ(b)
    ensures MinZ(b) == 0 ==> Drop(b, space) == 0
    ensures forall e :: 1 <= e <= Drop(b, space) ==> CanDrop(b, space, e)
    ensures Drop(b, space) + 1 >= MinZ(b) || !CanDrop(b, space, Drop(b, space) + 1)
  {
    DropFromMeaning(b, space, 1);
  }

  /** The drop loop of `do_part1` and `do_part2`. */
  method DropAmount(b: Brick, space: Space) returns (dropBy: nat)
    ensures dropBy == Drop(b, space)
  {
    var brickZ := MinZ(b);
    dropBy := 1;
    while true
      invariant 1 <= dropBy && (dropBy == 1 || dropBy <= brickZ)
      invariant DropFrom(b, space, dropBy) == Drop(b, space)
      decreases brickZ - dropBy
    {
      if brickZ <= dropBy {
        break;
      }
      var free := CanDropAt(b, space, dropBy);
      if !free {
        break;
      }
      dropBy := dropBy + 1;
    }
    dropBy := dropBy - 1;
  }

  /** Putting the cubes `ps`, lowered by `drop`, into `space` as brick `i`,
      one at a time, collecting after each the other brick in the cell just
      beneath it. `None` where that cell would be below z = 0 (the source's
      `usize` subtraction panics). */
  function Place(space: Space, ps: seq<Point>, drop: nat, i: nat): Option<(Space, set<nat>)>
    requires forall k :: 0 <= k < |ps| ==> ps[k].2 >= drop
    decreases |ps|
  {
    if ps == [] then Some((space, {}))
    else
      match Place(space, ps[..|ps| - 1], drop, i)
      case None => None
      case Some((sp, rest)) =>
        var p := ps[|ps| - 1];
        if p.2 == drop then None
        else
          var sp' := sp[Lower(p, drop) := i];
          var below := Lower(p, drop + 1);
          Some((sp', if below in sp' && sp'[below] != i then rest + {sp'[below]} else rest))
  }

  /** The cells the cubes `ps` take when lowered by `drop`. */
  function Cells(ps: seq<Point>, drop: nat): set<Point>
    requires forall k :: 0 <= k < |ps| ==> ps[k].2 >= drop
  {
    set k | 0 <= k < |ps| :: Lower(ps[k], drop)
  }

  /** Placing adds exactly the lowered cells, as brick `i`, and keeps the
      rest of the space; the bricks it rests on were in the space before. */
  lemma {:induction false} PlaceSpace(space: Space, ps: seq<Point>, drop: nat, i: nat)
    requires forall k :: 0 <= k < |ps| ==> ps[k].2 >= drop
    requires Place(space, ps, drop, i).Some?
    ensures Place(space, ps, drop, i).value.0.Keys == space.Keys + Cells(ps, drop)
    ensures forall c :: c in Place(space, ps, drop, i).value.0 ==>
      Place(space, ps, drop, i).value.0[c] == if c in Cells(ps, drop) then i else space[c]
    decreases |ps|
  {
    if ps != [] {
      var init := ps[..|ps| - 1];
      PlaceSpace(space, init, drop, i);
      assert Cells(ps, drop) == Cells(init, drop) + {Lower(ps[|ps| - 1], drop)} by {
        forall c | c in Cells(ps, drop) ensures c in Cells(init, drop) + {Lower(ps[|ps| - 1], drop)} {
          var k :| 0 <= k < |ps| && c == Lower(ps[k], drop);
          if k < |ps| - 1 {
            assert c == Lower(init[k], drop);
          }
        }
        forall c | c in Cells(init, drop) ensures c in Cells(ps, drop) {
          var k :| 0 <= k < |init| && c == Lower(init[k], drop);
          assert c == Lower(ps[k], drop);
        }
      }
    }
  }

  /** The placing loop never reports a brick beneath that was placed in
      the same loop: the bricks beneath are exactly the other bricks in a
      cell right under a cube, that cell not being one of the cubes placed
      so far. */
  lemma {:induction false} PlaceResting(space: Space, ps: seq<Point>, drop: nat, i: nat, j: nat)
    requires forall k :: 0 <= k < |ps| ==> ps[k].2 > drop
    requires Place(space, ps, drop, i).Some?
    ensures j in Place(space, ps, drop, i).value.1 <==>
      j != i && exists k :: 0 <= k < |ps| && Beneath(space, ps, drop, k, j)
    decreases |ps|
  {
    if ps != [] {
      var n := |ps| - 1;
      var init := ps[..n];
      PlaceResting(space, init, drop, i, j);
      PlaceSpace(space, ps, drop, i);
      assert ps[..n + 1] == ps;
      var (sp, rest) := Place(space, init, drop, i).value;
      var below := Lower(ps[n], drop + 1);
      var sp' := sp[Lower(ps[n], drop) := i];
      assert sp' == Place(space, ps, drop, i).value.0;
      assert (below in sp' && sp'[below] == j && j != i) <==> (j != i && Beneath(space, ps, drop, n, j));
      forall k | 0 <= k < n
        ensures Beneath(space, init, drop, k, j) == Beneath(space, ps, drop, k, j)
      {
        assert ps[..k + 1] == init[..k + 1];
      }
    }
  }

  /** Cube `k`'s lower neighbour holds brick `j` in `space` and is not one
      of the cubes `ps[..k + 1]` placed by then. */
  ghost predicate Beneath(space: Space, ps: seq<Point>, drop: nat, k: nat, j: nat)
    requires k < |ps| && forall m :: 0 <= m < |ps| ==> ps[m].2 > drop
  {
    var below := Lower(ps[k], drop + 1);
    below !in Cells(ps[..k + 1], drop) && below in space && space[below] == j
  }

  /** For a brick's own cubes, the cell under cube `k` is one of the brick's
      cubes only if it is one placed before it: a cube's neighbour below is
      the previous cube of an upright brick, or no cube at all. */
  lemma BelowOwnCube(b: Brick, drop: nat, k: nat)
    requires k < |Poses(b)| && drop < MinZ(b)
    ensures Lower(Poses(b)[k], drop + 1) in Cells(Poses(b), drop) ==>
      Lower(Poses(b)[k], drop + 1) in Cells(Poses(b)[..k + 1], drop)
  {
    var ps := Poses(b);
    var below := Lower(ps[k], drop + 1);
    if below in Cells(ps, drop) {
      var m :| 0 <= m < |ps| && below == Lower(ps[m], drop);
      assert ps[m].2 + 1 == ps[k].2;
      assert m + 1 == k;
      assert below == Lower(ps[..k + 1][m], drop);
    }
  }

  /** Cube `k`'s lower neighbour holds brick `j` in `space` and is not a
      cell of the brick itself. */
  ghost predicate UnderOther(space: Space, b: Brick, drop: nat, k: nat, j: nat)
    requires k < |Poses(b)| && drop < MinZ(b)
  {
    var below := Lower(Poses(b)[k], drop + 1);
    below !in Cells(Poses(b), drop) && below in space && space[below] == j
  }

  lemma UnderOtherBeneath(space: Space, b: Brick, drop: nat, k: nat, j: nat)
    requires k < |Poses(b)| && drop < MinZ(b)
    ensures Beneath(space, Poses(b), drop, k, j) <==> UnderOther(space, b, drop, k, j)
  {
    var ps := Poses(b);
    BelowOwnCube(b, drop, k);
    var below := Lower(ps[k], drop + 1);
    if below in Cells(ps[..k + 1], drop) {
      var m :| 0 <= m < k + 1 && below == Lower(ps[..k + 1][m], drop);
      assert below == Lower(ps[m], drop);
    }
  }

  /** `resting_on` holds exactly the other bricks that fill a cell directly
      beneath one of the brick's cubes, that cell not being one of its own. */
  lemma RestingOn(space: Space, b: Brick, i: nat, j: nat)
    requires MinZ(b) >= 1
    ensures Place(space, Poses(b), Drop(b, space), i).Some?
    ensures j in Place(space, Poses(b), Drop(b, space), i).value.1 <==>
      j != i && exists k :: 0 <= k < |Poses(b)| && UnderOther(space, b, Drop(b, space), k, j)
  {
    var drop := Drop(b, space);
    DropMeaning(b, space);
    var ps := Poses(b);
    PlaceSome(space, ps, drop, i);
    PlaceResting(space, ps, drop, i, j);
    forall k | 0 <= k < |ps|
      ensures Beneath(space, ps, drop, k, j) <==> UnderOther(space, b, drop, k, j)
    {
      UnderOtherBeneath(space, b, drop, k, j);
    }
  }

  /** Placing fails only when a cube would sit at z = 0. */
  lemma {:induction false} PlaceSome(space: Space, ps: seq<Point>, drop: nat, i: nat)
    requires forall k :: 0 <= k < |ps| ==> ps[k].2 > drop
    ensures Place(space, ps, drop, i).Some?
    decreases |ps|
  {
    if ps != [] {
      PlaceSome(space, ps[..|ps| - 1], drop, i);
    }
  }

  /** The placing loop of `do_part1` and `do_part2`. */
  method PlaceBrick(space0: Space, b: Brick, drop: nat, i: nat) returns (r: Option<(Space, set<nat>)>)
    requires drop == 0 || drop < MinZ(b)
    ensures r == Place(space0, Poses(b), drop, i)
  {
    var ps := Poses(b);
    var space := space0;
    var restingOn: set<nat> := {};
    var k := 0;
    while k < |ps|
      invariant 0 <= k <= |ps|
      invariant Place(space0, ps[..k], drop, i) == Some((space, restingOn))
    {
      assert ps[..k + 1][..k] == ps[..k];
      var pos := ps[k];
      space := space[Lower(pos, drop) := i];
      if pos.2 == drop {
        PlaceStops(space0, ps, drop, i, k + 1);
        return None;
      }
      var below := Lower(pos, drop + 1);
      if below in space && space[below] != i {
        restingOn := restingOn + {space[below]};
      }
      k := k + 1;
    }
    assert ps[..k] == ps;
    return Some((space, restingOn));
  }

  lemma {:induction false} PlaceStops(space: Space, ps: seq<Point>, drop: nat, i: nat, n: nat)
    requires forall k :: 0 <= k < |ps| ==> ps[k].2 >= drop
    requires n <= |ps| && Place(space, ps[..n], drop, i).None?
    ensures Place(space, ps, drop, i).None?
    decreases |ps| - n
  {
    if n < |ps| {
      assert ps[..n + 1][..n] == ps[..n];
      PlaceStops(space, ps, drop, i, n + 1);
    } else {
      assert ps[..n] == ps;
    }
  }

  /** One brick of the loops of `do_part1` and `do_part2`: drop it, then
      place it. */
  method SettleBrick(space: Space, brick: Brick, i: nat) returns (r: Option<(Space, set<nat>)>)
    ensures r == Place(space, Poses(brick), Drop(brick, space), i)
  {
    var dropBy := DropAmount(brick, space);
    r := PlaceBrick(space, brick, dropBy, i);
  }

  /* ---------------- settling every brick ---------------- */

  /** Settling bricks in the given order: the space they fill and, for
      each, the bricks it rests on. */
  function Settle(bricks: seq<Brick>): Option<(Space, seq<set<nat>>)>
    decreases |bricks|
  {
    if bricks == [] then Some((map[], []))
    else
      match Settle(bricks[..|bricks| - 1])
      case None => None
      case Some((space, supports)) => SettleOne(space, supports, bricks[|bricks| - 1], |bricks| - 1)
  }

  /** Brick `i` drops onto `space` and takes its place. */
  function SettleOne(space: Space, supports: seq<set<nat>>, b: Brick, i: nat): Option<(Space, seq<set<nat>>)>
  {
    match Place(space, Poses(b), Drop(b, space), i)
    case None => None
    case Some((space', rest)) => Some((space', supports + [rest]))
  }

  lemma SettleNext(bricks: seq<Brick>, n: nat)
    requires n < |bricks|
    ensures Settle(bricks[..n + 1]) ==
      match Settle(bricks[..n])
      case None => None
      case Some((space, supports)) => SettleOne(space, supports, bricks[n], n)
  {
    assert bricks[..n + 1][..n] == bricks[..n];
  }

  /** Settling fails only when a brick lies at z = 0. */
  lemma {:induction false} SettleSome(bricks: seq<Brick>)
    requires forall k :: 0 <= k < |bricks| ==> MinZ(bricks[k]) >= 1
    ensures Settle(bricks).Some?
    decreases |bricks|
  {
    if bricks != [] {
      SettleSome(bricks[..|bricks| - 1]);
      var b := bricks[|bricks| - 1];
      var space := Settle(bricks[..|bricks| - 1]).value.0;
      DropMeaning(b, space);
        PlaceSome(space, Poses(b), Drop(b, space), |bricks| - 1);
    }
  }

  /** Every brick rests only on bricks settled before it, and the space
      names only settled bricks. */
  lemma {:induction false} SettleBelow(bricks: seq<Brick>)
    requires Settle(bricks).Some?
    ensures |Settle(bricks).value.1| == |bricks|
    ensures forall c :: c in Settle(bricks).value.0 ==> Settle(bricks).value.0[c] < |bricks|
    ensures forall k, j :: 0 <= k < |bricks| && j in Settle(bricks).value.1[k] ==> j < k
    decreases |bricks|
  {
    if bricks != [] {
      var n := |bricks| - 1;
      SettleBelow(bricks[..n]);
      var b := bricks[n];
      var (space, supports) := Settle(bricks[..n]).value;
        var drop := Drop(b, space);
      PlaceSpace(space, Poses(b), drop, n);
      var (space', rest) := Place(space, Poses(b), drop, n).value;
      forall j | j in rest ensures j < n {
        RestIsOld(space, Poses(b), drop, n, j);
      }
    }
  }

  /** A brick beneath is one already in the space. */
  lemma {:induction false} RestIsOld(space: Space, ps: seq<Point>, drop: nat, i: nat, j: nat)
    requires forall k :: 0 <= k < |ps| ==> ps[k].2 >= drop
    requires Place(space, ps, drop, i).Some? && j in Place(space, ps, drop, i).value.1
    ensures exists c :: c in space && space[c] == j
    decreases |ps|
  {
    var init := ps[..|ps| - 1];
    var (sp, rest) := Place(space, init, drop, i).value;
    if j in rest {
      RestIsOld(space, init, drop, i, j);
    } else {
      PlaceSpace(space, init, drop, i);
      var below := Lower(ps[|ps| - 1], drop + 1);
      assert below in space && space[below] == j;
    }
  }

  /* ---------------- part 1 ---------------- */

  function ByLowest(a: Brick, b: Brick): bool
  {
    MinZ(a) <= MinZ(b)
  }

  /** The bricks that are the only support of some brick. */
  function Unsafe(supports: seq<set<nat>>): set<nat>
    decreases |supports|
  {
    if supports == [] then {}
    else
      var last := supports[|supports| - 1];
      Unsafe(supports[..|supports| - 1]) + if |last| == 1 then last else {}
  }

  lemma {:induction false} UnsafeMeaning(supports: seq<set<nat>>, j: nat)
    ensures j in Unsafe(supports) <==> exists k :: 0 <= k < |supports| && supports[k] == {j}
    decreases |supports|
  {
    if supports != [] {
      var n := |supports| - 1;
      var init := supports[..n];
      UnsafeMeaning(init, j);
      Singleton(supports[n], j);
      if exists k :: 0 <= k < n && supports[k] == {j} {
        var k :| 0 <= k < n && supports[k] == {j};
        assert init[k] == {j};
      }
      if exists k :: 0 <= k < n && init[k] == {j} {
        var k :| 0 <= k < n && init[k] == {j};
        assert supports[k] == {j};
      }
    }
  }

  lemma Singleton(a: set<nat>, j: nat)
    ensures (|a| == 1 && j in a) <==> a == {j}
  {
    if |a| == 1 && j in a {
      assert |a - {j}| == 0;
    }
  }

  function Part1Spec(bricks: seq<Brick>): Option<int>
  {
    match Settle(Sorting.SortBy(bricks, ByLowest))
    case None => None
    case Some((_, supports)) => Some(|bricks| - |Unsafe(supports)|)
  }

  /** `do_part1`: the number of bricks, less those that are some brick's
      only support. */
  method Part1(bricks: seq<Brick>) returns (r: Option<int>)
    ensures r == Part1Spec(bricks)
  {
    var sorted := Sorting.SortBy(bricks, ByLowest);
    SortedLength(bricks);
    var unsafeBricks := UnsafeBricks(sorted);
    if unsafeBricks.None? {
      return None;
    }
    return Some(|bricks| - |unsafeBricks.value|);
  }

  /** The settling loop of `do_part1`, collecting the bricks that are some
      brick's only support. */
  method UnsafeBricks(sorted: seq<Brick>) returns (r: Option<set<nat>>)
    ensures r.None? <==> Settle(sorted).None?
    ensures r.Some? ==> r.value == Unsafe(Settle(sorted).value.1)
  {
    var unsafeBricks: set<nat> := {};
    var space: Space := map[];
    ghost var supports: seq<set<nat>> := [];
    var i := 0;
    while i < |sorted|
      invariant 0 <= i <= |sorted|
      invariant Settle(sorted[..i]) == Some((space, supports))
      invariant unsafeBricks == Unsafe(supports)
    {
      SettleNext(sorted, i);
      var placed := SettleBrick(space, sorted[i], i);
      if placed.None? {
        SettleStops(sorted, i + 1);
        return None;
      }
      var restingOn := placed.value.1;
      space := placed.value.0;
      if |restingOn| == 1 {
        unsafeBricks := unsafeBricks + restingOn;
      }
      ghost var prev := supports;
      supports := supports + [restingOn];
      assert supports[..|supports| - 1] == prev;
      i := i + 1;
    }
    assert sorted[..i] == sorted;
    return Some(unsafeBricks);
  }

  lemma {:induction false} SettleStops(bricks: seq<Brick>, n: nat)
    requires n <= |bricks| && Settle(bricks[..n]).None?
    ensures Settle(bricks).None?
    decreases |bricks| - n
  {
    if n < |bricks| {
      assert bricks[..n + 1][..n] == bricks[..n];
      SettleStops(bricks, n + 1);
    } else {
      assert bricks[..n] == bricks;
    }
  }

  lemma SortedLength(bricks: seq<Brick>)
    ensures |Sorting.SortBy(bricks, ByLowest)| == |bricks|
  {
    Sorting.SortBySortsAndPermutes(bricks, ByLowest);
  }

  /** Bricks settle in ascending order of their lowest z. */
  lemma SortedBricks(bricks: seq<Brick>)
    ensures multiset(Sorting.SortBy(bricks, ByLowest)) == multiset(bricks)
    ensures forall k, m :: 0 <= k < m < |Sorting.SortBy(bricks, ByLowest)| ==>
      MinZ(Sorting.SortBy(bricks, ByLowest)[k]) <= MinZ(Sorting.SortBy(bricks, ByLowest)[m])
  {
    Sorting.SortBySortsAndPermutes(bricks, ByLowest);
  }

  /** Part 1 has an answer whenever every brick lies above z = 0. */
  lemma Part1Some(bricks: seq<Brick>)
    requires forall k :: 0 <= k < |bricks| ==> MinZ(bricks[k]) >= 1
    ensures Part1Spec(bricks).Some?
  {
    var sorted := Sorting.SortBy(bricks, ByLowest);
    SortedBricks(bricks);
    forall k | 0 <= k < |sorted| ensures MinZ(sorted[k]) >= 1 {
      assert sorted[k] in multiset(bricks);
    }
    SettleSome(sorted);
  }

  /** The answer of part 1 is the number of bricks less those that are
      some brick's only support, so it lies between 0 and the number of
      bricks. */
  lemma Part1Counts(bricks: seq<Brick>)
    requires Part1Spec(bricks).Some?
    ensures var supports := Settle(Sorting.SortBy(bricks, ByLowest)).value.1;
      |supports| == |bricks| && 0 <= Part1Spec(bricks).value <= |bricks| &&
      Part1Spec(bricks).value == |bricks| - |Unsafe(supports)| &&
      forall j: nat :: j in Unsafe(supports) <==> exists k :: 0 <= k < |bricks| && supports[k] == {j}
  {
    var sorted := Sorting.SortBy(bricks, ByLowest);
    SortedLength(bricks);
    SettleBelow(sorted);
    var supports := Settle(sorted).value.1;
    forall j: nat ensures j in Unsafe(supports) <==> exists k :: 0 <= k < |bricks| && supports[k] == {j} {
      UnsafeMeaning(supports, j);
    }
    UnsafeCard(supports);
  }

  /** Each brick adds at most one brick to the unsafe set. */
  lemma {:induction false} UnsafeCard(supports: seq<set<nat>>)
    ensures |Unsafe(supports)| <= |supports|
    decreases |supports|
  {
    if supports != [] {
      UnsafeCard(supports[..|supports| - 1]);
    }
  }

  /* ---------------- part 2 ---------------- */

  /** For each brick, the bricks it rests on. */
  type Under = map<nat, set<nat>>

  function UnderOf(supports: seq<set<nat>>): Under
  {
    map k | 0 <= k < |supports| :: supports[k]
  }

  /** `s` is closed under falling once `i` is gone: a brick that rests on
      something, and only on `i` or on bricks of `s`, is in `s`. */
  ghost predicate Closed(under: Under, i: nat, s: set<nat>)
  {
    forall k :: k in under && under[k] != {} && under[k] <= s + {i} ==> k in s
  }

  /** `fell` is what falls when `i` is taken away: each of its bricks rests
      on something and only on `i` or on fallen bricks, it is closed, and it
      lies within every closed set. */
  ghost predicate Falls(under: Under, i: nat, fell: set<nat>)
  {
    Closed(under, i, fell) &&
    (forall k :: k in fell ==> k in under && under[k] != {} && under[k] <= fell + {i}) &&
    (forall s :: Closed(under, i, s) ==> fell <= s)
  }

  /** What falls is determined by `under` and `i`. */
  lemma FallsUnique(under: Under, i: nat, a: set<nat>, b: set<nat>)
    requires Falls(under, i, a) && Falls(under, i, b)
    ensures a == b
  {
    assert a <= b && b <= a;
  }

  /** When every brick rests only on bricks settled before it, only bricks
      settled after `i` fall; bricks on the ground never do. */
  lemma FallsAbove(under: Under, i: nat, fell: set<nat>)
    requires Falls(under, i, fell)
    requires forall k, j :: k in under && j in under[k] ==> j < k
    ensures forall k :: k in fell ==> k > i && under[k] != {}
  {
    var above := set k | k in fell && k > i;
    forall k | k in under && under[k] != {} && under[k] <= above + {i}
      ensures k in above
    {
      var j :| j in under[k];
      assert j >= i && j < k;
    }
    assert Closed(under, i, above);
  }

  function Elems(s: seq<nat>): set<nat>
  {
    set x | x in s
  }

  predicate Distinct(s: seq<nat>)
  {
    forall a, b :: 0 <= a < b < |s| ==> s[a] != s[b]
  }

  lemma {:induction false} DistinctCard(s: seq<nat>)
    requires Distinct(s)
    ensures |Elems(s)| == |s|
    decreases |s|
  {
    if s != [] {
      var init := s[..|s| - 1];
      DistinctCard(init);
      assert Elems(s) == Elems(init) + {s[|s| - 1]};
      assert s[|s| - 1] !in Elems(init);
    }
  }

  /** The bricks resting on something. */
  ghost function NonEmpty(m: Under): set<nat>
  {
    set k | k in m && m[k] != {}
  }

  /** One pass of the `for_each` in `chain_len`: `blockno` is taken out of
      every brick's supports, and the bricks whose supports have just run
      out fall, each once. */
  method RemoveBlock(cur: Under, blockno: nat) returns (next: Under, fallen: seq<nat>)
    ensures next.Keys == cur.Keys
    ensures forall k :: k in next ==> next[k] == cur[k] - {blockno}
    ensures forall k :: k in fallen <==> k in cur && cur[k] == {blockno}
    ensures Distinct(fallen)
  {
    next := cur;
    fallen := [];
    var keys := cur.Keys;
    while keys != {}
      invariant keys <= cur.Keys && next.Keys == cur.Keys
      invariant forall k :: k in next ==> next[k] == if k in keys then cur[k] else cur[k] - {blockno}
      invariant forall k :: k in fallen <==> k in cur && k !in keys && cur[k] == {blockno}
      invariant Distinct(fallen)
      decreases keys
    {
      var k :| k in keys;
      var v := next[k];
      if blockno in v {
        v := v - {blockno};
        next := next[k := v];
        if v == {} {
          fallen := fallen + [k];
        }
      }
      keys := keys - {k};
    }
  }

  /** `chain_len`: how many bricks fall when brick `i` is taken away. */
  method ChainLen(under: Under, i: nat) returns (result: nat, ghost fell: set<nat>)
    ensures Falls(under, i, fell) && result == |fell|
  {
    result := 0;
    var cur := under;
    var toRemove := [i];
    fell := {};
    ghost var done: set<nat> := {};
    while toRemove != []
      invariant ChainInv(under, i, cur, done, toRemove, fell)
      invariant result == |fell|
      decreases NonEmpty(cur), |toRemove|
    {
      var blockno := toRemove[|toRemove| - 1];
      var rest := toRemove[..|toRemove| - 1];
      var next, fallen := RemoveBlock(cur, blockno);
      ChainStep(under, i, cur, done, fell, toRemove, next, fallen);
      toRemove := rest + fallen;
      result := result + |fallen|;
      fell := fell + Elems(fallen);
      done := done + {blockno};
      cur := next;
    }
  }

  /** The invariant of `chain_len`: the supports left are the original ones
      less the bricks removed so far, the bricks removed or waiting are `i`
      and the fallen ones, a brick has fallen exactly when it rested on
      something and has nothing left, and every closed set holds the fallen
      bricks. */
  ghost predicate ChainInv(under: Under, i: nat, cur: Under, done: set<nat>, toRemove: seq<nat>, fell: set<nat>)
  {
    Remaining(under, cur, done) && done + Elems(toRemove) == fell + {i} &&
    Fallen(under, cur, fell) && Least(under, i, fell)
  }

  ghost predicate Remaining(under: Under, cur: Under, done: set<nat>)
  {
    cur.Keys == under.Keys && forall k :: k in cur ==> cur[k] == under[k] - done
  }

  ghost predicate Fallen(under: Under, cur: Under, fell: set<nat>)
  {
    forall k :: k in fell <==> k in under && under[k] != {} && k in cur && cur[k] == {}
  }

  ghost predicate Least(under: Under, i: nat, fell: set<nat>)
  {
    forall s :: Closed(under, i, s) ==> fell <= s
  }

  /** One round of `chain_len` keeps its invariant, counts each fallen
      brick once, and either some brick falls or the queue gets shorter. */
  lemma ChainStep(under: Under, i: nat, cur: Under, done: set<nat>, fell: set<nat>,
                  toRemove: seq<nat>, next: Under, fallen: seq<nat>)
    requires toRemove != [] && ChainInv(under, i, cur, done, toRemove, fell)
    requires next.Keys == cur.Keys
    requires forall k :: k in next ==> next[k] == cur[k] - {toRemove[|toRemove| - 1]}
    requires forall k :: k in fallen <==> k in cur && cur[k] == {toRemove[|toRemove| - 1]}
    requires Distinct(fallen)
    ensures ChainInv(under, i, next, done + {toRemove[|toRemove| - 1]},
                     toRemove[..|toRemove| - 1] + fallen, fell + Elems(fallen))
    ensures |fell + Elems(fallen)| == |fell| + |fallen|
    ensures NonEmpty(next) <= NonEmpty(cur)
    ensures fallen == [] ==> NonEmpty(next) == NonEmpty(cur)
    ensures fallen != [] ==> NonEmpty(next) != NonEmpty(cur)
  {
    var blockno := toRemove[|toRemove| - 1];
    var rest := toRemove[..|toRemove| - 1];
    ChainQueue(i, done, fell, toRemove, fallen);
    ChainFallen(under, i, cur, done, fell, blockno, fallen);
    ChainLeast(under, i, fell, fallen);
    ChainFell(under, cur, fell, blockno, next, fallen);
    ChainRemaining(under, cur, done, blockno, next);
    ChainCount(fell, fallen);
    ChainShrinks(cur, blockno, next, fallen);
  }

  lemma ChainQueue(i: nat, done: set<nat>, fell: set<nat>, toRemove: seq<nat>, fallen: seq<nat>)
    requires toRemove != [] && done + Elems(toRemove) == fell + {i}
    ensures (done + {toRemove[|toRemove| - 1]}) + Elems(toRemove[..|toRemove| - 1] + fallen) == (fell + Elems(fallen)) + {i}
    ensures done + {toRemove[|toRemove| - 1]} <= fell + {i}
  {
    var rest := toRemove[..|toRemove| - 1];
    assert toRemove == rest + [toRemove[|toRemove| - 1]];
    assert Elems(toRemove) == Elems(rest) + {toRemove[|toRemove| - 1]};
    assert Elems(rest + fallen) == Elems(rest) + Elems(fallen);
  }

  lemma ChainRemaining(under: Under, cur: Under, done: set<nat>, blockno: nat, next: Under)
    requires Remaining(under, cur, done)
    requires next.Keys == cur.Keys && forall k :: k in next ==> next[k] == cur[k] - {blockno}
    ensures Remaining(under, next, done + {blockno})
  {
  }

  lemma ChainCount(fell: set<nat>, fallen: seq<nat>)
    requires Distinct(fallen) && forall k :: k in fallen ==> k !in fell
    ensures |fell + Elems(fallen)| == |fell| + |fallen|
  {
    DistinctCard(fallen);
    assert fell !! Elems(fallen);
  }

  /** A brick that falls in this round rested on something, and now only
      on `i` and on bricks that fell before. */
  lemma ChainFallen(under: Under, i: nat, cur: Under, done: set<nat>, fell: set<nat>,
                    blockno: nat, fallen: seq<nat>)
    requires cur.Keys == under.Keys && forall k :: k in cur ==> cur[k] == under[k] - done
    requires done + {blockno} <= fell + {i}
    requires forall k :: k in fallen <==> k in cur && cur[k] == {blockno}
    requires forall k :: k in fell <==> k in under && under[k] != {} && cur[k] == {}
    ensures forall k :: k in fallen ==> under[k] != {} && under[k] <= fell + {i} && k !in fell
  {
    forall k | k in fallen
      ensures under[k] != {} && under[k] <= fell + {i} && k !in fell
    {
      assert under[k] - done == {blockno};
    }
  }

  lemma ChainLeast(under: Under, i: nat, fell: set<nat>, fallen: seq<nat>)
    requires forall k :: k in fallen ==> k in under && under[k] != {} && under[k] <= fell + {i}
    requires forall s :: Closed(under, i, s) ==> fell <= s
    ensures Least(under, i, fell + Elems(fallen))
  {
    forall s | Closed(under, i, s) ensures fell + Elems(fallen) <= s {
      forall k | k in fallen ensures k in s {
        assert under[k] <= s + {i};
      }
    }
  }

  lemma ChainFell(under: Under, cur: Under, fell: set<nat>, blockno: nat, next: Under, fallen: seq<nat>)
    requires cur.Keys == under.Keys && next.Keys == cur.Keys
    requires forall k :: k in next ==> next[k] == cur[k] - {blockno}
    requires forall k :: k in fallen <==> k in cur && cur[k] == {blockno}
    requires forall k :: k in fell <==> k in under && under[k] != {} && cur[k] == {}
    requires forall k :: k in fallen ==> under[k] != {}
    ensures Fallen(under, next, fell + Elems(fallen))
  {
    forall k | k in under && under[k] != {} && next[k] == {}
      ensures k in fell + Elems(fallen)
    {
      assert cur[k] <= {blockno};
      if cur[k] != {} {
        assert blockno in cur[k];
        assert cur[k] == {blockno};
      }
    }
  }

  lemma ChainShrinks(cur: Under, blockno: nat, next: Under, fallen: seq<nat>)
    requires next.Keys == cur.Keys
    requires forall k :: k in next ==> next[k] == cur[k] - {blockno}
    requires forall k :: k in fallen <==> k in cur && cur[k] == {blockno}
    ensures NonEmpty(next) <= NonEmpty(cur)
    ensures fallen == [] ==> NonEmpty(next) == NonEmpty(cur)
    ensures fallen != [] ==> NonEmpty(next) != NonEmpty(cur)
  {
    if fallen == [] {
      forall k | k in NonEmpty(cur) ensures k in NonEmpty(next) {
        assert cur[k] != {blockno};
        assert next[k] != {} by {
          assert cur[k] != {} && cur[k] != {blockno};
          var x :| x in cur[k];
          if x == blockno {
            var y :| y in cur[k] && y != blockno;
            assert y in next[k];
          } else {
            assert x in next[k];
          }
        }
      }
    } else {
      var k := fallen[0];
      assert k in fallen && cur[k] == {blockno} && next[k] == {};
      assert k in NonEmpty(cur) && k !in NonEmpty(next);
    }
  }

  /** The total of `|falls[k]|`. */
  function SumCards(falls: seq<set<nat>>): nat
    decreases |falls|
  {
    if falls == [] then 0 else SumCards(falls[..|falls| - 1]) + |falls[|falls| - 1]|
  }

  /** The settling loop of `do_part2`, recording what each brick rests on. */
  method Supports(sorted: seq<Brick>) returns (r: Option<Under>)
    ensures r.None? <==> Settle(sorted).None?
    ensures r.Some? ==> r.value == UnderOf(Settle(sorted).value.1)
  {
    var under: Under := map[];
    var space: Space := map[];
    ghost var supports: seq<set<nat>> := [];
    var i := 0;
    while i < |sorted|
      invariant 0 <= i <= |sorted| && |supports| == i
      invariant Settle(sorted[..i]) == Some((space, supports))
      invariant under == UnderOf(supports)
    {
      SettleNext(sorted, i);
      var placed := SettleBrick(space, sorted[i], i);
      if placed.None? {
        SettleStops(sorted, i + 1);
        return None;
      }
      var restingOn := placed.value.1;
      space := placed.value.0;
      under := under[i := restingOn];
      supports := supports + [restingOn];
      i := i + 1;
    }
    assert sorted[..i] == sorted;
    return Some(under);
  }

  /** `do_part2`: the sum, over every brick, of how many bricks fall when
      it is taken away. */
  method Part2(bricks: seq<Brick>) returns (r: Option<nat>, ghost falls: seq<set<nat>>)
    ensures r.None? <==> Settle(Sorting.SortBy(bricks, ByLowest)).None?
    ensures r.Some? ==>
      |falls| == |bricks| && r.value == SumCards(falls) &&
      AllFall(UnderOf(Settle(Sorting.SortBy(bricks, ByLowest)).value.1), falls)
  {
    var sorted := Sorting.SortBy(bricks, ByLowest);
    SortedLength(bricks);
    falls := [];
    var under := Supports(sorted);
    if under.None? {
      return None, falls;
    }
    var u := under.value;
    var total := 0;
    var i := 0;
    while i < |sorted|
      invariant 0 <= i <= |sorted| && |falls| == i
      invariant total == SumCards(falls)
      invariant AllFall(u, falls)
    {
      var n, fell := ChainLen(u, i);
      total := total + n;
      AllFallSnoc(u, falls, fell);
      falls := falls + [fell];
      i := i + 1;
    }
    return Some(total), falls;
  }

  /** `falls[k]` is what falls when brick `k` is taken away, for every `k`. */
  ghost predicate AllFall(under: Under, falls: seq<set<nat>>)
  {
    forall k :: 0 <= k < |falls| ==> Falls(under, k, falls[k])
  }

  lemma AllFallSnoc(under: Under, falls: seq<set<nat>>, fell: set<nat>)
    requires AllFall(under, falls) && Falls(under, |falls|, fell)
    ensures AllFall(under, falls + [fell])
    ensures SumCards(falls + [fell]) == SumCards(falls) + |fell|
  {
    assert (falls + [fell])[..|falls|] == falls;
  }

  /** In settled bricks, taking a brick away makes only bricks above it
      fall, never itself, and never a brick on the ground. */
  lemma Part2Meaning(bricks: seq<Brick>, i: nat, fell: set<nat>)
    requires Settle(bricks).Some?
    requires Falls(UnderOf(Settle(bricks).value.1), i, fell)
    ensures forall k :: k in fell ==>
      i < k < |bricks| && Settle(bricks).value.1[k] != {}
  {
    SettleBelow(bricks);
    var under := UnderOf(Settle(bricks).value.1);
    FallsAbove(under, i, fell);
  }
}
