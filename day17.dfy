// Day 17: a crucible moves through a grid of heat-loss digits, turning
// left or right after each straight run of one to three cells. `part1`
// searches the states (position, last direction, heat lost so far) with a
// priority queue that hands out the cheapest state first, and records for
// each (position, direction) the lowest cost queued so far.

module Day17 {
  import opened Lib

  /* ---------------- parsing ---------------- */

  /** `b - b'0'` on a byte: below `'0'` the subtraction underflows and the
      source panics. */
  function CellValue(c: char): (r: Option<nat>)
    ensures r.Some? <==> c >= '0'
    ensures r.Some? ==> r.value == c as int - '0' as int
  {
    if c < '0' then None else Some(c as int - '0' as int)
  }

  function ParseRow(line: string): (r: Option<seq<nat>>)
    ensures r.Some? <==> forall k :: 0 <= k < |line| ==> line[k] >= '0'
    ensures r.Some? ==> |r.value| == |line| && forall k :: 0 <= k < |line| ==> r.value[k] == line[k] as int - '0' as int
    decreases |line|
  {
    if line == [] then Some([])
    else
      match (ParseRow(line[..|line| - 1]), CellValue(line[|line| - 1]))
      case (Some(init), Some(v)) => Some(init + [v])
      case _ => None
  }

  /** `parse_input`: one row of heat-loss values per line. */
  function ParseInput(text: string): (r: Option<seq<seq<nat>>>)
    ensures r.Some? <==> forall y :: 0 <= y < |Lines(text)| ==> ParseRow(Lines(text)[y]).Some?
    ensures r.Some? ==> |r.value| == |Lines(text)|
    ensures r.Some? ==> forall y :: 0 <= y < |r.value| ==> ParseRow(Lines(text)[y]) == Some(r.value[y])
  {
    ParseLines(text, ParseRow)
  }

  /* ---------------- states and their order ---------------- */

  /** Declared in this order, so the derived comparison ranks them so. */
  datatype Dir = Up | Down | Left | Right

  function Rank(d: Dir): nat
  {
    match d
    case Up => 0
    case Down => 1
    case Left => 2
    case Right => 3
  }

  datatype CellState = CellState(cost: nat, lastdir: Dir, x: nat, y: nat)

  datatype Ordering = Less | Equal | Greater

  function CompareNat(a: int, b: int): Ordering
  {
    if a < b then Less else if a == b then Equal else Greater
  }

  /** The hand-written `partial_cmp`: cost compared the other way round, so
      that the cheapest state is the greatest and leaves the max-heap first;
      ties go by direction, then `x`, then `y`. */
  function Compare(a: CellState, b: CellState): Ordering
  {
    if a.cost != b.cost then CompareNat(b.cost, a.cost)
    else if a.lastdir != b.lastdir then CompareNat(Rank(a.lastdir), Rank(b.lastdir))
    else if a.x != b.x then CompareNat(a.x, b.x)
    else CompareNat(a.y, b.y)
  }

  function Flip(o: Ordering): Ordering
  {
    match o
    case Less => Greater
    case Equal => Equal
    case Greater => Less
  }

  /** The comparison is a total order: equal exactly on equal states,
      antisymmetric, transitive, and a cheaper state is always greater. */
  lemma CompareIsOrder(a: CellState, b: CellState, c: CellState)
    ensures Compare(a, b) == Equal <==> a == b
    ensures Compare(b, a) == Flip(Compare(a, b))
    ensures Compare(a, b) == Greater && Compare(b, c) == Greater ==> Compare(a, c) == Greater
    ensures a.cost < b.cost ==> Compare(a, b) == Greater
  {
    assert Rank(a.lastdir) == Rank(b.lastdir) ==> a.lastdir == b.lastdir;
  }

  /* ---------------- the grid ---------------- */

  /** All rows as long as the first. */
  predicate Rectangular(data: seq<seq<nat>>)
  {
    forall k :: 0 <= k < |data| ==> |data[k]| == |data[0]|
  }

  predicate InGrid(data: seq<seq<nat>>, s: CellState)
  {
    s.y < |data| && s.x < |data[0]|
  }

  /** The heat loss of a cell; a cell past the end of a short row reads as
      nothing here, and `RunFits` says where the source would panic on it. */
  function Heat(data: seq<seq<nat>>, x: nat, y: nat): nat
  {
    if y < |data| && x < |data[y]| then data[y][x] else 0
  }

  predicate Horizontal(d: Dir) { d == Left || d == Right }

  /** How many cells a run may go from `s` in direction `d`: three at most,
      and never past the edge. */
  function Room(data: seq<seq<nat>>, s: CellState, d: Dir): (n: nat)
    requires InGrid(data, s)
    ensures n <= 3
  {
    var room: int := match d
      case Up => s.y
      case Down => |data| - 1 - s.y
      case Left => s.x
      case Right => |data[0]| - 1 - s.x;
    if room < 3 then room else 3
  }

  /** The cell `k` steps from `s` in direction `d`. */
  function Offset(s: CellState, d: Dir, k: nat): (p: (nat, nat))
    requires d == Up ==> k <= s.y
    requires d == Left ==> k <= s.x
  {
    match d
    case Up => (s.x, s.y - k)
    case Down => (s.x, s.y + k)
    case Left => (s.x - k, s.y)
    case Right => (s.x + k, s.y)
  }

  /** The heat lost entering the first `k` cells of a run; the cell the run
      starts from is not counted. */
  function RunCost(data: seq<seq<nat>>, s: CellState, d: Dir, k: nat): nat
    requires InGrid(data, s) && k <= Room(data, s, d)
  {
    if k == 0 then 0
    else
      var (x, y) := Offset(s, d, k);
      RunCost(data, s, d, k - 1) + Heat(data, x, y)
  }

  /** Every cell of the run from `s` in direction `d` lies within its row.
      The grid's width is the first row's, so in a shorter row the source's
      `data[y][x]` panics. */
  predicate RunFits(data: seq<seq<nat>>, s: CellState, d: Dir)
    requires InGrid(data, s)
  {
    forall k :: 1 <= k <= Room(data, s, d) ==> CellFits(data, Offset(s, d, k))
  }

  predicate CellFits(data: seq<seq<nat>>, p: (nat, nat))
  {
    p.1 < |data| && p.0 < |data[p.1]|
  }

  /** Both runs `nextmoves` takes from `s` stay within their rows. */
  predicate MovesFit(data: seq<seq<nat>>, s: CellState)
    requires InGrid(data, s)
  {
    if s.lastdir == Up || s.lastdir == Down then RunFits(data, s, Left) && RunFits(data, s, Right)
    else RunFits(data, s, Up) && RunFits(data, s, Down)
  }

  /** On a grid whose rows are all as long as the first, no run overruns. */
  lemma RectangularFits(data: seq<seq<nat>>, s: CellState)
    requires Rectangular(data) && InGrid(data, s)
    ensures MovesFit(data, s)
  {
    forall d: Dir, k | 1 <= k <= Room(data, s, d)
      ensures CellFits(data, Offset(s, d, k))
    {
      assert Offset(s, d, k).1 < |data|;
    }
  }

  /** The first `n` states of a run from `s` in direction `d`. */
  function Ray(data: seq<seq<nat>>, s: CellState, d: Dir, n: nat): (r: seq<CellState>)
    requires InGrid(data, s) && n <= Room(data, s, d)
    ensures |r| == n
  {
    if n == 0 then []
    else
      var (x, y) := Offset(s, d, n);
      Ray(data, s, d, n - 1) + [CellState(s.cost + RunCost(data, s, d, n), d, x, y)]
  }

  /** The states one run away from `s`: at right angles to its last direction. */
  function Moves(data: seq<seq<nat>>, s: CellState): seq<CellState>
    requires InGrid(data, s)
  {
    if s.lastdir == Up || s.lastdir == Down then
      Ray(data, s, Left, Room(data, s, Left)) + Ray(data, s, Right, Room(data, s, Right))
    else
      Ray(data, s, Up, Room(data, s, Up)) + Ray(data, s, Down, Room(data, s, Down))
  }

  /** Each state of a ray is `k + 1` cells away in direction `d`, inside the
      grid, heading `d`, and has lost exactly the heat of the cells entered. */
  lemma {:induction false} RayShape(data: seq<seq<nat>>, s: CellState, d: Dir, n: nat)
    requires InGrid(data, s) && n <= Room(data, s, d)
    ensures forall k :: 0 <= k < n ==>
      var m := Ray(data, s, d, n)[k];
      m.lastdir == d && (m.x, m.y) == Offset(s, d, k + 1) && InGrid(data, m) &&
      m.cost == s.cost + RunCost(data, s, d, k + 1)
    decreases n
  {
    if n > 0 {
      RayShape(data, s, d, n - 1);
    }
  }

  /** `nextmoves` turns, stays in the grid, runs one to three cells, never
      loses heat, and offers at most six states. */
  lemma MovesShape(data: seq<seq<nat>>, s: CellState)
    requires InGrid(data, s)
    ensures |Moves(data, s)| <= 6
    ensures forall m :: m in Moves(data, s) ==>
      Horizontal(m.lastdir) != Horizontal(s.lastdir) && InGrid(data, m) && m.cost >= s.cost &&
      ((m.x == s.x && 1 <= Dist(m.y, s.y) <= 3) || (m.y == s.y && 1 <= Dist(m.x, s.x) <= 3))
  {
    var ds := if s.lastdir == Up || s.lastdir == Down then [Left, Right] else [Up, Down];
    RayShape(data, s, ds[0], Room(data, s, ds[0]));
    RayShape(data, s, ds[1], Room(data, s, ds[1]));
  }

  function Dist(a: nat, b: nat): nat
  {
    if a < b then b - a else a - b
  }

  /* ---------------- nextmoves ---------------- */

  /** One of the four loops of `nextmoves`: walk up to three cells in `d`,
      adding each cell's heat loss. */
  method Run(data: seq<seq<nat>>, s: CellState, d: Dir) returns (r: Option<seq<CellState>>)
    requires InGrid(data, s)
    ensures r.None? <==> !RunFits(data, s, d)
    ensures r.Some? ==> r.value == Ray(data, s, d, Room(data, s, d))
  {
    var states := [];
    var k := 0;
    var cost := s.cost;
    while k < Room(data, s, d)
      invariant 0 <= k <= Room(data, s, d)
      invariant states == Ray(data, s, d, k)
      invariant cost == s.cost + RunCost(data, s, d, k)
      invariant forall j :: 1 <= j <= k ==> CellFits(data, Offset(s, d, j))
    {
      k := k + 1;
      var (x, y) := Offset(s, d, k);
      if x >= |data[y]| {
        return None;
      }
      cost := cost + data[y][x];
      states := states + [CellState(cost, d, x, y)];
    }
    return Some(states);
  }

  /** `nextmoves`: the two runs at right angles to the last direction. */
  method NextMoves(data: seq<seq<nat>>, s: CellState) returns (r: Option<seq<CellState>>)
    requires InGrid(data, s)
    ensures r.None? <==> !MovesFit(data, s)
    ensures r.Some? ==> r.value == Moves(data, s)
  {
    var first, second;
    if s.lastdir == Up || s.lastdir == Down {
      first := Run(data, s, Left);
      if first.None? {
        return None;
      }
      second := Run(data, s, Right);
    } else {
      first := Run(data, s, Up);
      if first.None? {
        return None;
      }
      second := Run(data, s, Down);
    }
    if second.None? {
      return None;
    }
    r := Some(first.value + second.value);
  }

  /* ---------------- routes ---------------- */

  function Starts(): seq<CellState>
  {
    [CellState(0, Right, 0, 0), CellState(0, Down, 0, 0)]
  }

  /** A route: it begins at a start state and each state is one of the
      moves of the one before. */
  ghost predicate Route(data: seq<seq<nat>>, ps: seq<CellState>)
  {
    |ps| >= 1 && ps[0] in Starts() &&
    (forall k :: 0 <= k < |ps| ==> InGrid(data, ps[k])) &&
    forall k :: 0 <= k < |ps| - 1 ==> Linked(data, ps, k)
  }

  /** State `k + 1` of `ps` is one of the moves of state `k`, whose runs
      stay within their rows. */
  ghost predicate Linked(data: seq<seq<nat>>, ps: seq<CellState>, k: nat)
    requires k + 1 < |ps| && InGrid(data, ps[k])
  {
    MovesFit(data, ps[k]) && ps[k + 1] in Moves(data, ps[k])
  }

  /** Some route ends in `s`: its cost is heat a crucible really loses. */
  ghost predicate Achievable(data: seq<seq<nat>>, s: CellState)
  {
    exists ps :: Route(data, ps) && ps[|ps| - 1] == s
  }

  /** `ps` is a route ending in `t`. */
  ghost predicate RouteTo(data: seq<seq<nat>>, ps: seq<CellState>, t: CellState)
  {
    Route(data, ps) && ps[|ps| - 1] == t
  }

  lemma StartRoute(data: seq<seq<nat>>, s: CellState)
    requires data != [] && |data[0]| > 0 && s in Starts()
    ensures RouteTo(data, [s], s)
  {
  }

  /** A route ends inside the grid. */
  lemma RouteEnd(data: seq<seq<nat>>, ps: seq<CellState>, t: CellState)
    requires RouteTo(data, ps, t)
    ensures InGrid(data, t)
  {
  }

  /** Extending a route by one of its last state's moves. */
  lemma RouteStep(data: seq<seq<nat>>, ps: seq<CellState>, s: CellState, m: CellState)
    requires RouteTo(data, ps, s) && InGrid(data, s) && MovesFit(data, s) && m in Moves(data, s)
    ensures RouteTo(data, ps + [m], m)
  {
    MovesShape(data, s);
    var qs := ps + [m];
    assert forall k :: 0 <= k < |ps| ==> qs[k] == ps[k];
    forall k | 0 <= k < |qs| - 1
      ensures Linked(data, qs, k)
    {
      if k < |ps| - 1 {
        assert Linked(data, ps, k);
      }
    }
  }

  /* ---------------- the search ---------------- */

  /** `usize::MAX`: the answer when no route to the target is found. */
  const Max: nat := 0xffff_ffff_ffff_ffff

  /** `BinaryHeap::pop`: the greatest state in the hand-written order. */
  method Pop(options: seq<CellState>) returns (top: CellState, rest: seq<CellState>)
    requires options != []
    ensures top in options
    ensures forall o :: o in options ==> Compare(top, o) != Less
    ensures multiset(options) == multiset(rest) + multiset{top}
    ensures forall o :: o in rest ==> o in options
  {
    var best := 0;
    var i := 1;
    while i < |options|
      invariant 0 <= best < |options| && 1 <= i <= |options|
      invariant forall k :: 0 <= k < i ==> Compare(options[best], options[k]) != Less
    {
      if Compare(options[best], options[i]) == Less {
        forall k | 0 <= k < i
          ensures Compare(options[i], options[k]) != Less
        {
          CompareIsOrder(options[i], options[best], options[k]);
          CompareIsOrder(options[best], options[k], options[i]);
          CompareIsOrder(options[k], options[best], options[i]);
          CompareIsOrder(options[i], options[k], options[best]);
        }
        best := i;
      }
      i := i + 1;
    }
    top := options[best];
    rest := options[..best] + options[best + 1..];
    assert options == options[..best] + [top] + options[best + 1..];
  }

  type Key = (nat, nat, Dir)

  function KeyOf(s: CellState): Key
  {
    (s.x, s.y, s.lastdir)
  }

  datatype Outcome = Panic | OutOfFuel | Done(cost: nat)

  predicate AtTarget(data: seq<seq<nat>>, t: CellState)
  {
    data != [] && t.x == |data[0]| - 1 && t.y == |data| - 1
  }

  /** Some real route reaches the bottom right corner at cost `c`. */
  ghost predicate TargetCost(data: seq<seq<nat>>, c: nat)
  {
    exists t :: Achievable(data, t) && AtTarget(data, t) && t.cost == c
  }

  /** The state a recorded cost stands for. */
  function Recorded(k: Key, cost: nat): CellState
  {
    CellState(cost, k.2, k.0, k.1)
  }

  /** What the search keeps true, with `routes` holding a real route to every
      state it has queued: every queued state and every recorded cost has a
      route, and so has the best cost found (through `bestState`); every
      queued state but the two starts has its key recorded at a cost no
      higher than its own; the best cost is no higher than any recorded at
      the target. */
  ghost predicate SearchInvariant(data: seq<seq<nat>>, options: seq<CellState>, seen: map<Key, nat>,
                                  best: nat, routes: map<CellState, seq<CellState>>, bestState: CellState)
  {
    (forall t :: t in routes ==> RouteTo(data, routes[t], t)) &&
    (forall o :: o in options ==> o in routes) &&
    (forall k :: k in seen ==> Recorded(k, seen[k]) in routes) &&
    (forall o :: o in options && o !in Starts() ==> KeyOf(o) in seen && seen[KeyOf(o)] <= o.cost) &&
    (forall k :: k in seen && k.0 == |data[0]| - 1 && k.1 == |data| - 1 ==> best <= seen[k]) &&
    (best == Max || (bestState in routes && AtTarget(data, bestState) && bestState.cost == best))
  }

  ghost function StartRoutes(): map<CellState, seq<CellState>>
  {
    map[Starts()[0] := [Starts()[0]], Starts()[1] := [Starts()[1]]]
  }

  /** The search starts out with both starts queued and nothing recorded. */
  lemma StartInvariant(data: seq<seq<nat>>)
    requires data != [] && |data[0]| > 0
    ensures SearchInvariant(data, Starts(), map[], Max, StartRoutes(), Starts()[0])
  {
    StartRoute(data, Starts()[0]);
    StartRoute(data, Starts()[1]);
  }

  /** `m`'s key is recorded at a cost no higher than `m`'s. */
  predicate Covered(seen: map<Key, nat>, m: CellState)
  {
    KeyOf(m) in seen && seen[KeyOf(m)] <= m.cost
  }

  /** Recorded costs only go down, and no key is forgotten. */
  predicate Shrinks(seen0: map<Key, nat>, seen: map<Key, nat>)
  {
    forall k :: k in seen0 ==> k in seen && seen[k] <= seen0[k]
  }

  /** Taking states off the queue keeps the invariant. */
  lemma PopKeeps(data: seq<seq<nat>>, options: seq<CellState>, rest: seq<CellState>, seen: map<Key, nat>,
                 best: nat, routes: map<CellState, seq<CellState>>, bestState: CellState)
    requires SearchInvariant(data, options, seen, best, routes, bestState)
    requires forall o :: o in rest ==> o in options
    ensures SearchInvariant(data, rest, seen, best, routes, bestState)
  {
  }

  /** The queue, the recorded costs and the best cost, as the inner loop of
      `part1` changes them. */
  type Search = (seq<CellState>, map<Key, nat>, nat)

  /** `m` is worth queueing: its key is new or it is strictly cheaper than
      the recorded cost. */
  predicate Fresh(seen: map<Key, nat>, m: CellState)
  {
    KeyOf(m) !in seen || seen[KeyOf(m)] > m.cost
  }

  /** What offering one move does to the search: a fresh move is queued and
      recorded at its cost, and lowers the best cost when it is a cheaper
      arrival at the target; any other move changes nothing. */
  function OfferStep(data: seq<seq<nat>>, q: Search, m: CellState): Search
  {
    if Fresh(q.1, m) then
      (q.0 + [m], q.1[KeyOf(m) := m.cost], if AtTarget(data, m) && m.cost < q.2 then m.cost else q.2)
    else q
  }

  /** Offering the moves `ms` in order. */
  function OfferAll(data: seq<seq<nat>>, q: Search, ms: seq<CellState>): Search
    decreases |ms|
  {
    if ms == [] then q else OfferStep(data, OfferAll(data, q, ms[..|ms| - 1]), ms[|ms| - 1])
  }

  /** Offering one more move of `ms` is one more step. */
  lemma OfferAllNext(data: seq<seq<nat>>, q: Search, ms: seq<CellState>, i: nat)
    requires i < |ms|
    ensures OfferAll(data, q, ms[..i + 1]) == OfferStep(data, OfferAll(data, q, ms[..i]), ms[i])
  {
    assert ms[..i + 1][..i] == ms[..i];
  }

  /** Offering only ever appends to the queue and lowers recorded costs and
      the best cost, and leaves every offered move covered by a recorded
      cost no higher than its own. */
  lemma {:induction false} OfferAllGrows(data: seq<seq<nat>>, q: Search, ms: seq<CellState>)
    ensures var r := OfferAll(data, q, ms);
      |q.0| <= |r.0| && r.0[..|q.0|] == q.0 && Shrinks(q.1, r.1) && r.2 <= q.2
      && forall j :: 0 <= j < |ms| ==> Covered(r.1, ms[j])
    decreases |ms|
  {
    if ms != [] {
      var init := ms[..|ms| - 1];
      OfferAllGrows(data, q, init);
      var p := OfferAll(data, q, init);
      var r := OfferStep(data, p, ms[|ms| - 1]);
      assert r == OfferAll(data, q, ms);
      if Fresh(p.1, ms[|ms| - 1]) {
        assert r.0[..|q.0|] == p.0[..|q.0|];
      }
      forall j | 0 <= j < |ms|
        ensures Covered(r.1, ms[j])
      {
        if j < |ms| - 1 {
          assert ms[j] == init[j];
        }
      }
    }
  }

  /** The body of the inner loop of `part1` for one move `m`: queue and
      record it when its key is new or it is strictly cheaper than the
      recorded cost; on the target it may lower the best cost. */
  method Offer(data: seq<seq<nat>>, options0: seq<CellState>, seen0: map<Key, nat>, best0: nat,
               ghost routes0: map<CellState, seq<CellState>>, ghost bestState0: CellState,
               m: CellState, ghost route: seq<CellState>)
      returns (options: seq<CellState>, seen: map<Key, nat>, best: nat,
               ghost routes: map<CellState, seq<CellState>>, ghost bestState: CellState)
    requires data != [] && |data[0]| > 0
    requires RouteTo(data, route, m)
    requires SearchInvariant(data, options0, seen0, best0, routes0, bestState0)
    ensures SearchInvariant(data, options, seen, best, routes, bestState)
    ensures best <= best0
    ensures Covered(seen, m)
    ensures AtTarget(data, m) ==> best <= m.cost
    ensures Shrinks(seen0, seen)
    ensures Fresh(seen0, m) ==>
              options == options0 + [m] && seen == seen0[KeyOf(m) := m.cost] &&
              best == (if AtTarget(data, m) && m.cost < best0 then m.cost else best0)
    ensures !Fresh(seen0, m) ==> options == options0 && seen == seen0 && best == best0
    ensures (options, seen, best) == OfferStep(data, (options0, seen0, best0), m)
  {
    options, seen, best, routes, bestState := options0, seen0, best0, routes0, bestState0;
    var key := KeyOf(m);
    if key !in seen || seen[key] > m.cost {
      if (m.x, m.y) == (|data[0]| - 1, |data| - 1) && m.cost < best {
        best := m.cost;
        bestState := m;
      }
      RecordKeeps(data, options, seen, best0, routes, bestState0, m, route, best, bestState);
      options := options + [m];
      seen := seen[key := m.cost];
      routes := routes[m := route];
    }
  }

  /** Queueing and recording a state with a route keeps the invariant, with
      the best cost lowered when the state is a cheaper arrival at the target. */
  lemma RecordKeeps(data: seq<seq<nat>>, options: seq<CellState>, seen: map<Key, nat>, best0: nat,
                    routes: map<CellState, seq<CellState>>, bestState0: CellState,
                    m: CellState, route: seq<CellState>, best: nat, bestState: CellState)
    requires data != [] && |data[0]| > 0
    requires RouteTo(data, route, m)
    requires SearchInvariant(data, options, seen, best0, routes, bestState0)
    requires KeyOf(m) !in seen || seen[KeyOf(m)] > m.cost
    requires (best, bestState) == if AtTarget(data, m) && m.cost < best0 then (m.cost, m) else (best0, bestState0)
    ensures SearchInvariant(data, options + [m], seen[KeyOf(m) := m.cost], best, routes[m := route], bestState)
  {
    assert Recorded(KeyOf(m), m.cost) == m;
  }

  /** A finite best cost is the cost of a real route to the target. */
  lemma BestIsReal(data: seq<seq<nat>>, options: seq<CellState>, seen: map<Key, nat>,
                   best: nat, routes: map<CellState, seq<CellState>>, bestState: CellState)
    requires SearchInvariant(data, options, seen, best, routes, bestState)
    ensures best != Max ==> TargetCost(data, best)
  {
    if best != Max {
      assert RouteTo(data, routes[bestState], bestState);
      assert Achievable(data, bestState);
    }
  }

  /** The inner loop of `part1`: offer every move of `state`. */
  method Expand(data: seq<seq<nat>>, state: CellState, moves: seq<CellState>, ghost route: seq<CellState>,
                options0: seq<CellState>, seen0: map<Key, nat>, best0: nat,
                ghost routes0: map<CellState, seq<CellState>>, ghost bestState0: CellState)
      returns (options: seq<CellState>, seen: map<Key, nat>, best: nat,
               ghost routes: map<CellState, seq<CellState>>, ghost bestState: CellState)
    requires data != [] && |data[0]| > 0
    requires RouteTo(data, route, state)
    requires InGrid(data, state) && MovesFit(data, state) && moves == Moves(data, state)
    requires SearchInvariant(data, options0, seen0, best0, routes0, bestState0)
    ensures SearchInvariant(data, options, seen, best, routes, bestState)
    ensures (options, seen, best) == OfferAll(data, (options0, seen0, best0), moves)
    ensures best <= best0 && Shrinks(seen0, seen)
    ensures |options0| <= |options| && options[..|options0|] == options0
    ensures forall j :: 0 <= j < |moves| ==> Covered(seen, moves[j])
  {
    options, seen, best, routes, bestState := options0, seen0, best0, routes0, bestState0;
    var i := 0;
    while i < |moves|
      invariant 0 <= i <= |moves|
      invariant SearchInvariant(data, options, seen, best, routes, bestState)
      invariant (options, seen, best) == OfferAll(data, (options0, seen0, best0), moves[..i])
    {
      var m := moves[i];
      assert m in Moves(data, state);
      RouteStep(data, route, state, m);
      OfferAllNext(data, (options0, seen0, best0), moves, i);
      options, seen, best, routes, bestState := Offer(data, options, seen, best, routes, bestState, m, route + [m]);
      i := i + 1;
    }
    assert moves[..i] == moves;
    OfferAllGrows(data, (options0, seen0, best0), moves);
  }

  /** `part1` with at most `fuel` states taken from the queue. `Panic` where
      the source panics: no rows (`data[0]`), no columns (`width - 1`), or a
      state reached by a real route whose runs read past the end of a row
      shorter than the first. Otherwise a finite answer is the heat lost on
      some real route to the bottom right corner. */
  method Part1(data: seq<seq<nat>>, fuel: nat) returns (r: Outcome)
    ensures data == [] || |data[0]| == 0 ==> r.Panic?
    ensures r.Panic? ==>
      (data == [] || |data[0]| == 0 || exists s :: Achievable(data, s) && InGrid(data, s) && !MovesFit(data, s))
    ensures Rectangular(data) ==> (r.Panic? <==> data == [] || |data[0]| == 0)
    ensures r.Done? && r.cost != Max ==> TargetCost(data, r.cost)
  {
    if data == [] || |data[0]| == 0 {
      return Panic;
    }
    var seen: map<Key, nat> := map[];
    var options := Starts();
    var best := Max;
    ghost var routes := StartRoutes();
    ghost var bestState := Starts()[0];
    StartInvariant(data);
    var steps := 0;
    while options != []
      invariant steps <= fuel
      invariant SearchInvariant(data, options, seen, best, routes, bestState)
      decreases fuel - steps
    {
      if steps == fuel {
        return OutOfFuel;
      }
      steps := steps + 1;
      var state, rest := Pop(options);
      PopKeeps(data, options, rest, seen, best, routes, bestState);
      assert RouteTo(data, routes[state], state);
      if state.cost > best {
        break;
      }
      RouteEnd(data, routes[state], state);
      var moves := NextMoves(data, state);
      if moves.None? {
        assert Achievable(data, state);
        if Rectangular(data) {
          RectangularFits(data, state);
        }
        return Panic;
      }
      options, seen, best, routes, bestState := Expand(data, state, moves.value, routes[state], rest, seen, best, routes, bestState);
    }
    BestIsReal(data, options, seen, best, routes, bestState);
    return Done(best);
  }
}
