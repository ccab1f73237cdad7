/** Day 23: the longest hike through a maze of paths, where slopes are one-way
    in part 1 and plain path in part 2.  Both parts search depth first with an
    explicit stack of walk states. */
module Day23 {
  import opened Lib

  datatype Space = Empty | Wall | SlopeN | SlopeE | SlopeS | SlopeW

  /** `is_empty`: every tile but a wall can be stood on. */
  predicate IsEmpty(s: Space)
  {
    match s
    case Wall => false
    case _ => true
  }

  type Pos = (nat, nat)
  type Field = seq<seq<Space>>

  datatype Outcome<T> = Done(value: T) | Panic | OutOfFuel

  /** Where every walk starts, and the placeholder previous position. */
  const Start: Pos := (1, 0)
  const NoPos: Pos := (0, 0)

  /** `get`: the tile at (x, y), a wall anywhere off the grid. */
  function Get(field: Field, x: nat, y: nat): Space
  {
    if y >= |field| || x >= |field[y]| then Wall else field[y][x]
  }

  /** Only a position inside the grid can be stood on, and there `Get` reads
      the grid. */
  lemma StandableInside(field: Field, x: nat, y: nat)
    requires IsEmpty(Get(field, x, y))
    ensures y < |field| && x < |field[y]| && Get(field, x, y) == field[y][x]
  {
  }

  /* ---------------- parsing ---------------- */

  function ParseSpace(c: char): Option<Space>
  {
    match c
    case '.' => Some(Empty)
    case '#' => Some(Wall)
    case '>' => Some(SlopeE)
    case '<' => Some(SlopeW)
    case '^' => Some(SlopeN)
    case 'v' => Some(SlopeS)
    case _ => None
  }

  /** The character `print` shows for a tile. */
  function ShowSpace(s: Space): char
  {
    match s
    case Empty => '.'
    case Wall => '#'
    case SlopeN => '^'
    case SlopeE => '>'
    case SlopeS => 'v'
    case SlopeW => '<'
  }

  /** One row of tiles; an unknown character makes the parse fail (the source
      panics there). */
  function ParseRow(line: string): (r: Option<seq<Space>>)
    ensures r.Some? <==> forall i :: 0 <= i < |line| ==> ParseSpace(line[i]).Some?
    ensures r.Some? ==> |r.value| == |line| && forall i :: 0 <= i < |line| ==> ParseSpace(line[i]) == Some(r.value[i])
    decreases |line|
  {
    if line == [] then Some([])
    else
      var rest := ParseRow(line[1..]);
      assert forall i :: 1 <= i < |line| ==> line[i] == line[1..][i - 1];
      match (ParseSpace(line[0]), rest)
      case (Some(s), Some(ss)) => Some([s] + ss)
      case _ => None
  }

  /** A row printed with `ShowSpace` parses back to itself. */
  lemma ParseShownRow(row: seq<Space>)
    ensures ParseRow(seq(|row|, i requires 0 <= i < |row| => ShowSpace(row[i]))) == Some(row)
  {
    var line := seq(|row|, i requires 0 <= i < |row| => ShowSpace(row[i]));
    forall i | 0 <= i < |row| ensures ParseSpace(line[i]) == Some(row[i]) {
      match row[i]
      case Empty =>
      case Wall =>
      case SlopeN =>
      case SlopeE =>
      case SlopeS =>
      case SlopeW =>
    }
    var r := ParseRow(line);
    assert r.value == row;
  }

  /** `parse_input`: one row of tiles per line. */
  function ParseInput(input: string): (r: Option<Field>)
    ensures r.Some? ==> |r.value| == |Lines(input)|
    ensures r.Some? ==> forall y :: 0 <= y < |r.value| ==> ParseRow(Lines(input)[y]) == Some(r.value[y])
    ensures r.None? ==> exists y :: 0 <= y < |Lines(input)| && ParseRow(Lines(input)[y]).None?
  {
    ParseLines(input, ParseRow)
  }

  /* ---------------- clear_slopes ---------------- */

  /** What `clear_slopes` leaves in place of a tile. */
  function Clear(s: Space): Space
  {
    match s
    case Empty => Empty
    case Wall => Wall
    case SlopeN => Empty
    case SlopeE => Empty
    case SlopeS => Empty
    case SlopeW => Empty
  }

  function ClearedRow(row: seq<Space>): seq<Space>
  {
    seq(|row|, x requires 0 <= x < |row| => Clear(row[x]))
  }

  function Cleared(field: Field): Field
  {
    seq(|field|, y requires 0 <= y < |field| => ClearedRow(field[y]))
  }

  /** Clearing keeps the shape of the grid and every wall, and turns every
      other tile into plain path. */
  lemma ClearedCells(field: Field)
    ensures |Cleared(field)| == |field|
    ensures forall y :: 0 <= y < |field| ==> |Cleared(field)[y]| == |field[y]|
    ensures forall x: nat, y: nat :: Get(Cleared(field), x, y) == (if Get(field, x, y) == Wall then Wall else Empty)
  {
    forall x: nat, y: nat ensures Get(Cleared(field), x, y) == (if Get(field, x, y) == Wall then Wall else Empty) {
      if y < |field| && x < |field[y]| {
        assert Cleared(field)[y][x] == Clear(field[y][x]);
      }
    }
  }

  /** Clearing a cleared grid changes nothing. */
  lemma ClearedIdempotent(field: Field)
    ensures Cleared(Cleared(field)) == Cleared(field)
  {
    var c := Cleared(field);
    forall y | 0 <= y < |c| ensures ClearedRow(c[y]) == c[y] {
      forall x | 0 <= x < |c[y]| ensures Clear(c[y][x]) == c[y][x] {
        assert c[y][x] == Clear(field[y][x]);
      }
    }
  }

  class Data {
    var field: Field

    constructor(field: Field)
      ensures this.field == field
    {
      this.field := field;
    }

    /** `clear_slopes`: turns every slope of the grid into plain path, in place. */
    method ClearSlopes()
      modifies this
      ensures field == Cleared(old(field))
    {
      var y := 0;
      while y < |field|
        invariant 0 <= y <= |field| == |old(field)|
        invariant forall j :: 0 <= j < y ==> field[j] == ClearedRow(old(field)[j])
        invariant forall j :: y <= j < |field| ==> field[j] == old(field)[j]
      {
        var x := 0;
        while x < |field[y]|
          invariant |field| == |old(field)|
          invariant 0 <= x <= |field[y]| == |old(field)[y]|
          invariant forall i :: 0 <= i < x ==> field[y][i] == Clear(old(field)[y][i])
          invariant forall i :: x <= i < |field[y]| ==> field[y][i] == old(field)[y][i]
          invariant forall j :: 0 <= j < y ==> field[j] == ClearedRow(old(field)[j])
          invariant forall j :: y < j < |field| ==> field[j] == old(field)[j]
          decreases |field[y]| - x
        {
          match field[y][x] {
            case Empty =>
            case Wall =>
            case _ =>
              field := field[y := field[y][x := Empty]];
          }
          x := x + 1;
        }
        assert field[y] == ClearedRow(old(field)[y]);
        y := y + 1;
      }
      assert field == Cleared(old(field));
    }
  }

  /* ---------------- next_pos ---------------- */

  datatype WalkState = WalkState(steps: nat, path: set<Pos>, pos: Pos, lastpos: Pos)

  /** Which neighbour of `pos` the position `p` is: 0 up, 1 left, 2 right,
      3 down, 4 not a neighbour. */
  function Dir(pos: Pos, p: Pos): nat
  {
    var (x, y) := pos;
    if y > 0 && p == (x, y - 1) then 0
    else if x > 0 && p == (x - 1, y) then 1
    else if p == (x + 1, y) then 2
    else if p == (x, y + 1) then 3
    else 4
  }

  /** The direction each slope points in, numbered as by `Dir`. */
  function Downhill(s: Space): nat
  {
    match s
    case SlopeN => 0
    case SlopeW => 1
    case SlopeE => 2
    case SlopeS => 3
    case _ => 4
  }

  predicate Ordered(pos: Pos, ps: seq<Pos>)
  {
    forall i, j :: 0 <= i < j < |ps| ==> Dir(pos, ps[i]) < Dir(pos, ps[j])
  }

  /** The standable neighbours of (x, y), in the order up, left, right, down. */
  function Candidates(field: Field, x: nat, y: nat): seq<Pos>
  {
    (if y > 0 && IsEmpty(Get(field, x, y - 1)) then [(x, y - 1)] else [])
    + (if x > 0 && IsEmpty(Get(field, x - 1, y)) then [(x - 1, y)] else [])
    + (if IsEmpty(Get(field, x + 1, y)) then [(x + 1, y)] else [])
    + (if IsEmpty(Get(field, x, y + 1)) then [(x, y + 1)] else [])
  }

  lemma DirOfNeighbours(x: nat, y: nat)
    ensures y > 0 ==> Dir((x, y), (x, y - 1)) == 0
    ensures x > 0 ==> Dir((x, y), (x - 1, y)) == 1
    ensures Dir((x, y), (x + 1, y)) == 2
    ensures Dir((x, y), (x, y + 1)) == 3
  {
  }

  /** The candidates are exactly the standable neighbours, and they come
      in direction order. */
  lemma CandidatesMeaning(field: Field, x: nat, y: nat)
    ensures forall p :: p in Candidates(field, x, y) <==> Dir((x, y), p) < 4 && IsEmpty(Get(field, p.0, p.1))
    ensures Ordered((x, y), Candidates(field, x, y))
  {
    CandidatesMembers(field, x, y);
    CandidatesOrdered(field, x, y);
  }

  lemma CandidatesMembers(field: Field, x: nat, y: nat)
    ensures forall p :: p in Candidates(field, x, y) <==> Dir((x, y), p) < 4 && IsEmpty(Get(field, p.0, p.1))
  {
    DirOfNeighbours(x, y);
    var c := Candidates(field, x, y);
    forall p | Dir((x, y), p) < 4 && IsEmpty(Get(field, p.0, p.1)) ensures p in c {
      var d := Dir((x, y), p);
      if d == 0 {
        assert p == (x, y - 1);
      } else if d == 1 {
        assert p == (x - 1, y);
      } else if d == 2 {
        assert p == (x + 1, y);
      } else {
        assert p == (x, y + 1);
      }
    }
  }

  lemma CandidatesOrdered(field: Field, x: nat, y: nat)
    ensures Ordered((x, y), Candidates(field, x, y))
  {
    DirOfNeighbours(x, y);
    var up := if y > 0 && IsEmpty(Get(field, x, y - 1)) then [(x, y - 1)] else [];
    var left := if x > 0 && IsEmpty(Get(field, x - 1, y)) then [(x - 1, y)] else [];
    var right := if IsEmpty(Get(field, x + 1, y)) then [(x + 1, y)] else [];
    var down := if IsEmpty(Get(field, x, y + 1)) then [(x, y + 1)] else [];
    OrderedParts((x, y), up, left, right, down);
  }

  /** At most one position in each of the four directions, in direction
      order, are in order. */
  lemma OrderedParts(pos: Pos, a: seq<Pos>, b: seq<Pos>, c: seq<Pos>, d: seq<Pos>)
    requires |a| <= 1 && |b| <= 1 && |c| <= 1 && |d| <= 1
    requires forall p :: p in a ==> Dir(pos, p) == 0
    requires forall p :: p in b ==> Dir(pos, p) == 1
    requires forall p :: p in c ==> Dir(pos, p) == 2
    requires forall p :: p in d ==> Dir(pos, p) == 3
    ensures Ordered(pos, a + b + c + d)
  {
    var s := a + b + c + d;
    forall i, j | 0 <= i < j < |s| ensures Dir(pos, s[i]) < Dir(pos, s[j]) {
      PartAt(pos, a, b, c, d, i);
      PartAt(pos, a, b, c, d, j);
    }
  }

  lemma PartAt(pos: Pos, a: seq<Pos>, b: seq<Pos>, c: seq<Pos>, d: seq<Pos>, i: nat)
    requires i < |a + b + c + d|
    requires forall p :: p in a ==> Dir(pos, p) == 0
    requires forall p :: p in b ==> Dir(pos, p) == 1
    requires forall p :: p in c ==> Dir(pos, p) == 2
    requires forall p :: p in d ==> Dir(pos, p) == 3
    ensures Dir(pos, (a + b + c + d)[i]) ==
      if i < |a| then 0 else if i < |a| + |b| then 1 else if i < |a| + |b| + |c| then 2 else 3
  {
    var s := a + b + c + d;
    if i < |a| {
      assert s[i] == a[i];
    } else if i < |a| + |b| {
      assert s[i] == b[i - |a|];
    } else if i < |a| + |b| + |c| {
      assert s[i] == c[i - |a| - |b|];
    } else {
      assert s[i] == d[i - |a| - |b| - |c|];
    }
  }

  /** The positions of `ps` the walk may still take, in their order. */
  function Unvisited(ps: seq<Pos>, path: set<Pos>, lastpos: Pos): (r: seq<Pos>)
    ensures forall p :: p in r <==> p in ps && p !in path && p != lastpos
    decreases |ps|
  {
    if ps == [] then []
    else
      assert forall p :: p in ps <==> p == ps[0] || p in ps[1..];
      (if ps[0] !in path && ps[0] != lastpos then [ps[0]] else []) + Unvisited(ps[1..], path, lastpos)
  }

  lemma {:induction false} UnvisitedOrdered(pos: Pos, ps: seq<Pos>, path: set<Pos>, lastpos: Pos)
    requires Ordered(pos, ps)
    ensures Ordered(pos, Unvisited(ps, path, lastpos))
    decreases |ps|
  {
    if ps != [] {
      UnvisitedOrdered(pos, ps[1..], path, lastpos);
      var tail := Unvisited(ps[1..], path, lastpos);
      forall p | p in tail ensures Dir(pos, ps[0]) < Dir(pos, p) {
        var j :| 0 <= j < |ps[1..]| && ps[1..][j] == p;
        assert ps[j + 1] == p;
      }
    }
  }

  /** `next_pos`: the positions a walk may move to next.  On a slope the only
      move is downhill (taken even onto a visited tile); on plain path it is
      every standable neighbour, in the order up, left, right, down, that is
      neither on the path nor the previous position.  Standing on a wall, or
      on a slope pointing off the top or left edge, panics. */
  function NextPos(field: Field, s: WalkState): (r: Option<seq<Pos>>)
    ensures r.None? <==> (Get(field, s.pos.0, s.pos.1) == Wall
                          || (Get(field, s.pos.0, s.pos.1) == SlopeN && s.pos.1 == 0)
                          || (Get(field, s.pos.0, s.pos.1) == SlopeW && s.pos.0 == 0))
    ensures r.Some? && Get(field, s.pos.0, s.pos.1) != Empty ==>
              |r.value| == 1 && Dir(s.pos, r.value[0]) == Downhill(Get(field, s.pos.0, s.pos.1))
    ensures Get(field, s.pos.0, s.pos.1) == Empty ==>
              r.Some? && Ordered(s.pos, r.value)
              && forall p :: p in r.value <==> Dir(s.pos, p) < 4 && IsEmpty(Get(field, p.0, p.1))
                                               && p !in s.path && p != s.lastpos
  {
    var (x, y) := s.pos;
    match Get(field, x, y)
    case Wall => None
    case SlopeN => if y == 0 then None else Some([(x, y - 1)])
    case SlopeE => Some([(x + 1, y)])
    case SlopeS => Some([(x, y + 1)])
    case SlopeW => if x == 0 then None else Some([(x - 1, y)])
    case Empty =>
      CandidatesMeaning(field, x, y);
      UnvisitedOrdered(s.pos, Candidates(field, x, y), s.path, s.lastpos);
      Some(Unvisited(Candidates(field, x, y), s.path, s.lastpos))
  }

  /** On a cleared grid no move goes back onto the path. */
  lemma ClearedFresh(field: Field, s: WalkState)
    requires NextPos(Cleared(field), s).Some?
    ensures forall p :: p in NextPos(Cleared(field), s).value ==> p !in s.path
  {
    ClearedCells(field);
  }

  /* ---------------- walks ---------------- */

  /** The target tile: second to last column, bottom row.  An empty grid or a
      first row shorter than two tiles panics. */
  function Target(field: Field): Option<Pos>
  {
    if |field| == 0 || |field[0]| < 2 then None
    else Some((|field[0]| - 2, |field| - 1))
  }

  lemma ClearedTarget(field: Field)
    ensures Target(Cleared(field)) == Target(field)
  {
    ClearedCells(field);
  }

  function Elems(w: seq<Pos>): set<Pos>
  {
    set p | p in w
  }

  /** A move onto a new position: part 1 keeps `lastpos` at its start value,
      part 2 (`follow`) records the position just left. */
  function Advance(s: WalkState, n: Pos, follow: bool): WalkState
  {
    WalkState(s.steps + 1, s.path + {n}, n, if follow then s.pos else s.lastpos)
  }

  /** The state of a walk after its first k moves. */
  function StateAt(w: seq<Pos>, k: nat, follow: bool): WalkState
    requires k < |w|
  {
    WalkState(k, Elems(w[..k + 1]), w[k], if follow && k > 0 then w[k - 1] else NoPos)
  }

  /** Move k of the walk is one `next_pos` offers, onto a tile not yet on the path. */
  ghost predicate StepOk(field: Field, w: seq<Pos>, k: nat, follow: bool)
    requires k + 1 < |w|
  {
    var s := StateAt(w, k, follow);
    var n := NextPos(field, s);
    n.Some? && w[k + 1] in n.value && w[k + 1] !in s.path
  }

  /** A walk from the start in which every move is allowed. */
  ghost predicate Walk(field: Field, w: seq<Pos>, follow: bool)
  {
    |w| >= 1 && w[0] == Start && forall k: nat :: k + 1 < |w| ==> StepOk(field, w, k, follow)
  }

  /** State `s` is where walk `w` has got to. */
  ghost predicate Tracks(field: Field, w: seq<Pos>, s: WalkState, follow: bool)
  {
    Walk(field, w, follow) && s == StateAt(w, |w| - 1, follow)
  }

  /** Every queued state is where its walk has got to. */
  ghost predicate AllTrack(field: Field, walks: seq<seq<Pos>>, paths: seq<WalkState>, follow: bool)
  {
    |walks| == |paths| && forall k :: 0 <= k < |paths| ==> Tracks(field, walks[k], paths[k], follow)
  }

  lemma AllTrackPush(field: Field, walks: seq<seq<Pos>>, paths: seq<WalkState>, w: seq<Pos>, s: WalkState, follow: bool)
    requires AllTrack(field, walks, paths, follow) && Tracks(field, w, s, follow)
    ensures AllTrack(field, walks + [w], paths + [s], follow)
  {
    forall k | 0 <= k < |paths| + 1 ensures Tracks(field, (walks + [w])[k], (paths + [s])[k], follow) {
      if k < |paths| {
        assert (walks + [w])[k] == walks[k] && (paths + [s])[k] == paths[k];
      }
    }
  }

  lemma AllTrackPop(field: Field, walks: seq<seq<Pos>>, paths: seq<WalkState>, follow: bool)
    requires AllTrack(field, walks, paths, follow) && |paths| > 0
    ensures AllTrack(field, walks[..|walks| - 1], paths[..|paths| - 1], follow)
    ensures Tracks(field, walks[|walks| - 1], paths[|paths| - 1], follow)
  {
  }

  /** Walk `w` ends on the target after `m` moves. */
  ghost predicate Reaches(field: Field, target: Pos, follow: bool, w: seq<Pos>, m: nat)
  {
    Walk(field, w, follow) && w[|w| - 1] == target && |w| - 1 == m
  }

  lemma {:induction false} ElemsCard(w: seq<Pos>)
    requires forall i, j :: 0 <= i < j < |w| ==> w[i] != w[j]
    ensures |Elems(w)| == |w|
    decreases |w|
  {
    if w != [] {
      var init := w[..|w| - 1];
      ElemsCard(init);
      assert Elems(w) == Elems(init) + {w[|w| - 1]};
      assert w[|w| - 1] !in Elems(init);
    }
  }

  /** A walk never revisits a tile, so its state has one more tile on the
      path than it has taken steps, the current one among them. */
  lemma WalkSimple(field: Field, w: seq<Pos>, s: WalkState, follow: bool)
    requires Tracks(field, w, s, follow)
    ensures forall i, j :: 0 <= i < j < |w| ==> w[i] != w[j]
    ensures s.pos in s.path && s.steps + 1 == |s.path|
  {
    forall i, j | 0 <= i < j < |w| ensures w[i] != w[j] {
      assert StepOk(field, w, j - 1, follow);
      assert w[i] in Elems(w[..j]);
    }
    assert w[..|w|] == w;
    ElemsCard(w);
  }

  lemma StartTracks(field: Field, follow: bool)
    ensures Tracks(field, [Start], WalkState(0, {Start}, Start, NoPos), follow)
  {
    assert [Start][..1] == [Start];
    assert Elems([Start]) == {Start};
  }

  /** Taking a move `next_pos` offers, onto a new tile, extends the walk. */
  lemma Extend(field: Field, w: seq<Pos>, s: WalkState, n: Pos, follow: bool)
    requires Tracks(field, w, s, follow)
    requires NextPos(field, s).Some? && n in NextPos(field, s).value && n !in s.path
    ensures Tracks(field, w + [n], Advance(s, n, follow), follow)
  {
    var w' := w + [n];
    forall k: nat | k + 1 < |w'| ensures StepOk(field, w', k, follow) {
      assert w'[..k + 1] == w[..k + 1];
      assert StateAt(w', k, follow) == StateAt(w, k, follow);
      if k + 1 < |w| {
        assert StepOk(field, w, k, follow);
      } else {
        assert w[..|w|] == w;
      }
    }
    assert w'[..|w'|] == w';
    assert w[..|w|] == w;
    assert Elems(w') == Elems(w) + {n};
  }

  /* ---------------- part 1 ---------------- */

  predicate Prefix(v: seq<Pos>, w: seq<Pos>)
  {
    |v| <= |w| && w[..|v|] == v
  }

  ghost predicate Covered(walks: seq<seq<Pos>>, w: seq<Pos>)
  {
    exists v :: v in walks && Prefix(v, w)
  }

  /** Every walk to the target is at most `m` long or continues a walk still
      on the stack. */
  ghost predicate Accounted(field: Field, target: Pos, m: nat, walks: seq<seq<Pos>>)
  {
    forall w :: Walk(field, w, false) && w[|w| - 1] == target ==> |w| - 1 <= m || Covered(walks, w)
  }

  /** Popping a walk that has reached the target: the only walk to the target
      it begins is itself. */
  lemma AccountTarget(field: Field, target: Pos, m: nat, rest: seq<seq<Pos>>, ws: seq<Pos>, s: WalkState)
    requires Accounted(field, target, m, rest + [ws])
    requires Tracks(field, ws, s, false) && s.pos == target
    ensures Accounted(field, target, if s.steps > m then s.steps else m, rest)
  {
    forall w | Walk(field, w, false) && w[|w| - 1] == target && |w| - 1 > m
      ensures |w| - 1 <= (if s.steps > m then s.steps else m) || Covered(rest, w)
    {
      var v :| v in rest + [ws] && Prefix(v, w);
      if v !in rest {
        assert v == ws;
        WalkSimple(field, w, StateAt(w, |w| - 1, false), false);
        assert w[|ws| - 1] == ws[|ws| - 1] == target;
        assert |ws| == |w|;
      }
    }
  }

  /** A walk to the target that begins with a popped walk short of the target
      begins with one of the walks pushed for its moves. */
  lemma ExtendCovers(field: Field, target: Pos, ws: seq<Pos>, s: WalkState, ns: seq<Pos>,
                     walks: seq<seq<Pos>>, w: seq<Pos>)
    requires Tracks(field, ws, s, false) && s.pos != target
    requires NextPos(field, s) == Some(ns)
    requires forall j :: 0 <= j < |ns| && ns[j] !in s.path ==> Pushed(walks, ws, ns[j])
    requires Walk(field, w, false) && w[|w| - 1] == target && Prefix(ws, w)
    ensures Covered(walks, w)
  {
    assert ws[|ws| - 1] == s.pos;
    assert |ws| < |w|;
    PrefixMove(field, ws, s, w);
    var n := w[|ws|];
    var j :| 0 <= j < |ns| && ns[j] == n;
    assert Pushed(walks, ws, ns[j]);
    assert w[..|ws| + 1] == ws + [n];
    assert Prefix(ws + [n], w);
  }

  /** The move a longer walk makes after a walk it begins with is one
      `next_pos` offers from that walk's state, onto a tile off its path. */
  lemma PrefixMove(field: Field, ws: seq<Pos>, s: WalkState, w: seq<Pos>)
    requires Tracks(field, ws, s, false)
    requires Walk(field, w, false) && Prefix(ws, w) && |ws| < |w|
    ensures NextPos(field, s).Some? && w[|ws|] in NextPos(field, s).value && w[|ws|] !in s.path
  {
    var k := |ws| - 1;
    assert StepOk(field, w, k, false);
    assert w[..k + 1] == ws[..k + 1];
    assert StateAt(w, k, false) == s;
  }

  /** Popping a walk short of the target and pushing every move it may take:
      each walk to the target it began now begins with one of the pushed ones. */
  lemma AccountExtend(field: Field, target: Pos, m: nat, rest: seq<seq<Pos>>, ws: seq<Pos>,
                      s: WalkState, ns: seq<Pos>, walks: seq<seq<Pos>>)
    requires Accounted(field, target, m, rest + [ws])
    requires Tracks(field, ws, s, false) && s.pos != target
    requires NextPos(field, s) == Some(ns)
    requires forall v :: v in rest ==> v in walks
    requires forall j :: 0 <= j < |ns| && ns[j] !in s.path ==> Pushed(walks, ws, ns[j])
    ensures Accounted(field, target, m, walks)
  {
    forall w | Walk(field, w, false) && w[|w| - 1] == target && |w| - 1 > m
      ensures Covered(walks, w)
    {
      var v :| v in rest + [ws] && Prefix(v, w);
      if v !in rest {
        ExtendCovers(field, target, ws, s, ns, walks, w);
      }
    }
  }

  predicate Pushed(walks: seq<seq<Pos>>, ws: seq<Pos>, n: Pos)
  {
    ws + [n] in walks
  }

  /** The states part 1 pushes for the moves `ns`: one per move onto a tile
      not yet on the path, in order. */
  function Moves(s: WalkState, ns: seq<Pos>): seq<WalkState>
    decreases |ns|
  {
    if ns == [] then []
    else
      var n := ns[|ns| - 1];
      Moves(s, ns[..|ns| - 1]) + (if n !in s.path then [Advance(s, n, false)] else [])
  }

  /** The walks behind `Moves(s, ns)`: walk `ws` extended by each pushed move. */
  ghost function MoveWalks(ws: seq<Pos>, s: WalkState, ns: seq<Pos>): seq<seq<Pos>>
    decreases |ns|
  {
    if ns == [] then []
    else
      var n := ns[|ns| - 1];
      MoveWalks(ws, s, ns[..|ns| - 1]) + (if n !in s.path then [ws + [n]] else [])
  }

  lemma AllTrackConcat(field: Field, walks: seq<seq<Pos>>, paths: seq<WalkState>,
                       walks2: seq<seq<Pos>>, paths2: seq<WalkState>, follow: bool)
    requires AllTrack(field, walks, paths, follow) && AllTrack(field, walks2, paths2, follow)
    ensures AllTrack(field, walks + walks2, paths + paths2, follow)
  {
    forall k | 0 <= k < |paths| + |paths2|
      ensures Tracks(field, (walks + walks2)[k], (paths + paths2)[k], follow)
    {
      if k < |paths| {
        assert (walks + walks2)[k] == walks[k] && (paths + paths2)[k] == paths[k];
      } else {
        assert (walks + walks2)[k] == walks2[k - |paths|] && (paths + paths2)[k] == paths2[k - |paths|];
      }
    }
  }

  /** Each pushed state is where its pushed walk has got to. */
  lemma {:induction false} MovesTrack(field: Field, ws: seq<Pos>, s: WalkState, ns: seq<Pos>)
    requires Tracks(field, ws, s, false) && NextPos(field, s).Some?
    requires forall n :: n in ns ==> n in NextPos(field, s).value
    ensures AllTrack(field, MoveWalks(ws, s, ns), Moves(s, ns), false)
    decreases |ns|
  {
    if ns != [] {
      var n := ns[|ns| - 1];
      MovesTrack(field, ws, s, ns[..|ns| - 1]);
      if n !in s.path {
        Extend(field, ws, s, n, false);
        AllTrackPush(field, MoveWalks(ws, s, ns[..|ns| - 1]), Moves(s, ns[..|ns| - 1]), ws + [n], Advance(s, n, false), false);
      }
    }
  }

  /** Every move onto a tile not on the path has its walk among the pushed ones. */
  lemma {:induction false} MoveWalksPushed(ws: seq<Pos>, s: WalkState, ns: seq<Pos>)
    ensures forall j :: 0 <= j < |ns| && ns[j] !in s.path ==> ws + [ns[j]] in MoveWalks(ws, s, ns)
    decreases |ns|
  {
    if ns != [] {
      var init := ns[..|ns| - 1];
      MoveWalksPushed(ws, s, init);
      forall j | 0 <= j < |ns| && ns[j] !in s.path ensures ws + [ns[j]] in MoveWalks(ws, s, ns) {
        if j < |init| {
          assert ns[j] == init[j];
        }
      }
    }
  }

  /** The pushing loops of `do_part1`: one new state per move onto a tile not
      yet on the path, in order. */
  method PushMoves(paths: seq<WalkState>, ghost walks: seq<seq<Pos>>,
                   state: WalkState, ghost ws: seq<Pos>, ns: seq<Pos>)
    returns (paths': seq<WalkState>, ghost walks': seq<seq<Pos>>)
    ensures paths' == paths + Moves(state, ns)
    ensures walks' == walks + MoveWalks(ws, state, ns)
  {
    paths', walks' := paths, walks;
    var i := 0;
    while i < |ns|
      invariant 0 <= i <= |ns|
      invariant paths' == paths + Moves(state, ns[..i])
      invariant walks' == walks + MoveWalks(ws, state, ns[..i])
    {
      var nextpos := ns[i];
      assert ns[..i + 1][..i] == ns[..i];
      if nextpos !in state.path {
        paths' := paths' + [Advance(state, nextpos, false)];
        walks' := walks' + [ws + [nextpos]];
      }
      i := i + 1;
    }
    assert ns[..i] == ns;
  }

  /** `do_part1`: the longest walk to the target that never steps back onto
      its own path and only goes downhill on slopes.  The depth-first search
      pops a walk state; one on the target updates the maximum, any other
      pushes one state per move `next_pos` offers onto a new tile.  `fuel`
      bounds the number of states popped. */
  method Part1(field: Field, fuel: nat) returns (r: Outcome<nat>)
    ensures Target(field).None? ==> r == Panic
    ensures r.Done? ==> Target(field).Some?
    ensures r.Done? ==> forall w :: Walk(field, w, false) && w[|w| - 1] == Target(field).value ==> |w| - 1 <= r.value
    ensures r.Done? && r.value > 0 ==> exists w :: Reaches(field, Target(field).value, false, w, r.value)
  {
    var t := Target(field);
    if t.None? {
      return Panic;
    }
    var target := t.value;
    var paths := [WalkState(0, {Start}, Start, NoPos)];
    ghost var walks := [[Start]];
    StartTracks(field, false);
    forall w | Walk(field, w, false) ensures Covered(walks, w) {
      assert w[..1] == [Start];
      assert Prefix([Start], w);
    }
    var maxWalk: nat := 0;
    ghost var best: seq<Pos> := [];
    var spent: nat := 0;
    while paths != []
      invariant spent <= fuel
      invariant AllTrack(field, walks, paths, false)
      invariant maxWalk == 0 || Reaches(field, target, false, best, maxWalk)
      invariant Accounted(field, target, maxWalk, walks)
      decreases fuel - spent
    {
      if spent == fuel {
        return OutOfFuel;
      }
      spent := spent + 1;
      AllTrackPop(field, walks, paths, false);
      var state := paths[|paths| - 1];
      ghost var ws := walks[|walks| - 1];
      ghost var rest := walks[..|walks| - 1];
      assert walks == rest + [ws];
      assert Tracks(field, ws, state, false);
      paths := paths[..|paths| - 1];
      walks := rest;
      if state.pos == target {
        AccountTarget(field, target, maxWalk, rest, ws, state);
        if state.steps > maxWalk {
          maxWalk := state.steps;
          best := ws;
        }
        continue;
      }
      var next := NextPos(field, state);
      if next.None? {
        return Panic;
      }
      var ns := next.value;
      ghost var restPaths := paths;
      paths, walks := PushMoves(paths, walks, state, ws, ns);
      MovesTrack(field, ws, state, ns);
      AllTrackConcat(field, rest, restPaths, MoveWalks(ws, state, ns), Moves(state, ns), false);
      MoveWalksPushed(ws, state, ns);
      forall j | 0 <= j < |ns| && ns[j] !in state.path ensures Pushed(walks, ws, ns[j]) {
        assert ws + [ns[j]] in MoveWalks(ws, state, ns);
      }
      AccountExtend(field, target, maxWalk, rest, ws, state, ns, walks);
    }
    return Done(maxWalk);
  }

  /* ---------------- part 2 ---------------- */

  /** `do_part2`: the same search on a copy of the grid with its slopes
      cleared, each popped state first following any corridor (a single
      possible move) to its end, and a state already pushed once not pushed
      again.  `fuel` bounds the states popped plus the corridor moves. */
  method Part2(field: Field, fuel: nat) returns (r: Outcome<nat>)
    ensures Target(field).None? ==> r == Panic
    ensures r.Done? ==> Target(field).Some?
    ensures r.Done? && r.value > 0 ==> exists w :: Reaches(Cleared(field), Target(field).value, true, w, r.value)
  {
    var data := new Data(field);
    data.ClearSlopes();
    var f := data.field;
    ClearedTarget(field);
    var t := Target(f);
    if t.None? {
      return Panic;
    }
    var target := t.value;
    var start := WalkState(0, {Start}, Start, NoPos);
    var paths := [start];
    ghost var walks := [[Start]];
    StartTracks(f, true);
    var maxWalk: nat := 0;
    ghost var best: seq<Pos> := [];
    var seen := {start};
    var spent: nat := 0;
    while paths != []
      invariant spent <= fuel
      invariant AllTrack(f, walks, paths, true)
      invariant maxWalk == 0 || Reaches(f, target, true, best, maxWalk)
      decreases fuel - spent
    {
      if spent == fuel {
        return OutOfFuel;
      }
      spent := spent + 1;
      AllTrackPop(f, walks, paths, true);
      var state := paths[|paths| - 1];
      ghost var ws := walks[|walks| - 1];
      paths := paths[..|paths| - 1];
      walks := walks[..|walks| - 1];
      if state.pos == target {
        if state.steps > maxWalk {
          maxWalk := state.steps;
          best := ws;
        }
        continue;
      }
      var nextPositions: seq<Pos> := [];
      while true
        invariant spent <= fuel
        invariant Tracks(f, ws, state, true)
        invariant maxWalk == 0 || Reaches(f, target, true, best, maxWalk)
        decreases fuel - spent
      {
        if spent == fuel {
          return OutOfFuel;
        }
        spent := spent + 1;
        var next := NextPos(f, state);
        if next.None? {
          return Panic;
        }
        if |next.value| != 1 {
          nextPositions := next.value;
          break;
        }
        var nextpos := next.value[0];
        ClearedFresh(field, state);
        Extend(f, ws, state, nextpos, true);
        state := Advance(state, nextpos, true);
        ws := ws + [nextpos];
        if state.pos == target {
          if state.steps > maxWalk {
            maxWalk := state.steps;
            best := ws;
          }
          nextPositions := [];
          break;
        }
      }
      assert nextPositions == [] || NextPos(f, state) == Some(nextPositions);
      var i := 0;
      while i < |nextPositions|
        invariant 0 <= i <= |nextPositions|
        invariant AllTrack(f, walks, paths, true)
      {
        var nextpos := nextPositions[i];
        var newState := Advance(state, nextpos, true);
        if newState !in seen {
          ClearedFresh(field, state);
          Extend(f, ws, state, nextpos, true);
          AllTrackPush(f, walks, paths, ws + [nextpos], newState, true);
          seen := seen + {newState};
          paths := paths + [newState];
          walks := walks + [ws + [nextpos]];
        }
        i := i + 1;
      }
    }
    return Done(maxWalk);
  }
}
