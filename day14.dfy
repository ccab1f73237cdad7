// Day 14: a platform of round rocks (`O`) and square rocks (`#`). Tilting
// north rolls every round rock up until it rests under a square rock, under
// another round rock or at the top edge; a rock resting in row `r` of `h`
// rows carries a load of `h - r`. `part1` computes the total load after the
// tilt in one scan per column without moving anything.

module Day14 {
  import opened Lib

  datatype Space = Empty | Round | Square

  /** The cell mapping of `parse_input`; any other character panics. */
  function ParseSpace(c: char): (r: Option<Space>)
    ensures r.Some? <==> c in ".O#"
    ensures r == Some(Empty) <==> c == '.'
    ensures r == Some(Round) <==> c == 'O'
    ensures r == Some(Square) <==> c == '#'
  {
    match c
    case '.' => Some(Empty)
    case 'O' => Some(Round)
    case '#' => Some(Square)
    case _ => None
  }

  /** One line of the platform; `None` when some character is not `.`, `O` or `#`. */
  function ParseRow(line: string): (r: Option<seq<Space>>)
    ensures r.Some? <==> forall k :: 0 <= k < |line| ==> line[k] in ".O#"
    ensures r.Some? ==> |r.value| == |line| && forall k :: 0 <= k < |line| ==> ParseSpace(line[k]) == Some(r.value[k])
    decreases |line|
  {
    if line == [] then Some([])
    else
      match (ParseRow(line[..|line| - 1]), ParseSpace(line[|line| - 1]))
      case (Some(init), Some(s)) => Some(init + [s])
      case _ => None
  }

  /** `parse_input`: every line of the text is a row. */
  function ParseInput(text: string): (r: Option<seq<seq<Space>>>)
    ensures r.Some? <==> forall y :: 0 <= y < |Lines(text)| ==> ParseRow(Lines(text)[y]).Some?
    ensures r.Some? ==> |r.value| == |Lines(text)|
    ensures r.Some? ==> forall y :: 0 <= y < |r.value| ==> ParseRow(Lines(text)[y]) == Some(r.value[y])
  {
    ParseAll(Lines(text), ParseRow)
  }

  /* ---------------- the tilted column ---------------- */

  /** Where the next rolling rock comes to rest: just below the last square
      rock or the last rock already resting, whichever is lower. */
  function Free(col: seq<Space>): (f: nat)
    ensures f <= |col|
    decreases |col|
  {
    if col == [] then 0
    else
      var p := col[..|col| - 1];
      match col[|col| - 1]
      case Square => |col|
      case Round => Free(p) + 1
      case Empty => Free(p)
  }

  /** A column after tilting north, built top to bottom: a round rock moves
      up to the free place and leaves an empty place where it stood. */
  function Tilt(col: seq<Space>): (t: seq<Space>)
    ensures |t| == |col|
    decreases |col|
  {
    if col == [] then []
    else
      var p := col[..|col| - 1];
      match col[|col| - 1]
      case Round => (Tilt(p) + [Empty])[Free(p) := Round]
      case s => Tilt(p) + [s]
  }

  /** No round rock has an empty place directly above it. */
  predicate Settled(t: seq<Space>)
  {
    forall i :: 0 < i < |t| && t[i] == Round ==> t[i - 1] != Empty
  }

  /** Below the free place the tilted column is empty, and the place just
      above it is taken. */
  lemma {:induction false} TiltFree(col: seq<Space>)
    ensures forall i :: Free(col) <= i < |col| ==> Tilt(col)[i] == Empty
    ensures Free(col) > 0 ==> Tilt(col)[Free(col) - 1] != Empty
    decreases |col|
  {
    if col != [] {
      TiltFree(col[..|col| - 1]);
    }
  }

  /** The tilt leaves every round rock settled. */
  lemma {:induction false} TiltSettled(col: seq<Space>)
    ensures Settled(Tilt(col))
    decreases |col|
  {
    if col != [] {
      var p := col[..|col| - 1];
      TiltSettled(p);
      TiltFree(p);
    }
  }

  /** The tilt keeps the square rocks where they are. */
  lemma {:induction false} TiltKeepsSquares(col: seq<Space>)
    ensures forall i :: 0 <= i < |col| ==> (Tilt(col)[i] == Square <==> col[i] == Square)
    decreases |col|
  {
    if col != [] {
      var p := col[..|col| - 1];
      TiltKeepsSquares(p);
      TiltFree(p);
    }
  }

  /** The tilt keeps every rock: only where they lie changes. */
  lemma {:induction false} TiltKeepsRocks(col: seq<Space>)
    ensures multiset(Tilt(col)) == multiset(col)
    decreases |col|
  {
    if col != [] {
      var p := col[..|col| - 1];
      TiltKeepsRocks(p);
      assert col == p + [col[|col| - 1]];
      if col[|col| - 1] == Round {
        TiltFree(p);
        var t := Tilt(p) + [Empty];
        assert t[Free(p)] == Empty;
        assert multiset(t[Free(p) := Round]) == multiset(t) - multiset{Empty} + multiset{Round};
      }
    }
  }

  /* ---------------- load ---------------- */

  /** The load on the north beams: a round rock in row `i` of `h` rows
      carries `h - i`. */
  function Load(t: seq<Space>, h: nat): int
    decreases |t|
  {
    if t == [] then 0
    else Load(t[..|t| - 1], h) + (if t[|t| - 1] == Round then h - (|t| - 1) else 0)
  }

  /** Putting a round rock on an empty place in row `f` adds `h - f`. */
  lemma {:induction false} LoadPlace(t: seq<Space>, f: nat, h: nat)
    requires f < |t| && t[f] == Empty
    ensures Load(t[f := Round], h) == Load(t, h) + h - f
    decreases |t|
  {
    var u := t[f := Round];
    assert u[..|u| - 1] == if f < |t| - 1 then t[..|t| - 1][f := Round] else t[..|t| - 1];
    if f < |t| - 1 {
      LoadPlace(t[..|t| - 1], f, h);
    }
  }

  /** The scan of one column, as the source's loop state after `i` rows:
      the load so far and `start_load`. */
  function Scan(col: seq<Space>, h: nat): (r: (int, int))
    decreases |col|
  {
    if col == [] then (0, h) else Advance(Scan(col[..|col| - 1], h), col[|col| - 1], |col| - 1, h)
  }

  /** The loop body on the space in row `i`: a round rock scores `start_load`
      and lowers it; a square rock resets it to the load of the row below. */
  function Advance(state: (int, int), s: Space, i: nat, h: nat): (int, int)
  {
    match s
    case Empty => state
    case Round => (state.0 + state.1, state.1 - 1)
    case Square => (state.0, h - i - 1)
  }

  /** `start_load` is always `h` minus the free place. */
  lemma {:induction false} ScanStart(col: seq<Space>, h: nat)
    ensures Scan(col, h).1 == h - Free(col)
    decreases |col|
  {
    if col != [] {
      ScanStart(col[..|col| - 1], h);
    }
  }

  /** The scan computes the load of the tilted column: since `start_load` is
      `h` minus the free place, a rock adds exactly the load it will have
      after the tilt. */
  lemma {:induction false} ScanIsTiltedLoad(col: seq<Space>, h: nat)
    ensures Scan(col, h) == (Load(Tilt(col), h), h - Free(col))
    decreases |col|
  {
    ScanStart(col, h);
    if col != [] {
      var p := col[..|col| - 1];
      ScanIsTiltedLoad(p, h);
      ScanStart(p, h);
      if col[|col| - 1] == Round {
        RoundStep(col, h);
      } else {
        StillStep(col, h);
      }
    }
  }

  /** A round rock adds the load of the free place it rolls to. */
  lemma RoundStep(col: seq<Space>, h: nat)
    requires col != [] && col[|col| - 1] == Round
    ensures Load(Tilt(col), h) == Load(Tilt(col[..|col| - 1]), h) + h - Free(col[..|col| - 1])
    ensures Free(col) == Free(col[..|col| - 1]) + 1
  {
    var p := col[..|col| - 1];
    TiltFree(p);
    var t := Tilt(p) + [Empty];
    LoadPlace(t, Free(p), h);
    assert t[..|t| - 1] == Tilt(p);
  }

  /** An empty place or a square rock adds no load. */
  lemma StillStep(col: seq<Space>, h: nat)
    requires col != [] && col[|col| - 1] != Round
    ensures Load(Tilt(col), h) == Load(Tilt(col[..|col| - 1]), h)
    ensures Free(col) == if col[|col| - 1] == Square then |col| else Free(col[..|col| - 1])
  {
    var t := Tilt(col);
    assert t[..|t| - 1] == Tilt(col[..|col| - 1]);
  }

  /** `start_load` never drops below `h - i` at row `i`, so it stays positive
      while a rock is being counted and no rock scores less than its
      unmoved place. */
  lemma StartLoadBound(col: seq<Space>, h: nat)
    ensures Scan(col, h).1 >= h - |col|
  {
    ScanIsTiltedLoad(col, h);
  }

  /* ---------------- part 1 ---------------- */

  /** Column `c` of the first `n` rows. */
  function Column(data: seq<seq<Space>>, c: nat, n: nat): (col: seq<Space>)
    requires n <= |data|
    requires forall k :: 0 <= k < n ==> c < |data[k]|
    ensures |col| == n
  {
    seq(n, k requires 0 <= k < n => data[k][c])
  }

  /** No row is shorter than the first; otherwise `row[c]` panics. */
  predicate Even(data: seq<seq<Space>>)
    requires data != []
  {
    forall k :: 0 <= k < |data| ==> |data[0]| <= |data[k]|
  }

  /** The total load of the first `c` columns once tilted. */
  function TotalLoad(data: seq<seq<Space>>, c: nat): int
    requires forall k :: 0 <= k < |data| ==> c <= |data[k]|
    decreases c
  {
    if c == 0 then 0 else TotalLoad(data, c - 1) + ColumnLoad(data, c - 1)
  }

  /** The load of column `c` once tilted. */
  function ColumnLoad(data: seq<seq<Space>>, c: nat): int
    requires forall k :: 0 <= k < |data| ==> c < |data[k]|
  {
    Load(Tilt(Column(data, c, |data|)), |data|)
  }

  /** `part1`: scan every column top to bottom. `None` where the source
      panics: no rows (`data[0]`), or a row too short for some column. */
  method Part1(data: seq<seq<Space>>) returns (r: Option<int>)
    ensures r.None? <==> data == [] || !Even(data)
    ensures r.Some? ==> Even(data) && r.value == TotalLoad(data, |data[0]|)
  {
    if data == [] {
      return None;
    }
    var sum := 0;
    var col := 0;
    while col < |data[0]|
      invariant 0 <= col <= |data[0]|
      invariant forall k :: 0 <= k < |data| ==> col <= |data[k]|
      invariant sum == TotalLoad(data, col)
    {
      var colSum := ScanColumn(data, col);
      if colSum.None? {
        return None;
      }
      sum := sum + colSum.value;
      col := col + 1;
    }
    return Some(sum);
  }

  /** The inner loop of `part1`: one column, top to bottom. `start_load` is
      the load a round rock would score, reset below each square rock. */
  method ScanColumn(data: seq<seq<Space>>, col: nat) returns (r: Option<int>)
    ensures r.None? <==> exists k :: 0 <= k < |data| && |data[k]| <= col
    ensures r.Some? ==> forall k :: 0 <= k < |data| ==> col < |data[k]|
    ensures r.Some? ==> r.value == ColumnLoad(data, col)
  {
    var height := |data|;
    var startLoad: nat := height;
    var colSum := 0;
    var i := 0;
    while i < height
      invariant 0 <= i <= height
      invariant forall k :: 0 <= k < i ==> col < |data[k]|
      invariant (colSum, startLoad) == Scan(Column(data, col, i), height)
    {
      if |data[i]| <= col {
        return None;
      }
      assert Column(data, col, i + 1)[..i] == Column(data, col, i);
      StartLoadBound(Column(data, col, i), height);
      match data[i][col] {
        case Empty =>
        case Round =>
          colSum := colSum + startLoad;
          startLoad := startLoad - 1;
        case Square =>
          startLoad := height - i - 1;
      }
      i := i + 1;
    }
    ScanIsTiltedLoad(Column(data, col, height), height);
    r := Some(colSum);
  }
}
