// Day 5: the almanac. Each map sends ids of one category to the next through
// sorted, non-overlapping ranges; ids no range covers keep their value.

module Day5 {
  import opened Lib
  import Sorting

  /** `Id::MAX` for the 64-bit `usize`. */
  const IdMax: nat := 0xFFFF_FFFF_FFFF_FFFF

  /** One map line, stored as (source start, destination start, length). */
  datatype Entry = Entry(src: nat, dst: nat, len: nat)

  predicate Covers(e: Entry, id: nat) { e.src <= id < e.src + e.len }

  /** Sorted by source start and non-overlapping (equal entries aside). */
  ghost predicate WellFormed(entries: seq<Entry>) {
    forall i, j :: 0 <= i < j < |entries| ==>
      entries[i] == entries[j] || entries[i].src + entries[i].len <= entries[j].src
  }

  lemma WellFormedTail(entries: seq<Entry>)
    requires entries != [] && WellFormed(entries)
    ensures WellFormed(entries[1..])
  {
    var t := entries[1..];
    assert forall i :: 0 <= i < |t| ==> t[i] == entries[i + 1];
  }

  /** The reference meaning of a map: the first entry covering `id` sends it
      to the same offset from its destination start; otherwise `id` stays. */
  function MapId(entries: seq<Entry>, id: nat): nat
    decreases |entries|
  {
    if entries == [] then id
    else if Covers(entries[0], id) then entries[0].dst + (id - entries[0].src)
    else MapId(entries[1..], id)
  }

  /** In a well-formed map, any entry covering `id` decides its image. */
  lemma {:induction false} MapIdCovered(entries: seq<Entry>, k: nat, id: nat)
    requires WellFormed(entries) && k < |entries| && Covers(entries[k], id)
    ensures MapId(entries, id) == entries[k].dst + (id - entries[k].src)
    decreases |entries|
  {
    if k > 0 {
      if Covers(entries[0], id) {
        assert entries[0] == entries[k];
      } else {
        WellFormedTail(entries);
        assert entries[1..][k - 1] == entries[k];
        MapIdCovered(entries[1..], k - 1, id);
      }
    }
  }

  /** An id no entry covers maps to itself. */
  lemma {:induction false} MapIdUncovered(entries: seq<Entry>, id: nat)
    requires forall k :: 0 <= k < |entries| ==> !Covers(entries[k], id)
    ensures MapId(entries, id) == id
    decreases |entries|
  {
    if entries != [] {
      assert !Covers(entries[0], id);
      assert forall k :: 0 <= k < |entries| - 1 ==> entries[1..][k] == entries[k + 1];
      MapIdUncovered(entries[1..], id);
    }
  }

  /* ---------------- the binary search ---------------- */

  datatype Search = Found(idx: nat) | NotFound(idx: nat)

  /** `binary_search_by` with the comparator of `lookup`: an entry starting
      after `id` is Greater, one ending at or before `id` is Less, and one
      covering `id` is Equal. `NotFound(i)` is the insertion point. */
  method BinarySearch(entries: seq<Entry>, id: nat) returns (r: Search)
    requires WellFormed(entries)
    ensures r.Found? ==> r.idx < |entries| && Covers(entries[r.idx], id)
    ensures r.NotFound? ==> r.idx <= |entries|
    ensures r.NotFound? ==> forall k :: 0 <= k < r.idx ==> entries[k].src + entries[k].len <= id
    ensures r.NotFound? ==> forall k :: r.idx <= k < |entries| ==> entries[k].src > id
  {
    var lo, hi := 0, |entries|;
    while lo < hi
      invariant 0 <= lo <= hi <= |entries|
      invariant forall k :: 0 <= k < lo ==> entries[k].src + entries[k].len <= id
      invariant forall k :: hi <= k < |entries| ==> entries[k].src > id
    {
      var mid := (lo + hi) / 2;
      var item := entries[mid];
      if item.src > id {
        hi := mid;
      } else if item.src + item.len <= id {
        lo := mid + 1;
      } else {
        return Found(mid);
      }
    }
    r := NotFound(lo);
  }

  /** `Map::lookup`: the binary search agrees with the reference meaning. */
  method Lookup(entries: seq<Entry>, id: nat) returns (r: nat)
    requires WellFormed(entries)
    ensures r == MapId(entries, id)
    ensures (forall k :: 0 <= k < |entries| ==> !Covers(entries[k], id)) ==> r == id
  {
    var m := BinarySearch(entries, id);
    match m {
      case Found(idx) =>
        var item := entries[idx];
        MapIdCovered(entries, idx, id);
        r := item.dst + (id - item.src);
      case NotFound(_) =>
        MapIdUncovered(entries, id);
        r := id;
    }
  }

  /** From `from` on, `n` consecutive ids map to consecutive ids from `to`. */
  ghost predicate MapsLinearly(entries: seq<Entry>, from: nat, to: nat, n: nat) {
    forall x :: from <= x < from + n ==> MapId(entries, x) == to + (x - from)
  }

  /** `Map::lookup_len`: the image of `id` and how many ids from `id` on map
      linearly with it: the rest of the covering entry, the gap up to the
      next entry, or `Id::MAX` past the last entry. */
  method LookupLen(entries: seq<Entry>, id: nat) returns (newId: nat, count: nat)
    requires WellFormed(entries)
    ensures newId == MapId(entries, id)
    ensures count >= 1
    ensures MapsLinearly(entries, id, newId, count)
    ensures (forall k :: 0 <= k < |entries| ==> entries[k].src + entries[k].len <= id) ==> count == IdMax
    ensures (exists k :: 0 <= k < |entries| && entries[k].src + entries[k].len > id) ==>
      exists k :: 0 <= k < |entries| &&
        (id + count == entries[k].src || id + count == entries[k].src + entries[k].len)
  {
    var m := BinarySearch(entries, id);
    match m {
      case Found(idx) =>
        var item := entries[idx];
        var offset := id - item.src;
        newId := item.dst + offset;
        count := item.len - offset;
        MapIdCovered(entries, idx, id);
        forall x | id <= x < id + count
          ensures MapId(entries, x) == newId + (x - id)
        {
          MapIdCovered(entries, idx, x);
        }
      case NotFound(idx) =>
        MapIdUncovered(entries, id);
        newId := id;
        if idx == |entries| {
          count := IdMax;
          forall x | id <= x < id + count
            ensures MapId(entries, x) == newId + (x - id)
          {
            MapIdUncovered(entries, x);
          }
        } else {
          count := entries[idx].src - id;
          forall x | id <= x < id + count
            ensures MapId(entries, x) == newId + (x - id)
          {
            forall k | 0 <= k < |entries|
              ensures !Covers(entries[k], x)
            {
              if k >= idx && k != idx {
                assert entries[k] == entries[idx] || entries[idx].src + entries[idx].len <= entries[k].src;
              }
            }
            MapIdUncovered(entries, x);
          }
        }
    }
  }

  /* ---------------- splitting ranges ---------------- */

  /** The total length of a list of (start, length) ranges. */
  function SumLens(rs: seq<(nat, nat)>): nat
    decreases |rs|
  {
    if rs == [] then 0 else SumLens(rs[..|rs| - 1]) + rs[|rs| - 1].1
  }

  lemma {:induction false} SumLensAppend(a: seq<(nat, nat)>, b: seq<(nat, nat)>)
    ensures SumLens(a + b) == SumLens(a) + SumLens(b)
    decreases |b|
  {
    if b != [] {
      assert (a + b)[..|a + b| - 1] == a + b[..|b| - 1];
      SumLensAppend(a, b[..|b| - 1]);
    } else {
      assert a + b == a;
    }
  }

  /** Each piece is non-empty, and the map sends the block of the range at
      the piece's offset linearly onto it. */
  ghost predicate PiecesMapLinearly(entries: seq<Entry>, start: nat, pieces: seq<(nat, nat)>) {
    forall k :: 0 <= k < |pieces| ==>
      pieces[k].1 >= 1 && MapsLinearly(entries, start + SumLens(pieces[..k]), pieces[k].0, pieces[k].1)
  }

  /** `pieces` cut [start, start + len) into consecutive non-empty blocks, in
      order, each of which the map sends linearly onto its piece. */
  ghost predicate IsSplit(entries: seq<Entry>, start: nat, len: nat, pieces: seq<(nat, nat)>) {
    SumLens(pieces) == len && PiecesMapLinearly(entries, start, pieces)
  }

  lemma SplitStep(entries: seq<Entry>, start: nat, pieces: seq<(nat, nat)>, newId: nat, n: nat)
    requires PiecesMapLinearly(entries, start, pieces)
    requires n >= 1 && MapsLinearly(entries, start + SumLens(pieces), newId, n)
    ensures PiecesMapLinearly(entries, start, pieces + [(newId, n)])
  {
    var next := pieces + [(newId, n)];
    forall k | 0 <= k < |next|
      ensures next[k].1 >= 1 && MapsLinearly(entries, start + SumLens(next[..k]), next[k].0, next[k].1)
    {
      PieceOf(entries, start, pieces, newId, n, k);
    }
  }

  lemma SumLensSnoc(rs: seq<(nat, nat)>, r: (nat, nat))
    ensures SumLens(rs + [r]) == SumLens(rs) + r.1
  {
    assert (rs + [r])[..|rs|] == rs;
  }

  lemma PieceOf(entries: seq<Entry>, start: nat, pieces: seq<(nat, nat)>, newId: nat, n: nat, k: nat)
    requires PiecesMapLinearly(entries, start, pieces)
    requires n >= 1 && MapsLinearly(entries, start + SumLens(pieces), newId, n)
    requires k <= |pieces|
    ensures var next := pieces + [(newId, n)];
            next[k].1 >= 1 && MapsLinearly(entries, start + SumLens(next[..k]), next[k].0, next[k].1)
  {
    var next := pieces + [(newId, n)];
    if k < |pieces| {
      assert next[..k] == pieces[..k] && next[k] == pieces[k];
    } else {
      assert next[..k] == pieces;
    }
  }

  /** The inner loop of `map_to_multiple`: walk one range, cutting it at every
      boundary `lookup_len` reports. */
  method SplitRange(entries: seq<Entry>, start: nat, startLen: nat) returns (pieces: seq<(nat, nat)>)
    requires WellFormed(entries)
    ensures IsSplit(entries, start, startLen, pieces)
  {
    pieces := [];
    var id := start;
    var len := startLen;
    while id < start + startLen
      invariant start <= id <= start + startLen
      invariant id == start + SumLens(pieces)
      invariant len == start + startLen - id
      invariant PiecesMapLinearly(entries, start, pieces)
      decreases len
    {
      var newId, mappedLen := LookupLen(entries, id);
      var overlap := if len < mappedLen then len else mappedLen;
      assert MapsLinearly(entries, id, newId, overlap);
      SplitStep(entries, start, pieces, newId, overlap);
      SumLensSnoc(pieces, (newId, overlap));
      pieces := pieces + [(newId, overlap)];
      id := id + overlap;
      len := len - overlap;
    }
  }

  /** `x` lies in one of the ranges. */
  ghost predicate InRanges(x: nat, rs: seq<(nat, nat)>) {
    exists k :: 0 <= k < |rs| && rs[k].0 <= x < rs[k].0 + rs[k].1
  }

  lemma InRangesAppend(x: nat, a: seq<(nat, nat)>, b: seq<(nat, nat)>)
    ensures InRanges(x, a + b) <==> InRanges(x, a) || InRanges(x, b)
  {
    if InRanges(x, a + b) {
      var k :| 0 <= k < |a + b| && (a + b)[k].0 <= x < (a + b)[k].0 + (a + b)[k].1;
      if k >= |a| { assert b[k - |a|] == (a + b)[k]; }
    }
    if InRanges(x, b) {
      var k :| 0 <= k < |b| && b[k].0 <= x < b[k].0 + b[k].1;
      assert (a + b)[k + |a|] == b[k];
    }
    if InRanges(x, a) {
      var k :| 0 <= k < |a| && a[k].0 <= x < a[k].0 + a[k].1;
      assert (a + b)[k] == a[k];
    }
  }

  lemma SplitPrefix(entries: seq<Entry>, start: nat, len: nat, pieces: seq<(nat, nat)>)
    requires pieces != [] && IsSplit(entries, start, len, pieces)
    ensures IsSplit(entries, start, len - pieces[|pieces| - 1].1, pieces[..|pieces| - 1])
  {
    var init := pieces[..|pieces| - 1];
    assert pieces[|pieces| - 1].1 >= 1;
    assert forall k :: 0 <= k < |init| ==> init[..k] == pieces[..k] && init[k] == pieces[k];
  }

  /** Every id of the split range has its image in one of the pieces. */
  lemma {:induction false} SplitCovers(entries: seq<Entry>, start: nat, len: nat, pieces: seq<(nat, nat)>, x: nat)
    requires IsSplit(entries, start, len, pieces)
    requires start <= x < start + len
    ensures InRanges(MapId(entries, x), pieces)
    decreases |pieces|
  {
    var n := |pieces| - 1;
    var last := pieces[n];
    var init := pieces[..n];
    SplitPrefix(entries, start, len, pieces);
    if x >= start + SumLens(init) {
      assert MapsLinearly(entries, start + SumLens(pieces[..n]), last.0, last.1);
      assert MapId(entries, x) == last.0 + (x - start - SumLens(init));
    } else {
      SplitCovers(entries, start, len - last.1, init, x);
      var k :| 0 <= k < |init| && init[k].0 <= MapId(entries, x) < init[k].0 + init[k].1;
      assert pieces[k] == init[k];
    }
  }

  lemma InRangesInit(y: nat, pieces: seq<(nat, nat)>)
    requires InRanges(y, pieces) && pieces != []
    requires !(pieces[|pieces| - 1].0 <= y < pieces[|pieces| - 1].0 + pieces[|pieces| - 1].1)
    ensures InRanges(y, pieces[..|pieces| - 1])
  {
    var k :| 0 <= k < |pieces| && pieces[k].0 <= y < pieces[k].0 + pieces[k].1;
    assert pieces[..|pieces| - 1][k] == pieces[k];
  }

  /** Every id in a piece is the image of an id of the split range. */
  lemma {:induction false} SplitImages(entries: seq<Entry>, start: nat, len: nat, pieces: seq<(nat, nat)>, y: nat)
    requires IsSplit(entries, start, len, pieces)
    requires InRanges(y, pieces)
    ensures exists x: nat :: start <= x < start + len && MapId(entries, x) == y
    decreases |pieces|
  {
    var n := |pieces| - 1;
    var last := pieces[n];
    var init := pieces[..n];
    SplitPrefix(entries, start, len, pieces);
    if last.0 <= y < last.0 + last.1 {
      var x := start + SumLens(init) + (y - last.0);
      assert MapsLinearly(entries, start + SumLens(pieces[..n]), last.0, last.1);
      assert MapId(entries, x) == y;
    } else {
      InRangesInit(y, pieces);
      SplitImages(entries, start, len - last.1, init, y);
      var x: nat :| start <= x < start + len - last.1 && MapId(entries, x) == y;
    }
  }

  /** One stage of `map_to_multiple`: every range split through one map. */
  method MapRanges(entries: seq<Entry>, ranges: seq<(nat, nat)>) returns (out: seq<(nat, nat)>)
    requires WellFormed(entries)
    ensures SumLens(out) == SumLens(ranges)
    ensures forall k :: 0 <= k < |out| ==> out[k].1 >= 1
    ensures IsImage(entries, ranges, out)
  {
    out := [];
    var i := 0;
    while i < |ranges|
      invariant 0 <= i <= |ranges|
      invariant SumLens(out) == SumLens(ranges[..i])
      invariant forall k :: 0 <= k < |out| ==> out[k].1 >= 1
      invariant IsImage(entries, ranges[..i], out)
    {
      var (start, startLen) := ranges[i];
      var pieces := SplitRange(entries, start, startLen);
      var prefix := ranges[..i];
      assert ranges[..i + 1] == prefix + [ranges[i]];
      SumLensAppend(out, pieces);
      SumLensAppend(prefix, [ranges[i]]);
      assert SumLens([ranges[i]]) == startLen by {
        var one: seq<(nat, nat)> := [ranges[i]];
        assert one[..0] == [];
      }
      forall x: nat | InRanges(x, ranges[..i + 1])
        ensures InRanges(MapId(entries, x), out + pieces)
      {
        InRangesAppend(x, prefix, [ranges[i]]);
        InRangesAppend(MapId(entries, x), out, pieces);
        if !InRanges(x, prefix) {
          SplitCovers(entries, start, startLen, pieces, x);
        }
      }
      forall y: nat | InRanges(y, out + pieces)
        ensures exists x: nat :: InRanges(x, ranges[..i + 1]) && MapId(entries, x) == y
      {
        InRangesAppend(y, out, pieces);
        if InRanges(y, out) {
          var x: nat :| InRanges(x, prefix) && MapId(entries, x) == y;
          InRangesAppend(x, prefix, [ranges[i]]);
        } else {
          SplitImages(entries, start, startLen, pieces, y);
          var x: nat :| start <= x < start + startLen && MapId(entries, x) == y;
          assert [ranges[i]][0] == (start, startLen);
          assert InRanges(x, [ranges[i]]);
          InRangesAppend(x, prefix, [ranges[i]]);
        }
      }
      out := out + pieces;
      i := i + 1;
    }
    assert ranges[..i] == ranges;
  }

  /* ---------------- following the chain of maps ---------------- */

  datatype Map = Map(source: string, dest: string, entries: seq<Entry>)

  /** How a walk along the maps ends: at the target category, at a category
      with no map (the source's `unwrap` panics), or still going when the
      step bound runs out (the source would loop for ever on a cycle). */
  datatype Outcome<T> = Done(value: T) | MissingMap(name: string) | OutOfFuel

  ghost predicate AllWellFormed(maps: map<string, Map>) {
    forall t :: t in maps ==> WellFormed(maps[t].entries)
  }

  /** The reference chain: from category `cur`, apply maps until `target`. */
  function Walk(maps: map<string, Map>, cur: string, target: string, id: nat, fuel: nat): Outcome<nat>
    decreases fuel
  {
    if cur == target then Done(id)
    else if fuel == 0 then OutOfFuel
    else if cur !in maps then MissingMap(cur)
    else Walk(maps, maps[cur].dest, target, MapId(maps[cur].entries, id), fuel - 1)
  }

  /** Whether a walk finishes does not depend on the id being walked. */
  lemma {:induction false} WalkShape(maps: map<string, Map>, cur: string, target: string, a: nat, b: nat, fuel: nat)
    ensures Walk(maps, cur, target, a, fuel).Done? <==> Walk(maps, cur, target, b, fuel).Done?
    ensures !Walk(maps, cur, target, a, fuel).Done? ==>
      Walk(maps, cur, target, a, fuel) == Walk(maps, cur, target, b, fuel)
    decreases fuel
  {
    if cur != target && fuel > 0 && cur in maps {
      var m := maps[cur];
      WalkShape(maps, m.dest, target, MapId(m.entries, a), MapId(m.entries, b), fuel - 1);
    }
  }

  /** `Data::map_to`: follow `dest` from "seed" until the target category,
      looking each id up on the way (at most `fuel` maps). */
  method MapTo(maps: map<string, Map>, target: string, seed: nat, fuel: nat) returns (r: Outcome<nat>)
    requires AllWellFormed(maps)
    ensures r == Walk(maps, "seed", target, seed, fuel)
  {
    var cur := "seed";
    var id := seed;
    var f := fuel;
    while cur != target
      invariant Walk(maps, cur, target, id, f) == Walk(maps, "seed", target, seed, fuel)
      decreases f
    {
      if f == 0 {
        return OutOfFuel;
      }
      if cur !in maps {
        return MissingMap(cur);
      }
      var map_ := maps[cur];
      var newId := Lookup(map_.entries, id);
      cur := map_.dest;
      id := newId;
      f := f - 1;
    }
    r := Done(id);
  }

  /** Among the current ranges there is an id whose walk from `cur` ends
      where the walk of seed `x` ends. */
  ghost predicate TracksSeed(maps: map<string, Map>, target: string, fuel: nat,
                             cur: string, f: nat, ranges: seq<(nat, nat)>, x: nat) {
    exists y: nat :: InRanges(y, ranges) && Walk(maps, "seed", target, x, fuel) == Walk(maps, cur, target, y, f)
  }

  /** Some seed of [seed, seed + count) ends where `y`'s walk from `cur` ends. */
  ghost predicate StandsForSeed(maps: map<string, Map>, target: string, seed: nat, count: nat, fuel: nat,
                                cur: string, f: nat, y: nat) {
    exists x: nat :: seed <= x < seed + count && Walk(maps, "seed", target, x, fuel) == Walk(maps, cur, target, y, f)
  }

  /** Every seed of [seed, seed + count) is tracked by the current ranges. */
  ghost predicate Forward(maps: map<string, Map>, target: string, seed: nat, count: nat, fuel: nat,
                          cur: string, f: nat, ranges: seq<(nat, nat)>) {
    forall x: nat :: seed <= x < seed + count ==> TracksSeed(maps, target, fuel, cur, f, ranges, x)
  }

  /** Every id of the current ranges stands for some seed of [seed, seed + count). */
  ghost predicate Backward(maps: map<string, Map>, target: string, seed: nat, count: nat, fuel: nat,
                           cur: string, f: nat, ranges: seq<(nat, nat)>) {
    forall y: nat :: InRanges(y, ranges) ==> StandsForSeed(maps, target, seed, count, fuel, cur, f, y)
  }

  /** `out` holds exactly the images of the ids in `ranges`. */
  ghost predicate IsImage(entries: seq<Entry>, ranges: seq<(nat, nat)>, out: seq<(nat, nat)>) {
    (forall x: nat :: InRanges(x, ranges) ==> InRanges(MapId(entries, x), out)) &&
    (forall y: nat :: InRanges(y, out) ==> exists x: nat :: InRanges(x, ranges) && MapId(entries, x) == y)
  }

  /** One step of a walk that has not arrived. */
  lemma WalkUnfold(maps: map<string, Map>, cur: string, target: string, id: nat, f: nat)
    requires cur != target && f > 0 && cur in maps
    ensures Walk(maps, cur, target, id, f) ==
      Walk(maps, maps[cur].dest, target, MapId(maps[cur].entries, id), f - 1)
  {
  }

  /** One stage of the chain keeps the seeds-to-ranges correspondence. */
  lemma StageForward(maps: map<string, Map>, target: string, seed: nat, count: nat, fuel: nat,
                     cur: string, f: nat, ranges: seq<(nat, nat)>, newRanges: seq<(nat, nat)>)
    requires cur != target && f > 0 && cur in maps
    requires IsImage(maps[cur].entries, ranges, newRanges)
    requires Forward(maps, target, seed, count, fuel, cur, f, ranges)
    ensures Forward(maps, target, seed, count, fuel, maps[cur].dest, f - 1, newRanges)
  {
    var m := maps[cur];
    var g: nat := f - 1;
    forall x: nat | seed <= x < seed + count
      ensures TracksSeed(maps, target, fuel, m.dest, g, newRanges, x)
    {
      assert TracksSeed(maps, target, fuel, cur, f, ranges, x);
      var y: nat :| InRanges(y, ranges) && Walk(maps, "seed", target, x, fuel) == Walk(maps, cur, target, y, f);
      WalkUnfold(maps, cur, target, y, f);
      var z: nat := MapId(m.entries, y);
      assert InRanges(z, newRanges);
    }
  }

  /** One stage of the chain keeps the ranges-to-seeds correspondence. */
  lemma StageBackward(maps: map<string, Map>, target: string, seed: nat, count: nat, fuel: nat,
                      cur: string, f: nat, ranges: seq<(nat, nat)>, newRanges: seq<(nat, nat)>)
    requires cur != target && f > 0 && cur in maps
    requires IsImage(maps[cur].entries, ranges, newRanges)
    requires Backward(maps, target, seed, count, fuel, cur, f, ranges)
    ensures Backward(maps, target, seed, count, fuel, maps[cur].dest, f - 1, newRanges)
  {
    var m := maps[cur];
    var g: nat := f - 1;
    forall z: nat | InRanges(z, newRanges)
      ensures StandsForSeed(maps, target, seed, count, fuel, m.dest, g, z)
    {
      var y: nat :| InRanges(y, ranges) && MapId(m.entries, y) == z;
      assert StandsForSeed(maps, target, seed, count, fuel, cur, f, y);
      var x: nat :| seed <= x < seed + count && Walk(maps, "seed", target, x, fuel) == Walk(maps, cur, target, y, f);
      WalkUnfold(maps, cur, target, y, f);
    }
  }

  /** `y` is where the walk of some seed of [seed, seed + count) ends. */
  ghost predicate ImageOfSeed(maps: map<string, Map>, target: string, seed: nat, count: nat, fuel: nat, y: nat) {
    exists x: nat :: seed <= x < seed + count && Walk(maps, "seed", target, x, fuel) == Done(y)
  }

  /** `Data::map_to_multiple`: carry a whole range of seeds through the same
      chain, splitting ranges as the maps require. */
  method MapToMultiple(maps: map<string, Map>, target: string, seed: nat, count: nat, fuel: nat)
    returns (r: Outcome<seq<(nat, nat)>>)
    requires AllWellFormed(maps)
    ensures r.Done? <==> Walk(maps, "seed", target, seed, fuel).Done?
    ensures r.MissingMap? ==> Walk(maps, "seed", target, seed, fuel) == MissingMap(r.name)
    ensures r.OutOfFuel? ==> Walk(maps, "seed", target, seed, fuel).OutOfFuel?
    ensures r.Done? ==> SumLens(r.value) == count
    ensures r.Done? && target != "seed" ==> forall k :: 0 <= k < |r.value| ==> r.value[k].1 >= 1
    ensures r.Done? ==> forall x: nat :: seed <= x < seed + count ==>
      Walk(maps, "seed", target, x, fuel).Done? && InRanges(Walk(maps, "seed", target, x, fuel).value, r.value)
    ensures r.Done? ==> forall y: nat :: InRanges(y, r.value) ==> ImageOfSeed(maps, target, seed, count, fuel, y)
  {
    var cur := "seed";
    var ranges: seq<(nat, nat)> := [(seed, count)];
    var f := fuel;
    ghost var g := seed;
    ghost var moved := false;
    assert SumLens(ranges) == count by { assert ranges[..0] == []; }
    forall x: nat | seed <= x < seed + count
      ensures TracksSeed(maps, target, fuel, cur, f, ranges, x)
    {
      assert InRanges(x, ranges);
    }
    forall y: nat | InRanges(y, ranges)
      ensures StandsForSeed(maps, target, seed, count, fuel, cur, f, y)
    {
      var k :| 0 <= k < |ranges| && ranges[k].0 <= y < ranges[k].0 + ranges[k].1;
      assert k == 0;
      assert seed <= y < seed + count && Walk(maps, "seed", target, y, fuel) == Walk(maps, cur, target, y, f);
    }
    while cur != target
      invariant Walk(maps, cur, target, g, f) == Walk(maps, "seed", target, seed, fuel)
      invariant SumLens(ranges) == count
      invariant moved ==> forall k :: 0 <= k < |ranges| ==> ranges[k].1 >= 1
      invariant !moved ==> cur == "seed"
      invariant Forward(maps, target, seed, count, fuel, cur, f, ranges)
      invariant Backward(maps, target, seed, count, fuel, cur, f, ranges)
      decreases f
    {
      if f == 0 {
        return OutOfFuel;
      }
      if cur !in maps {
        return MissingMap(cur);
      }
      var map_ := maps[cur];
      var newRanges := MapRanges(map_.entries, ranges);
      StageForward(maps, target, seed, count, fuel, cur, f, ranges, newRanges);
      StageBackward(maps, target, seed, count, fuel, cur, f, ranges, newRanges);
      cur := map_.dest;
      ranges := newRanges;
      g := MapId(map_.entries, g);
      f := f - 1;
      moved := true;
    }
    r := Done(ranges);
    forall x: nat | seed <= x < seed + count
      ensures Walk(maps, "seed", target, x, fuel).Done? && InRanges(Walk(maps, "seed", target, x, fuel).value, ranges)
    {
      assert TracksSeed(maps, target, fuel, cur, f, ranges, x);
    }
    forall y: nat | InRanges(y, ranges)
      ensures ImageOfSeed(maps, target, seed, count, fuel, y)
    {
      assert StandsForSeed(maps, target, seed, count, fuel, cur, f, y);
      var x: nat :| seed <= x < seed + count && Walk(maps, "seed", target, x, fuel) == Walk(maps, cur, target, y, f);
      assert Walk(maps, "seed", target, x, fuel) == Done(y);
    }
    WalkShape(maps, "seed", target, seed, seed, fuel);
  }

  /* ---------------- parts 1 and 2 ---------------- */

  /** The location of a seed, when its walk ends there. */
  ghost predicate LocatesTo(maps: map<string, Map>, fuel: nat, x: nat, v: nat) {
    Walk(maps, "seed", "location", x, fuel) == Done(v)
  }

  /** `part1`: the least location of the listed seeds; no seeds, or a walk
      that does not finish, is an error. */
  method Part1(maps: map<string, Map>, seeds: seq<nat>, fuel: nat) returns (r: Option<nat>)
    requires AllWellFormed(maps)
    ensures r.None? <==> (|seeds| == 0 ||
      exists i :: 0 <= i < |seeds| && !Walk(maps, "seed", "location", seeds[i], fuel).Done?)
    ensures r.Some? ==> forall i :: 0 <= i < |seeds| ==>
      Walk(maps, "seed", "location", seeds[i], fuel).Done? &&
      r.value <= Walk(maps, "seed", "location", seeds[i], fuel).value
    ensures r.Some? ==> exists i :: 0 <= i < |seeds| && LocatesTo(maps, fuel, seeds[i], r.value)
  {
    if |seeds| == 0 {
      return None;
    }
    var best: nat := 0;
    var i := 0;
    while i < |seeds|
      invariant 0 <= i <= |seeds|
      invariant forall k :: 0 <= k < i ==>
        Walk(maps, "seed", "location", seeds[k], fuel).Done? &&
        best <= Walk(maps, "seed", "location", seeds[k], fuel).value
      invariant i > 0 ==> exists k :: 0 <= k < i && LocatesTo(maps, fuel, seeds[k], best)
    {
      var loc := MapTo(maps, "location", seeds[i], fuel);
      if !loc.Done? {
        return None;
      }
      if i == 0 || loc.value < best {
        best := loc.value;
      }
      assert LocatesTo(maps, fuel, seeds[i], loc.value);
      i := i + 1;
    }
    r := Some(best);
  }

  /** The seed ranges: consecutive (start, count) pairs of the seed list. */
  function Pairs(seeds: seq<nat>): (ps: seq<(nat, nat)>)
    ensures |ps| == |seeds| / 2
    ensures forall q :: 0 <= q < |ps| ==> ps[q] == (seeds[2 * q], seeds[2 * q + 1])
  {
    seq(|seeds| / 2, q requires 0 <= q < |seeds| / 2 => (seeds[2 * q], seeds[2 * q + 1]))
  }

  /** The least start of a non-empty list of ranges. */
  function MinStart(rs: seq<(nat, nat)>): (m: nat)
    requires |rs| > 0
    ensures forall k :: 0 <= k < |rs| ==> m <= rs[k].0
    ensures exists k :: 0 <= k < |rs| && m == rs[k].0
    decreases |rs|
  {
    if |rs| == 1 then rs[0].0
    else
      var rest := MinStart(rs[1..]);
      assert forall k :: 1 <= k < |rs| ==> rs[k] == rs[1..][k - 1];
      if rs[0].0 <= rest then rs[0].0 else rest
  }

  /** With no empty ranges, the least start is the least id in the ranges. */
  lemma MinStartIsLeast(rs: seq<(nat, nat)>)
    requires |rs| > 0 && forall k :: 0 <= k < |rs| ==> rs[k].1 >= 1
    ensures InRanges(MinStart(rs), rs)
    ensures forall y :: InRanges(y, rs) ==> MinStart(rs) <= y
  {
    var k :| 0 <= k < |rs| && MinStart(rs) == rs[k].0;
    assert rs[k].0 <= MinStart(rs) < rs[k].0 + rs[k].1;
  }

  /** A seed range fails when its walk does not finish or it is empty (the
      source's `min().unwrap()` on no ranges). */
  ghost predicate PairFails(maps: map<string, Map>, fuel: nat, p: (nat, nat)) {
    !Walk(maps, "seed", "location", p.0, fuel).Done? || p.1 == 0
  }

  /** The least location of one seed range: the lowest start among the
      ranges `map_to_multiple` returns. */
  method RangeMin(maps: map<string, Map>, seed: nat, seedCount: nat, fuel: nat) returns (least: Option<nat>, ghost x0: nat)
    requires AllWellFormed(maps)
    ensures least.None? <==> PairFails(maps, fuel, (seed, seedCount))
    ensures least.Some? ==> seed <= x0 < seed + seedCount && LocatesTo(maps, fuel, x0, least.value)
    ensures least.Some? ==> forall x: nat :: seed <= x < seed + seedCount ==>
      Walk(maps, "seed", "location", x, fuel).Done? && least.value <= Walk(maps, "seed", "location", x, fuel).value
  {
    x0 := seed;
    var newLocs := MapToMultiple(maps, "location", seed, seedCount, fuel);
    if !newLocs.Done? || |newLocs.value| == 0 {
      if newLocs.Done? {
        assert seedCount == 0 by { assert newLocs.value == []; }
      }
      return None, x0;
    }
    var rs := newLocs.value;
    MinStartIsLeast(rs);
    var newMin := MinStart(rs);
    assert seedCount != 0 by {
      assert rs[0].1 >= 1;
      SumLensAppend(rs[..|rs| - 1], [rs[|rs| - 1]]);
      assert rs[..|rs| - 1] + [rs[|rs| - 1]] == rs;
    }
    x0 :| seed <= x0 < seed + seedCount && Walk(maps, "seed", "location", x0, fuel) == Done(newMin);
    least := Some(newMin);
  }

  /** `part2`: the least location over all seed ranges, starting from
      `Id::MAX`; an odd seed list, or a failing range, is an error. */
  method Part2(maps: map<string, Map>, seeds: seq<nat>, fuel: nat) returns (r: Option<nat>)
    requires AllWellFormed(maps)
    ensures r.None? <==> (|seeds| % 2 == 1 ||
      exists q :: 0 <= q < |Pairs(seeds)| && PairFails(maps, fuel, Pairs(seeds)[q]))
    ensures r.Some? ==> r.value <= IdMax
    ensures r.Some? ==> forall q, x: nat :: 0 <= q < |Pairs(seeds)| && Pairs(seeds)[q].0 <= x < Pairs(seeds)[q].0 + Pairs(seeds)[q].1 ==>
      Walk(maps, "seed", "location", x, fuel).Done? && r.value <= Walk(maps, "seed", "location", x, fuel).value
    ensures r.Some? && r.value < IdMax ==> exists x: nat :: (LocatesTo(maps, fuel, x, r.value) &&
      exists q :: 0 <= q < |Pairs(seeds)| && Pairs(seeds)[q].0 <= x < Pairs(seeds)[q].0 + Pairs(seeds)[q].1)
  {
    var ps := Pairs(seeds);
    var minLoc: nat := IdMax;
    var q := 0;
    while q < |ps|
      invariant 0 <= q <= |ps|
      invariant minLoc <= IdMax
      invariant forall p :: 0 <= p < q ==> !PairFails(maps, fuel, ps[p])
      invariant forall p, x: nat :: 0 <= p < q && ps[p].0 <= x < ps[p].0 + ps[p].1 ==>
        Walk(maps, "seed", "location", x, fuel).Done? && minLoc <= Walk(maps, "seed", "location", x, fuel).value
      invariant minLoc < IdMax ==> exists x: nat :: (LocatesTo(maps, fuel, x, minLoc) &&
        exists p :: 0 <= p < q && ps[p].0 <= x < ps[p].0 + ps[p].1)
    {
      var (seed, seedCount) := ps[q];
      var least, x0 := RangeMin(maps, seed, seedCount, fuel);
      if least.None? {
        return None;
      }
      var newMin := least.value;
      if newMin < minLoc {
        minLoc := newMin;
        assert LocatesTo(maps, fuel, x0, minLoc);
      }
      q := q + 1;
    }
    if |seeds| % 2 == 1 {
      return None;
    }
    r := Some(minLoc);
  }

  /* ---------------- parsing a map's lines ---------------- */

  /** Lexicographic order on (source, destination, length), as `sort` on tuples. */
  predicate EntryLe(a: Entry, b: Entry) {
    a.src < b.src || (a.src == b.src && (a.dst < b.dst || (a.dst == b.dst && a.len <= b.len)))
  }

  /** One map line "dst src len" becomes the entry (src, dst, len). */
  function EntryOf(bits: seq<nat>): Entry
    requires |bits| == 3
  {
    Entry(bits[1], bits[0], bits[2])
  }

  /** Two entries cover no common id. */
  predicate Disjoint(a: Entry, b: Entry) {
    a.src + a.len <= b.src || b.src + b.len <= a.src
  }

  /** The section's lines, parsed and then sorted. */
  function ParseMap(source: string, dest: string, rows: seq<seq<nat>>): (r: Option<Map>)
    ensures r.Some? <==> forall i :: 0 <= i < |rows| ==> |rows[i]| == 3
  {
    if forall i :: 0 <= i < |rows| ==> |rows[i]| == 3 then
      var es := seq(|rows|, i requires 0 <= i < |rows| && |rows[i]| == 3 => EntryOf(rows[i]));
      Some(Map(source, dest, Sorting.SortBy(es, (a, b) => EntryLe(a, b))))
    else None
  }

  /** When the map's ranges are non-empty and pairwise disjoint, the sorted
      entries are well formed, as the binary search needs. */
  lemma ParsedMapWellFormed(source: string, dest: string, rows: seq<seq<nat>>)
    requires ParseMap(source, dest, rows).Some?
    requires forall i :: 0 <= i < |rows| ==> rows[i][2] > 0
    requires forall i, j :: 0 <= i < j < |rows| ==>
      rows[i] == rows[j] || Disjoint(EntryOf(rows[i]), EntryOf(rows[j]))
    ensures WellFormed(ParseMap(source, dest, rows).value.entries)
  {
    var es := seq(|rows|, i requires 0 <= i < |rows| && |rows[i]| == 3 => EntryOf(rows[i]));
    var le := (a, b) => EntryLe(a, b);
    assert ParseMap(source, dest, rows).value.entries == Sorting.SortBy(es, le);
    SortedWellFormed(rows, es, le);
  }

  /** Sorting the entries of pairwise disjoint rows by source start gives a
      well-formed map. */
  lemma SortedWellFormed(rows: seq<seq<nat>>, es: seq<Entry>, le: (Entry, Entry) -> bool)
    requires |es| == |rows|
    requires forall i :: 0 <= i < |rows| ==> |rows[i]| == 3 && es[i] == EntryOf(rows[i])
    requires forall i :: 0 <= i < |rows| ==> rows[i][2] > 0
    requires forall i, j :: 0 <= i < j < |rows| ==>
      rows[i] == rows[j] || Disjoint(EntryOf(rows[i]), EntryOf(rows[j]))
    requires forall a, b :: le(a, b) == EntryLe(a, b)
    ensures WellFormed(Sorting.SortBy(es, le))
  {
    EntryLeOrders(le);
    Sorting.SortBySortsAndPermutes(es, le);
    var s := Sorting.SortBy(es, le);
    forall i, j | 0 <= i < j < |s|
      ensures s[i] == s[j] || s[i].src + s[i].len <= s[j].src
    {
      assert le(s[i], s[j]);
      assert s[i] in multiset(s) && s[j] in multiset(s);
      PairOrdered(rows, es, s[i], s[j]);
    }
  }

  lemma EntryLeOrders(le: (Entry, Entry) -> bool)
    requires forall a, b :: le(a, b) == EntryLe(a, b)
    ensures Sorting.TotalPreorder(le)
  {
    forall a, b, c | le(a, b) && le(b, c)
      ensures le(a, c)
    {
      assert EntryLe(a, b) && EntryLe(b, c);
    }
  }

  /** Two entries of pairwise disjoint rows, in sorted order, do not overlap. */
  lemma PairOrdered(rows: seq<seq<nat>>, es: seq<Entry>, x: Entry, y: Entry)
    requires |es| == |rows|
    requires forall i :: 0 <= i < |rows| ==> |rows[i]| == 3 && es[i] == EntryOf(rows[i])
    requires forall i :: 0 <= i < |rows| ==> rows[i][2] > 0
    requires forall i, j :: 0 <= i < j < |rows| ==>
      rows[i] == rows[j] || Disjoint(EntryOf(rows[i]), EntryOf(rows[j]))
    requires x in multiset(es) && y in multiset(es) && EntryLe(x, y)
    ensures x == y || x.src + x.len <= y.src
  {
    var a :| 0 <= a < |es| && es[a] == x;
    var b :| 0 <= b < |es| && es[b] == y;
    if x != y {
      RowsDisjoint(rows, es, a, b);
      OrderedDisjoint(x, y);
    }
  }

  /** Distinct entries of pairwise disjoint rows are disjoint. */
  lemma RowsDisjoint(rows: seq<seq<nat>>, es: seq<Entry>, a: nat, b: nat)
    requires |es| == |rows| && a < |rows| && b < |rows|
    requires forall i :: 0 <= i < |rows| ==> |rows[i]| == 3 && es[i] == EntryOf(rows[i])
    requires forall i :: 0 <= i < |rows| ==> rows[i][2] > 0
    requires forall i, j :: 0 <= i < j < |rows| ==>
      rows[i] == rows[j] || Disjoint(EntryOf(rows[i]), EntryOf(rows[j]))
    requires es[a] != es[b]
    ensures Disjoint(es[a], es[b]) && es[b].len > 0
  {
    assert rows[a] != rows[b];
    if a < b {
      assert Disjoint(EntryOf(rows[a]), EntryOf(rows[b]));
    } else {
      assert Disjoint(EntryOf(rows[b]), EntryOf(rows[a]));
    }
  }

  lemma OrderedDisjoint(x: Entry, y: Entry)
    requires EntryLe(x, y) && Disjoint(x, y) && y.len > 0
    ensures x.src + x.len <= y.src
  {
  }
}
