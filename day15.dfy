// Day 15: the HASH algorithm and the lens boxes. A step's hash folds each
// byte into a `u16` as `((h + b) * 17) & 0xff`. In the second part each step
// either removes the lens with a name from box `hash(name)` or puts a lens
// there, replacing the focal length of one with the same name in place or
// appending it at the back.

module Day15 {
  import opened Lib

  type Byte = x: int | 0 <= x < 256

  /** The source's `u16` accumulator: arithmetic on it is checked for overflow. */
  newtype U16 = x: int | 0 <= x < 0x1_0000

  const Comma: Byte := 44
  const Minus: Byte := 45
  const Equals: Byte := 61
  const Plus: Byte := 43

  /* ---------------- hash ---------------- */

  /** The hash of a byte string, folded left to right. */
  function HashOf(s: seq<Byte>): (h: nat)
    ensures h < 256
    decreases |s|
  {
    if s == [] then 0 else ((HashOf(s[..|s| - 1]) + s[|s| - 1]) * 17) % 256
  }

  /** `hash`: the `u16` never overflows, because the accumulator is below 256
      before each step, so `(h + b) * 17 <= 510 * 17 < 65536`. */
  method Hash(s: seq<Byte>) returns (h: Byte)
    ensures h == HashOf(s)
  {
    var result: U16 := 0;
    var k := 0;
    while k < |s|
      invariant 0 <= k <= |s|
      invariant result as int == HashOf(s[..k])
    {
      assert s[..k + 1][..k] == s[..k];
      result := result + s[k] as U16;
      result := result * 17;
      result := result % 256;
      k := k + 1;
    }
    assert s[..k] == s;
    h := result as int;
  }

  /** `hash(b"HASH") == 52`. */
  lemma HashSample()
    ensures HashOf([72, 65, 83, 72]) == 52
  {
    var s: seq<Byte> := [72, 65, 83, 72];
    assert s[..3][..2][..1] == [72] && s[..3][..2] == [72, 65] && s[..3] == [72, 65, 83];
    assert HashOf([72]) == 200;
    assert HashOf([72, 65]) == 153;
    assert HashOf([72, 65, 83]) == 172;
  }

  /* ---------------- the steps ---------------- */

  predicate IsSpace(b: Byte)
  {
    b == 32 || 9 <= b <= 13
  }

  function TrimStart(s: seq<Byte>): (r: seq<Byte>)
    ensures r == [] || !IsSpace(r[0])
    ensures exists i :: 0 <= i <= |s| && r == s[i..]
    decreases |s|
  {
    if s != [] && IsSpace(s[0]) then
      var r := TrimStart(s[1..]);
      assert exists i :: 0 <= i <= |s| && r == s[i..] by {
        var i :| 0 <= i <= |s[1..]| && r == s[1..][i..];
        assert r == s[i + 1..];
      }
      r
    else
      assert s == s[0..];
      s
  }

  function TrimEnd(s: seq<Byte>): (r: seq<Byte>)
    ensures r == [] || !IsSpace(r[|r| - 1])
    ensures exists j :: 0 <= j <= |s| && r == s[..j]
    decreases |s|
  {
    if s != [] && IsSpace(s[|s| - 1]) then
      var r := TrimEnd(s[..|s| - 1]);
      assert exists j :: 0 <= j <= |s| && r == s[..j] by {
        var j :| 0 <= j <= |s| - 1 && r == s[..|s| - 1][..j];
        assert r == s[..j];
      }
      r
    else
      assert s == s[..|s|];
      s
  }

  /** `parse_input`: the trimmed text split at commas. */
  function Steps(text: seq<Byte>): (r: seq<seq<Byte>>)
    ensures |r| >= 1
  {
    Split(TrimEnd(TrimStart(text)), Comma)
  }

  function SumHashes(steps: seq<seq<Byte>>): nat
    decreases |steps|
  {
    if steps == [] then 0 else SumHashes(steps[..|steps| - 1]) + HashOf(steps[|steps| - 1])
  }

  /** Each step adds less than 256. */
  lemma {:induction false} SumHashesBound(steps: seq<seq<Byte>>)
    ensures SumHashes(steps) <= 255 * |steps|
    decreases |steps|
  {
    if steps != [] {
      SumHashesBound(steps[..|steps| - 1]);
    }
  }

  /** `part1`: the sum of the steps' hashes. */
  method Part1(steps: seq<seq<Byte>>) returns (sum: nat)
    ensures sum == SumHashes(steps)
  {
    sum := 0;
    var k := 0;
    while k < |steps|
      invariant 0 <= k <= |steps|
      invariant sum == SumHashes(steps[..k])
    {
      assert steps[..k + 1][..k] == steps[..k];
      var h := Hash(steps[k]);
      sum := sum + h;
      k := k + 1;
    }
    assert steps[..k] == steps;
  }

  /* ---------------- parsing a step ---------------- */

  datatype Insn = Remove(name: seq<Byte>) | Put(name: seq<Byte>, focal: nat)

  predicate IsDigit(b: Byte) { 48 <= b <= 57 }

  function DigitsValue(s: seq<Byte>): nat
    requires forall k :: 0 <= k < |s| ==> IsDigit(s[k])
    decreases |s|
  {
    if s == [] then 0
    else
      var last := s[|s| - 1];
      assert IsDigit(last);
      10 * DigitsValue(s[..|s| - 1]) + (last - 48)
  }

  /** The digits after an optional leading `+`. */
  function Unsigned(s: seq<Byte>): seq<Byte>
  {
    if s != [] && s[0] == Plus then s[1..] else s
  }

  predicate AllDigits(d: seq<Byte>)
  {
    forall k :: 0 <= k < |d| ==> IsDigit(d[k])
  }

  /** `str::parse::<usize>`: an optional `+` and at least one decimal digit. */
  function ParseUsize(s: seq<Byte>): (r: Option<nat>)
    ensures r.Some? <==> Unsigned(s) != [] && AllDigits(Unsigned(s))
  {
    var d := Unsigned(s);
    if d != [] && AllDigits(d) then Some(DigitsValue(d)) else None
  }

  /** The index of the first `=`, if any (`split_once('=')`). */
  function FirstIndex(s: seq<Byte>, b: Byte): (r: Option<nat>)
    ensures r.None? <==> b !in s
    ensures r.Some? ==> r.value < |s| && s[r.value] == b && b !in s[..r.value]
    decreases |s|
  {
    if s == [] then None
    else if s[0] == b then Some(0)
    else
      match FirstIndex(s[1..], b)
      case None => None
      case Some(i) =>
        assert s[..i + 1] == [s[0]] + s[1..][..i];
        Some(i + 1)
  }

  /** A step: `name-`, or `name=focal`. `None` where the source panics: no
      `=` in a step not ending in `-`, or a focal length that does not parse. */
  function ParseInsn(s: seq<Byte>): (r: Option<Insn>)
    ensures s != [] && s[|s| - 1] == Minus ==> r == Some(Remove(s[..|s| - 1]))
    ensures (s == [] || s[|s| - 1] != Minus) && Equals !in s ==> r.None?
    ensures r.Some? && r.value.Put? ==>
      (exists i :: 0 <= i < |s| && s[i] == Equals && r.value.name == s[..i] &&
        Equals !in s[..i] && ParseUsize(s[i + 1..]) == Some(r.value.focal))
  {
    if s != [] && s[|s| - 1] == Minus then Some(Remove(s[..|s| - 1]))
    else
      match FirstIndex(s, Equals)
      case None => None
      case Some(i) =>
        match ParseUsize(s[i + 1..])
        case None => None
        case Some(v) => Some(Put(s[..i], v))
  }

  /* ---------------- the boxes ---------------- */

  datatype Lens = Lens(name: seq<Byte>, focal: nat)

  /** The first slot holding a lens with this name. */
  function Find(bx: seq<Lens>, name: seq<Byte>): (r: Option<nat>)
    ensures r.None? <==> forall j :: 0 <= j < |bx| ==> bx[j].name != name
    ensures r.Some? ==> r.value < |bx| && bx[r.value].name == name
    ensures r.Some? ==> forall j :: 0 <= j < r.value ==> bx[j].name != name
    decreases |bx|
  {
    if bx == [] then None
    else if bx[0].name == name then Some(0)
    else
      match Find(bx[1..], name)
      case None => None
      case Some(i) => Some(i + 1)
  }

  /** `name-` on one box: drop the first lens with the name, if any. */
  function RemoveFrom(bx: seq<Lens>, name: seq<Byte>): seq<Lens>
  {
    match Find(bx, name)
    case None => bx
    case Some(i) => bx[..i] + bx[i + 1..]
  }

  /** `name=focal` on one box: replace the first lens with the name in
      place, or append a new one at the back. */
  function PutInto(bx: seq<Lens>, name: seq<Byte>, focal: nat): seq<Lens>
  {
    match Find(bx, name)
    case None => bx + [Lens(name, focal)]
    case Some(i) => bx[i := Lens(name, focal)]
  }

  /** Each name appears at most once in a box. */
  predicate Unique(bx: seq<Lens>)
  {
    forall i, j :: 0 <= i < j < |bx| ==> bx[i].name != bx[j].name
  }

  /** The focal length of the lens with this name, if the box holds one. */
  function FocalOf(bx: seq<Lens>, name: seq<Byte>): Option<nat>
  {
    match Find(bx, name)
    case None => None
    case Some(i) => Some(bx[i].focal)
  }

  /** The lenses without the name, in their order. */
  function Without(bx: seq<Lens>, name: seq<Byte>): seq<Lens>
    decreases |bx|
  {
    if bx == [] then []
    else (if bx[0].name == name then [] else [bx[0]]) + Without(bx[1..], name)
  }

  lemma {:induction false} WithoutAbsent(bx: seq<Lens>, name: seq<Byte>)
    requires forall j :: 0 <= j < |bx| ==> bx[j].name != name
    ensures Without(bx, name) == bx
    decreases |bx|
  {
    if bx != [] {
      WithoutAbsent(bx[1..], name);
    }
  }

  /** What is left without the name: no lens with it, only lenses that were
      there, and no repeated name if there was none before. */
  lemma {:induction false} WithoutProps(bx: seq<Lens>, name: seq<Byte>)
    ensures forall j :: 0 <= j < |Without(bx, name)| ==> Without(bx, name)[j].name != name
    ensures forall j :: 0 <= j < |Without(bx, name)| ==> Without(bx, name)[j] in bx
    ensures Unique(bx) ==> Unique(Without(bx, name))
    decreases |bx|
  {
    if bx != [] {
      WithoutProps(bx[1..], name);
      if Unique(bx) {
        assert Unique(bx[1..]);
        forall j | 0 <= j < |Without(bx[1..], name)|
          ensures Without(bx[1..], name)[j].name != bx[0].name
        {
          var x := Without(bx[1..], name)[j];
          var k :| 0 <= k < |bx[1..]| && bx[1..][k] == x;
          assert bx[k + 1] == x;
        }
      }
    }
  }

  /** On a box without repeated names, `name-` is the same as dropping every
      lens with that name, keeping the others in order. */
  lemma {:induction false} RemoveIsWithout(bx: seq<Lens>, name: seq<Byte>)
    requires Unique(bx)
    ensures RemoveFrom(bx, name) == Without(bx, name)
    decreases |bx|
  {
    if bx != [] {
      if bx[0].name == name {
        WithoutAbsent(bx[1..], name);
        assert bx[..0] + bx[1..] == bx[1..];
      } else {
        var t := bx[1..];
        assert Unique(t);
        RemoveIsWithout(t, name);
        assert Without(bx, name) == [bx[0]] + Without(t, name);
        match Find(t, name) {
          case None =>
            assert bx == [bx[0]] + t;
          case Some(i) =>
            assert bx[..i + 1] == [bx[0]] + t[..i] && bx[i + 2..] == t[i + 1..];
            assert bx[..i + 1] + bx[i + 2..] == [bx[0]] + (t[..i] + t[i + 1..]);
        }
      }
    }
  }

  /** Removing keeps the other lenses in their order and leaves no lens with
      the name behind; the box stays free of repeated names. */
  lemma RemoveSpec(bx: seq<Lens>, name: seq<Byte>)
    requires Unique(bx)
    ensures RemoveFrom(bx, name) == Without(bx, name)
    ensures Unique(RemoveFrom(bx, name))
    ensures FocalOf(RemoveFrom(bx, name), name).None?
  {
    RemoveIsWithout(bx, name);
    WithoutProps(bx, name);
  }

  /** Removing leaves every other name's focal length as it was. */
  lemma RemoveKeepsOthers(bx: seq<Lens>, name: seq<Byte>, other: seq<Byte>)
    requires Unique(bx) && other != name
    ensures FocalOf(RemoveFrom(bx, name), other) == FocalOf(bx, other)
  {
    var r := RemoveFrom(bx, name);
    match Find(bx, name) {
      case None =>
      case Some(i) =>
        assert forall j :: 0 <= j < i ==> r[j] == bx[j];
        assert forall j :: i <= j < |r| ==> r[j] == bx[j + 1];
        match Find(bx, other) {
          case None =>
          case Some(k) =>
            if k < i {
              FindFirst(r, other, k);
            } else {
              FindFirst(r, other, k - 1);
            }
        }
    }
  }

  /** Putting a lens with a name already present replaces it in its slot:
      the name now has the new focal length, every other name keeps its
      focal length, and no name is repeated. */
  lemma PutPresent(bx: seq<Lens>, name: seq<Byte>, focal: nat, other: seq<Byte>)
    requires Unique(bx) && other != name && Find(bx, name).Some?
    ensures |PutInto(bx, name, focal)| == |bx|
    ensures Find(PutInto(bx, name, focal), name) == Find(bx, name)
    ensures Unique(PutInto(bx, name, focal))
    ensures FocalOf(PutInto(bx, name, focal), name) == Some(focal)
    ensures FocalOf(PutInto(bx, name, focal), other) == FocalOf(bx, other)
  {
    var i := Find(bx, name).value;
    var r := PutInto(bx, name, focal);
    assert r == bx[i := Lens(name, focal)];
    FindFirst(r, name, i);
    match Find(bx, other) {
      case None =>
      case Some(k) =>
        FindFirst(r, other, k);
    }
  }

  /** Putting a lens with a new name appends it at the back; every other
      name keeps its focal length, and no name is repeated. */
  lemma PutAbsent(bx: seq<Lens>, name: seq<Byte>, focal: nat, other: seq<Byte>)
    requires Unique(bx) && other != name && Find(bx, name).None?
    ensures PutInto(bx, name, focal) == bx + [Lens(name, focal)]
    ensures Unique(PutInto(bx, name, focal))
    ensures FocalOf(PutInto(bx, name, focal), name) == Some(focal)
    ensures FocalOf(PutInto(bx, name, focal), other) == FocalOf(bx, other)
  {
    var r := PutInto(bx, name, focal);
    FindFirst(r, name, |bx|);
    match Find(bx, other) {
      case None =>
      case Some(k) =>
        FindFirst(r, other, k);
    }
  }

  /** The 256 boxes, all empty. */
  function EmptyBoxes(): (boxes: seq<seq<Lens>>)
    ensures |boxes| == 256
  {
    seq(256, _ => [])
  }

  /** One step applied to the boxes: only box `hash(name)` changes. */
  function Apply(boxes: seq<seq<Lens>>, insn: Insn): (r: seq<seq<Lens>>)
    requires |boxes| == 256
    ensures |r| == 256
    ensures forall b :: 0 <= b < 256 && b != HashOf(insn.name) ==> r[b] == boxes[b]
  {
    var b := HashOf(insn.name);
    match insn
    case Remove(name) => boxes[b := RemoveFrom(boxes[b], name)]
    case Put(name, focal) => boxes[b := PutInto(boxes[b], name, focal)]
  }

  function Run(insns: seq<Insn>): (r: seq<seq<Lens>>)
    ensures |r| == 256
    decreases |insns|
  {
    if insns == [] then EmptyBoxes() else Apply(Run(insns[..|insns| - 1]), insns[|insns| - 1])
  }

  /** Every box a name can reach is the box of its hash. */
  predicate InOwnBox(boxes: seq<seq<Lens>>)
    requires |boxes| == 256
  {
    forall b, j :: 0 <= b < 256 && 0 <= j < |boxes[b]| ==> HashOf(boxes[b][j].name) == b
  }

  /** Both invariants of the boxes. */
  predicate WellKept(boxes: seq<seq<Lens>>)
  {
    |boxes| == 256 && InOwnBox(boxes) && forall b :: 0 <= b < 256 ==> Unique(boxes[b])
  }

  /** The one box a step changes stays free of repeated names, and holds
      only lenses whose name hashes to it. */
  lemma StepBoxKept(bx: seq<Lens>, insn: Insn)
    requires Unique(bx) && forall j :: 0 <= j < |bx| ==> HashOf(bx[j].name) == HashOf(insn.name)
    ensures var nb := match insn
      case Remove(name) => RemoveFrom(bx, name)
      case Put(name, focal) => PutInto(bx, name, focal);
      Unique(nb) && forall j :: 0 <= j < |nb| ==> HashOf(nb[j].name) == HashOf(insn.name)
  {
    match insn {
      case Remove(name) =>
        RemoveSpec(bx, name);
        WithoutProps(bx, name);
      case Put(name, focal) =>
        if Find(bx, name).Some? {
          PutPresent(bx, name, focal, name + [0]);
        } else {
          PutAbsent(bx, name, focal, name + [0]);
        }
    }
  }

  /** One step keeps the boxes well kept. */
  lemma ApplyKeeps(boxes: seq<seq<Lens>>, insn: Insn)
    requires WellKept(boxes)
    ensures WellKept(Apply(boxes, insn))
  {
    StepBoxKept(boxes[HashOf(insn.name)], insn);
  }

  /** After any sequence of steps each box holds no name twice, and each lens
      sits in the box of its name's hash. */
  lemma {:induction false} RunInvariant(insns: seq<Insn>)
    ensures WellKept(Run(insns))
    decreases |insns|
  {
    if insns != [] {
      RunInvariant(insns[..|insns| - 1]);
      ApplyKeeps(Run(insns[..|insns| - 1]), insns[|insns| - 1]);
    }
  }

  /* ---------------- focusing power ---------------- */

  /** The power of the lenses in the first `n` slots of box `b`. */
  function BoxPower(bx: seq<Lens>, b: nat, n: nat): nat
    requires n <= |bx|
    decreases n
  {
    if n == 0 then 0 else BoxPower(bx, b, n - 1) + (b + 1) * n * bx[n - 1].focal
  }

  /** The power of the first `n` boxes: box `i`, slot `j` and focal length
      `f` contribute `(i + 1) * (j + 1) * f`. */
  function Power(boxes: seq<seq<Lens>>, n: nat): nat
    requires n <= |boxes|
    decreases n
  {
    if n == 0 then 0 else Power(boxes, n - 1) + BoxPower(boxes[n - 1], n - 1, |boxes[n - 1]|)
  }

  /** Empty boxes have no power. */
  lemma {:induction false} EmptyPower(n: nat)
    requires n <= 256
    ensures Power(EmptyBoxes(), n) == 0
    decreases n
  {
    if n > 0 {
      EmptyPower(n - 1);
    }
  }

  /** The loop of `name-` and `name=`: the first slot holding the name. */
  method FindSlot(bx: seq<Lens>, name: seq<Byte>) returns (idx: Option<nat>)
    ensures idx == Find(bx, name)
  {
    var i := 0;
    while i < |bx|
      invariant 0 <= i <= |bx|
      invariant forall j :: 0 <= j < i ==> bx[j].name != name
    {
      if bx[i].name == name {
        FindFirst(bx, name, i);
        return Some(i);
      }
      i := i + 1;
    }
    return None;
  }

  lemma FindFirst(bx: seq<Lens>, name: seq<Byte>, i: nat)
    requires i < |bx| && bx[i].name == name
    requires forall j :: 0 <= j < i ==> bx[j].name != name
    ensures Find(bx, name) == Some(i)
  {
    var r := Find(bx, name);
    assert r.Some?;
  }

  /** One step of `part2` on box `hash(name)`: find the slot, then remove
      the lens, replace its focal length or append a new lens. */
  method Step(boxes: seq<seq<Lens>>, insn: Insn) returns (r: seq<seq<Lens>>)
    requires |boxes| == 256
    ensures r == Apply(boxes, insn)
  {
    var b := Hash(insn.name);
    var bx := boxes[b];
    var idx := FindSlot(bx, insn.name);
    match insn {
      case Remove(name) =>
        if idx.Some? {
          bx := bx[..idx.value] + bx[idx.value + 1..];
        }
      case Put(name, focal) =>
        if idx.Some? {
          bx := bx[idx.value := Lens(name, focal)];
        } else {
          bx := bx + [Lens(name, focal)];
        }
    }
    r := boxes[b := bx];
  }

  /** The closing double loop of `part2`. */
  method FocusingPower(boxes: seq<seq<Lens>>) returns (sum: nat)
    requires |boxes| == 256
    ensures sum == Power(boxes, 256)
  {
    sum := 0;
    var i := 0;
    while i < 256
      invariant 0 <= i <= 256
      invariant sum == Power(boxes, i)
    {
      var j := 0;
      var boxSum := 0;
      while j < |boxes[i]|
        invariant 0 <= j <= |boxes[i]|
        invariant boxSum == BoxPower(boxes[i], i, j)
      {
        boxSum := boxSum + (i + 1) * (j + 1) * boxes[i][j].focal;
        j := j + 1;
      }
      sum := sum + boxSum;
      i := i + 1;
    }
  }

  /** Every step parses. */
  predicate AllParse(steps: seq<seq<Byte>>)
  {
    forall k :: 0 <= k < |steps| ==> ParseInsn(steps[k]).Some?
  }

  /** The parsed steps. */
  function Insns(steps: seq<seq<Byte>>): (r: seq<Insn>)
    requires AllParse(steps)
    ensures |r| == |steps|
  {
    seq(|steps|, k requires 0 <= k < |steps| => ParseInsn(steps[k]).value)
  }

  /** The first loop of `part2`: 256 empty boxes. */
  method NewBoxes() returns (boxes: seq<seq<Lens>>)
    ensures boxes == EmptyBoxes()
  {
    boxes := [];
    var n := 0;
    while n < 256
      invariant 0 <= n <= 256
      invariant boxes == seq(n, _ => [])
    {
      boxes := boxes + [[]];
      n := n + 1;
    }
  }

  lemma InsnsSnoc(steps: seq<seq<Byte>>, k: nat)
    requires k < |steps| && AllParse(steps[..k]) && ParseInsn(steps[k]).Some?
    ensures AllParse(steps[..k + 1])
    ensures Insns(steps[..k + 1]) == Insns(steps[..k]) + [ParseInsn(steps[k]).value]
  {
    var a, b := Insns(steps[..k + 1]), Insns(steps[..k]) + [ParseInsn(steps[k]).value];
    forall j | 0 <= j < k + 1
      ensures a[j] == b[j]
    {
      if j < k {
        assert steps[..k + 1][j] == steps[..k][j];
      }
    }
  }

  /** `part2`: apply every step to the 256 boxes, then add up the focusing
      power. `None` where the source panics on a step that does not parse
      (the panic happens at that step; what came before is lost with it). */
  method Part2(steps: seq<seq<Byte>>) returns (r: Option<nat>)
    ensures r.None? <==> !AllParse(steps)
    ensures r.Some? ==> r.value == Power(Run(Insns(steps)), 256)
  {
    var boxes := NewBoxes();
    ghost var done: seq<Insn> := [];
    var k := 0;
    while k < |steps|
      invariant 0 <= k <= |steps|
      invariant AllParse(steps[..k]) && done == Insns(steps[..k])
      invariant boxes == Run(done)
    {
      var insn := ParseInsn(steps[k]);
      if insn.None? {
        assert !AllParse(steps) by { assert ParseInsn(steps[k]).None?; }
        return None;
      }
      InsnsSnoc(steps, k);
      boxes := Step(boxes, insn.value);
      assert (done + [insn.value])[..|done|] == done;
      done := done + [insn.value];
      k := k + 1;
    }
    assert steps[..k] == steps;
    var sum := FocusingPower(boxes);
    return Some(sum);
  }
}
