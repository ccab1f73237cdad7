// Day 8: a left/right network of named nodes walked by a cyclic list of
// L and R instructions. Part 1 walks from AAA to ZZZ; part 2 measures, for
// every node ending in A, how long its walk takes to return to a node ending
// in Z, and takes the least common multiple of those lengths.

module Day8 {
  import opened Lib

  /** Each node's left and right successors. */
  type Network = map<string, (string, string)>

  datatype Outcome<T> = Done(value: T) | Panic | OutOfFuel

  /** One move at global step `k`: instruction `insns[k mod len]` picks the
      left or right successor; a missing node, an empty instruction list or an
      instruction other than L and R panics. */
  function Move(net: Network, insns: string, pos: string, k: nat): (r: Option<string>)
    ensures r.Some? <==> pos in net && |insns| > 0 && insns[k % |insns|] in "LR"
    ensures r.Some? && insns[k % |insns|] == 'L' ==> r.value == net[pos].0
    ensures r.Some? && insns[k % |insns|] == 'R' ==> r.value == net[pos].1
  {
    if pos !in net || |insns| == 0 then None
    else
      var insn := insns[k % |insns|];
      if insn == 'L' then Some(net[pos].0)
      else if insn == 'R' then Some(net[pos].1)
      else None
  }

  /** The node reached after `n` moves from `pos`, starting at global step `k`:
      the plain iterated move, used as the reference for both walks. */
  function Reach(net: Network, insns: string, pos: string, k: nat, n: nat): Option<string>
    decreases n
  {
    if n == 0 then Some(pos)
    else match Move(net, insns, pos, k)
      case None => None
      case Some(p) => Reach(net, insns, p, k + 1, n - 1)
  }

  /** Moving once more from the node reached after `n` moves. */
  lemma {:induction false} ReachSnoc(net: Network, insns: string, pos: string, k: nat, n: nat)
    requires Reach(net, insns, pos, k, n).Some?
    ensures Reach(net, insns, pos, k, n + 1) == Move(net, insns, Reach(net, insns, pos, k, n).value, k + n)
    decreases n
  {
    if n > 0 {
      var p := Move(net, insns, pos, k).value;
      ReachSnoc(net, insns, p, k + 1, n - 1);
    }
  }

  /* ---------------- part 1 ---------------- */

  const Start := "AAA"
  const Goal := "ZZZ"

  /** The part 1 walk from `pos` at step `k`, stopping on ZZZ before moving;
      `fuel` bounds the number of moves. */
  function WalkToGoal(net: Network, insns: string, pos: string, k: nat, fuel: nat): Outcome<nat>
    decreases fuel
  {
    if pos == Goal then Done(k)
    else if fuel == 0 then OutOfFuel
    else match Move(net, insns, pos, k)
      case None => Panic
      case Some(p) => WalkToGoal(net, insns, p, k + 1, fuel - 1)
  }

  /** A finished walk ends at ZZZ after the reported number of moves and
      passes no earlier ZZZ. */
  lemma {:induction false} WalkToGoalSound(net: Network, insns: string, pos: string, k: nat, fuel: nat)
    requires WalkToGoal(net, insns, pos, k, fuel).Done?
    ensures WalkToGoal(net, insns, pos, k, fuel).value >= k
    ensures Reach(net, insns, pos, k, WalkToGoal(net, insns, pos, k, fuel).value - k) == Some(Goal)
    ensures forall n :: 0 <= n < WalkToGoal(net, insns, pos, k, fuel).value - k ==>
      Reach(net, insns, pos, k, n).Some? && Reach(net, insns, pos, k, n).value != Goal
    decreases fuel
  {
    if pos != Goal {
      var p := Move(net, insns, pos, k).value;
      WalkToGoalSound(net, insns, p, k + 1, fuel - 1);
      var s := WalkToGoal(net, insns, pos, k, fuel).value;
      forall n | 0 <= n < s - k
        ensures Reach(net, insns, pos, k, n).Some? && Reach(net, insns, pos, k, n).value != Goal
      {
        if n > 0 {
          var m: nat := n - 1;
          assert Reach(net, insns, pos, k, n) == Reach(net, insns, p, k + 1, m);
        }
      }
    }
  }

  /** If ZZZ is reached within `fuel` moves, the walk finishes, no later. */
  lemma {:induction false} WalkToGoalComplete(net: Network, insns: string, pos: string, k: nat, fuel: nat, n: nat)
    requires n <= fuel
    requires Reach(net, insns, pos, k, n) == Some(Goal)
    ensures WalkToGoal(net, insns, pos, k, fuel).Done?
    ensures WalkToGoal(net, insns, pos, k, fuel).value <= k + n
    decreases n
  {
    if pos != Goal {
      var p := Move(net, insns, pos, k).value;
      WalkToGoalComplete(net, insns, p, k + 1, fuel - 1, n - 1);
    }
  }

  /** `part1`: walk from AAA until ZZZ, counting the moves. */
  method Part1(net: Network, insns: string, fuel: nat) returns (r: Outcome<nat>)
    ensures r == WalkToGoal(net, insns, Start, 0, fuel)
  {
    var pos := Start;
    var steps := 0;
    var left := fuel;
    while pos != Goal
      invariant WalkToGoal(net, insns, pos, steps, left) == WalkToGoal(net, insns, Start, 0, fuel)
      decreases left
    {
      if left == 0 {
        return OutOfFuel;
      }
      var next := Move(net, insns, pos, steps);
      if next.None? {
        return Panic;
      }
      pos := next.value;
      steps := steps + 1;
      left := left - 1;
    }
    r := Done(steps);
  }

  /** The first sample network and its instructions `RL`. */
  const SampleNet: Network := map[
    "AAA" := ("BBB", "CCC"), "BBB" := ("DDD", "EEE"), "CCC" := ("ZZZ", "GGG"),
    "DDD" := ("DDD", "DDD"), "EEE" := ("EEE", "EEE"), "GGG" := ("GGG", "GGG"),
    "ZZZ" := ("ZZZ", "ZZZ")]

  /** AAA -R-> CCC -L-> ZZZ: two moves. */
  lemma SamplePart1()
    ensures WalkToGoal(SampleNet, "RL", Start, 0, 10) == Done(2)
  {
    assert Move(SampleNet, "RL", "AAA", 0) == Some("CCC");
    assert Move(SampleNet, "RL", "CCC", 1) == Some("ZZZ");
  }

  /* ---------------- steps_to ---------------- */

  predicate EndsInZ(p: string) { |p| > 0 && p[|p| - 1] == 'Z' }

  /** `steps_to`: move at least once from step `k`, stopping on the first node
      ending in Z; the result is the global step count and that node. */
  function FirstZ(net: Network, insns: string, pos: string, k: nat, fuel: nat): Outcome<(nat, string)>
    decreases fuel
  {
    if fuel == 0 then OutOfFuel
    else match Move(net, insns, pos, k)
      case None => Panic
      case Some(p) => if EndsInZ(p) then Done((k + 1, p)) else FirstZ(net, insns, p, k + 1, fuel - 1)
  }

  /** `steps_to` takes at least one move, reaches the node it reports after
      the reported number of moves, and passes no node ending in Z before. */
  lemma {:induction false} FirstZSound(net: Network, insns: string, pos: string, k: nat, fuel: nat)
    requires FirstZ(net, insns, pos, k, fuel).Done?
    ensures FirstZ(net, insns, pos, k, fuel).value.0 > k
    ensures EndsInZ(FirstZ(net, insns, pos, k, fuel).value.1)
    ensures Reach(net, insns, pos, k, FirstZ(net, insns, pos, k, fuel).value.0 - k)
      == Some(FirstZ(net, insns, pos, k, fuel).value.1)
    ensures forall n :: 0 < n < FirstZ(net, insns, pos, k, fuel).value.0 - k ==>
      Reach(net, insns, pos, k, n).Some? && !EndsInZ(Reach(net, insns, pos, k, n).value)
    decreases fuel
  {
    var p := Move(net, insns, pos, k).value;
    assert Reach(net, insns, p, k + 1, 0) == Some(p);
    if !EndsInZ(p) {
      FirstZSound(net, insns, p, k + 1, fuel - 1);
      var s := FirstZ(net, insns, pos, k, fuel).value.0;
      forall n | 0 < n < s - k
        ensures Reach(net, insns, pos, k, n).Some? && !EndsInZ(Reach(net, insns, pos, k, n).value)
      {
        var m: nat := n - 1;
        assert Reach(net, insns, pos, k, n) == Reach(net, insns, p, k + 1, m);
      }
    }
  }

  method StepsTo(net: Network, insns: string, k0: nat, start: string, fuel: nat)
    returns (r: Outcome<(nat, string)>)
    ensures r == FirstZ(net, insns, start, k0, fuel)
  {
    var pos := start;
    var steps := k0;
    var left := fuel;
    while true
      invariant FirstZ(net, insns, pos, steps, left) == FirstZ(net, insns, start, k0, fuel)
      decreases left
    {
      if left == 0 {
        return OutOfFuel;
      }
      var next := Move(net, insns, pos, steps);
      if next.None? {
        return Panic;
      }
      pos := next.value;
      steps := steps + 1;
      left := left - 1;
      if EndsInZ(pos) {
        return Done((steps, pos));
      }
    }
  }

  /* ---------------- lcm and part 2 ---------------- */

  /** `lcm` as the solvers compute it, `(a / gcd(a, b)) * b`; the division by
      zero when both are zero is a panic. */
  function Lcm(a: nat, b: nat): (r: Option<nat>)
    ensures r.None? <==> a == 0 && b == 0
  {
    var g := Euclid(a, b);
    if g == 0 then
      assert a == 0 && b == 0 by { EuclidIsGcd(a, b); ZeroDivides(a); ZeroDivides(b); }
      None
    else
      Some((a / g) * b)
  }

  lemma ZeroDivides(n: nat)
    requires Divides(0, n)
    ensures n == 0
  {
  }

  /** The lcm is a common multiple of both arguments, and it is zero only when
      one of them is. */
  lemma LcmIsCommonMultiple(a: nat, b: nat)
    requires a != 0 || b != 0
    ensures Lcm(a, b).Some?
    ensures Divides(a, Lcm(a, b).value) && Divides(b, Lcm(a, b).value)
    ensures Lcm(a, b).value == 0 <==> a == 0 || b == 0
  {
    var g := Euclid(a, b);
    EuclidIsGcd(a, b);
    if g == 0 { ZeroDivides(a); ZeroDivides(b); }
    var p: nat :| a == g * p;
    var q: nat :| b == g * q;
    ExactQuotient(g, p);
    var r := p * b;
    assert Lcm(a, b).value == r;
    assert Divides(b, r) by { assert r == b * p; }
    assert Divides(a, r) by { MulRegroup(p, g, q); }
    if a != 0 && b != 0 {
      assert p != 0;
      MulPositive(p, b);
    }
  }

  /** The lcm divides every common multiple of its arguments, so it is the
      least of them. */
  lemma LcmIsLeast(a: nat, b: nat, m: nat)
    requires a != 0 || b != 0
    requires Divides(a, m) && Divides(b, m)
    ensures Divides(Lcm(a, b).value, m)
  {
    var g := Euclid(a, b);
    EuclidIsGcd(a, b);
    if g == 0 { ZeroDivides(a); ZeroDivides(b); }
    var p: nat :| a == g * p;
    var q: nat :| b == g * q;
    ExactQuotient(g, p);
    assert Lcm(a, b).value == p * b;
    var x: nat :| m == a * x;
    var y: nat :| m == b * y;
    if a == 0 || b == 0 || x == 0 {
      if b == 0 { ZeroDivides(m); }
      DividesZero(p * b);
    } else {
      CoprimeParts(a, b, g, p, q);
      var k := CommonFactor(g, p, q, x, y);
      MulRegroup(p, g, q);
      MulAssoc(g * p, q, k);
      MulAssoc(p, g * q, k);
    }
  }

  /** Cancelling the gcd from `g*p*x == g*q*y` leaves a multiple of `q` in
      `x`, because `p` and `q` are coprime. */
  lemma CommonFactor(g: nat, p: nat, q: nat, x: nat, y: nat) returns (k: nat)
    requires g > 0 && q > 0 && x > 0 && Euclid(p, q) == 1
    requires (g * p) * x == (g * q) * y
    ensures x == q * k
  {
    MulAssoc(g, p, x);
    MulAssoc(g, q, y);
    ExactQuotient(g, p * x);
    ExactQuotient(g, q * y);
    CoprimeDivides(p, q, y, x);
    k :| x == q * k;
  }

  lemma MulComm(a: nat, b: nat)
    ensures a * b == b * a
  {
  }

  lemma MulAssoc(a: nat, b: nat, c: nat)
    ensures (a * b) * c == a * (b * c)
  {
  }

  /** Dividing both arguments by their gcd leaves coprime quotients. */
  lemma CoprimeParts(a: nat, b: nat, g: nat, p: nat, q: nat)
    requires g == Euclid(a, b) && g > 0 && a == g * p && b == g * q
    ensures Euclid(p, q) == 1
  {
    var e := Euclid(p, q);
    EuclidScale(p, q, g);
    MulComm(p, g);
    MulComm(q, g);
    assert Euclid(a, b) == e * g;
    UnitFactor(g, e);
  }

  lemma UnitFactor(g: nat, e: nat)
    requires g > 0 && g == e * g
    ensures e == 1
  {
    if e == 0 {
    } else if e > 1 {
      assert e * g == g + (e - 1) * g;
      MulPositive(e - 1, g);
    }
  }

  lemma ExactQuotient(g: nat, p: nat)
    requires g > 0
    ensures (g * p) / g == p
  {
    var x := g * p;
    var q := x / g;
    var r := x % g;
    assert x == q * g + r;
    assert g * (p - q) == r;
    if p - q >= 1 { MulAtLeast(g, p - q); }
    if p - q <= -1 { MulAtLeast(g, q - p); }
  }

  lemma MulAtLeast(g: nat, k: int)
    requires k >= 1
    ensures g * k >= g
  {
  }

  lemma MulRegroup(p: nat, g: nat, q: nat)
    ensures p * (g * q) == (g * p) * q
  {
  }

  lemma MulPositive(p: nat, b: nat)
    requires p > 0 && b > 0
    ensures p * b > 0
  {
  }

  /** The repeat length of one start node: the distance from its first
      Z-node arrival to the next one. */
  function Repeat(net: Network, insns: string, start: string, fuel: nat): Outcome<nat>
  {
    match FirstZ(net, insns, start, 0, fuel)
    case Panic => Panic
    case OutOfFuel => OutOfFuel
    case Done(hit) =>
      match FirstZ(net, insns, hit.1, hit.0, fuel)
      case Panic => Panic
      case OutOfFuel => OutOfFuel
      case Done(again) => if again.0 >= hit.0 then Done(again.0 - hit.0) else Panic
  }

  /** Every repeat length is at least one move. */
  lemma RepeatPositive(net: Network, insns: string, start: string, fuel: nat)
    requires Repeat(net, insns, start, fuel).Done?
    ensures Repeat(net, insns, start, fuel).value >= 1
  {
    var hit := FirstZ(net, insns, start, 0, fuel).value;
    FirstZSound(net, insns, hit.1, hit.0, fuel);
  }

  /** `fold(1, lcm)` over the repeat lengths. */
  function FoldLcm(rs: seq<nat>): Option<nat>
    decreases |rs|
  {
    if rs == [] then Some(1)
    else match FoldLcm(rs[..|rs| - 1])
      case None => None
      case Some(acc) => Lcm(acc, rs[|rs| - 1])
  }

  /** Over positive lengths the fold never divides by zero, stays positive,
      and is a common multiple of every length. */
  lemma {:induction false} FoldLcmCommonMultiple(rs: seq<nat>)
    requires forall i :: 0 <= i < |rs| ==> rs[i] >= 1
    ensures FoldLcm(rs).Some? && FoldLcm(rs).value >= 1
    ensures forall i :: 0 <= i < |rs| ==> Divides(rs[i], FoldLcm(rs).value)
    decreases |rs|
  {
    if rs != [] {
      var init := rs[..|rs| - 1];
      FoldLcmCommonMultiple(init);
      var acc := FoldLcm(init).value;
      var last := rs[|rs| - 1];
      LcmIsCommonMultiple(acc, last);
      var v := FoldLcm(rs).value;
      forall i | 0 <= i < |rs| ensures Divides(rs[i], v) {
        if i < |rs| - 1 {
          assert init[i] == rs[i];
          DividesTransitive(rs[i], acc, v);
        }
      }
    }
  }

  /** `m` is a multiple of every length. */
  ghost predicate MultipleOfAll(rs: seq<nat>, m: nat)
  {
    forall i :: 0 <= i < |rs| ==> Divides(rs[i], m)
  }

  /** Over positive lengths the fold divides every common multiple of them:
      it is their least common multiple. */
  lemma {:induction false} FoldLcmIsLeast(rs: seq<nat>, m: nat)
    requires forall i :: 0 <= i < |rs| ==> rs[i] >= 1
    requires MultipleOfAll(rs, m)
    ensures FoldLcm(rs).Some? && Divides(FoldLcm(rs).value, m)
    decreases |rs|
  {
    FoldLcmCommonMultiple(rs);
    if rs == [] {
      assert m == 1 * m;
    } else {
      var init := rs[..|rs| - 1];
      assert MultipleOfAll(init, m) by {
        forall i | 0 <= i < |init| ensures Divides(init[i], m) {
          assert init[i] == rs[i];
        }
      }
      FoldLcmIsLeast(init, m);
      FoldLcmCommonMultiple(init);
      LcmIsLeast(FoldLcm(init).value, rs[|rs| - 1], m);
    }
  }

  predicate EndsInA(p: string) { |p| > 0 && p[|p| - 1] == 'A' }

  /** The repeat lengths of the start nodes, in order; a length whose walk
      does not finish counts as zero. */
  ghost function Repeats(net: Network, insns: string, starts: seq<string>, fuel: nat): seq<nat>
  {
    seq(|starts|, i requires 0 <= i < |starts| =>
      match Repeat(net, insns, starts[i], fuel)
      case Done(v) => v
      case _ => 0)
  }

  /** `part2`. The source takes the start nodes from the network's key set in
      the hash map's order; here that order is the parameter `starts`. */
  method Part2(net: Network, insns: string, starts: seq<string>, fuel: nat) returns (r: Outcome<nat>)
    requires forall p :: p in starts <==> p in net && EndsInA(p)
    ensures r.Done? ==> forall i :: 0 <= i < |starts| ==> Repeat(net, insns, starts[i], fuel).Done?
    ensures r.Done? ==> r.value >= 1
    ensures r.Done? ==> forall i :: 0 <= i < |starts| ==> Divides(Repeat(net, insns, starts[i], fuel).value, r.value)
    ensures r.Done? ==> forall m: nat :: MultipleOfAll(Repeats(net, insns, starts, fuel), m) ==> Divides(r.value, m)
    ensures !r.Done? ==> exists i :: 0 <= i < |starts| && !Repeat(net, insns, starts[i], fuel).Done?
  {
    var lengths := RepeatLengths(net, insns, starts, fuel);
    if !lengths.Done? {
      return if lengths.Panic? then Panic else OutOfFuel;
    }
    var repeat := lengths.value;
    var acc := LcmAll(repeat);
    FoldLcmCommonMultiple(repeat);
    forall m: nat | MultipleOfAll(repeat, m) ensures Divides(acc, m) {
      FoldLcmIsLeast(repeat, m);
    }
    r := Done(acc);
  }

  /** The first loop of `part2`: each start's repeat length, or the first
      failing walk's outcome. */
  method RepeatLengths(net: Network, insns: string, starts: seq<string>, fuel: nat) returns (r: Outcome<seq<nat>>)
    ensures r.Done? ==> r.value == Repeats(net, insns, starts, fuel)
    ensures r.Done? ==> forall i :: 0 <= i < |starts| ==> Repeat(net, insns, starts[i], fuel) == Done(r.value[i])
    ensures r.Done? ==> forall i :: 0 <= i < |r.value| ==> r.value[i] >= 1
    ensures !r.Done? ==> exists i :: 0 <= i < |starts| && !Repeat(net, insns, starts[i], fuel).Done?
  {
    var repeat: seq<nat> := [];
    var i := 0;
    while i < |starts|
      invariant 0 <= i <= |starts| && |repeat| == i
      invariant forall j :: 0 <= j < i ==> Repeat(net, insns, starts[j], fuel) == Done(repeat[j])
    {
      var first := StepsTo(net, insns, 0, starts[i], fuel);
      if !first.Done? {
        assert !Repeat(net, insns, starts[i], fuel).Done?;
        return if first.Panic? then Panic else OutOfFuel;
      }
      var second := StepsTo(net, insns, first.value.0, first.value.1, fuel);
      if !second.Done? {
        assert !Repeat(net, insns, starts[i], fuel).Done?;
        return if second.Panic? then Panic else OutOfFuel;
      }
      FirstZSound(net, insns, first.value.1, first.value.0, fuel);
      repeat := repeat + [second.value.0 - first.value.0];
      i := i + 1;
    }
    forall j | 0 <= j < |repeat| ensures repeat[j] >= 1 {
      RepeatPositive(net, insns, starts[j], fuel);
    }
    assert repeat == Repeats(net, insns, starts, fuel);
    r := Done(repeat);
  }

  /** The second loop of `part2`: the running least common multiple. */
  method LcmAll(repeat: seq<nat>) returns (acc: nat)
    requires forall i :: 0 <= i < |repeat| ==> repeat[i] >= 1
    ensures FoldLcm(repeat) == Some(acc)
  {
    FoldLcmCommonMultiple(repeat);
    acc := 1;
    var j := 0;
    while j < |repeat|
      invariant 0 <= j <= |repeat|
      invariant FoldLcm(repeat[..j]) == Some(acc)
    {
      assert repeat[..j + 1][..j] == repeat[..j];
      FoldLcmCommonMultiple(repeat[..j + 1]);
      acc := Lcm(acc, repeat[j]).value;
      j := j + 1;
    }
    assert repeat[..j] == repeat;
  }
}
