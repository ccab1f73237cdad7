// Day 19: parts with four ratings pass through named workflows. A workflow
// is a list of rules; the first rule that fires names the next workflow, or
// accepts or rejects the part. `part1` runs every part from `in` and sums
// the ratings of the accepted ones. `part2` pushes whole boxes of ratings
// through the workflows instead, splitting a box at every comparison, and
// sums the volumes of the boxes that reach `A`.

module Day19 {
  import opened Lib

  datatype Field = X | M | A | S

  /** `FieldID::from_str`; any other name panics. */
  function ParseField(s: string): (r: Option<Field>)
    ensures r.Some? <==> s == "x" || s == "m" || s == "a" || s == "s"
  {
    if s == "x" then Some(X)
    else if s == "m" then Some(M)
    else if s == "a" then Some(A)
    else if s == "s" then Some(S)
    else None
  }

  datatype Part = Part(x: nat, m: nat, a: nat, s: nat)

  function Get(p: Part, f: Field): nat
  {
    match f
    case X => p.x
    case M => p.m
    case A => p.a
    case S => p.s
  }

  function Rating(p: Part): nat { p.x + p.m + p.a + p.s }

  datatype WorkflowId = Accept | Reject | Named(name: string)

  /** `WorkflowID::from_str`: `A` and `R` are the two verdicts, anything else
      names a workflow. */
  function ParseWorkflowId(s: string): (r: WorkflowId)
    ensures r == Accept <==> s == "A"
    ensures r == Reject <==> s == "R"
    ensures r.Named? ==> r.name == s
  {
    if s == "A" then Accept else if s == "R" then Reject else Named(s)
  }

  datatype Rule =
    | Lt(field: Field, value: nat, target: WorkflowId)
    | Gt(field: Field, value: nat, target: WorkflowId)
    | Jmp(target: WorkflowId)

  datatype Workflow = Workflow(name: string, rules: seq<Rule>)

  type Workflows = map<string, seq<Rule>>

  /** The map `parse_input` collects from the workflow list; a later workflow
      of the same name replaces an earlier one. */
  function Collect(ws: seq<Workflow>): Workflows
    decreases |ws|
  {
    if ws == [] then map[] else Collect(ws[..|ws| - 1])[ws[|ws| - 1].name := ws[|ws| - 1].rules]
  }

  /** Every listed workflow is in the map, under its name, and the rules
      kept are those of the last workflow of that name. */
  lemma {:induction false} CollectKeepsLast(ws: seq<Workflow>, k: nat)
    requires k < |ws|
    requires forall j :: k < j < |ws| ==> ws[j].name != ws[k].name
    ensures ws[k].name in Collect(ws) && Collect(ws)[ws[k].name] == ws[k].rules
    decreases |ws|
  {
    if k < |ws| - 1 {
      var init := ws[..|ws| - 1];
      CollectKeepsLast(init, k);
    }
  }

  /** No name is in the map unless some workflow has it. */
  lemma {:induction false} CollectKeys(ws: seq<Workflow>, n: string)
    requires n in Collect(ws)
    ensures exists k :: 0 <= k < |ws| && ws[k].name == n
    decreases |ws|
  {
    var init := ws[..|ws| - 1];
    if n != ws[|ws| - 1].name {
      CollectKeys(init, n);
      var k :| 0 <= k < |init| && init[k].name == n;
      assert ws[k].name == n;
    }
  }

  /* ---------------- part 1: running one part ---------------- */

  /** Whether `rule` sends the part on. */
  predicate Fires(p: Part, rule: Rule)
  {
    match rule
    case Lt(f, v, _) => Get(p, f) < v
    case Gt(f, v, _) => Get(p, f) > v
    case Jmp(_) => true
  }

  predicate NoneFires(p: Part, rules: seq<Rule>)
  {
    forall k :: 0 <= k < |rules| ==> !Fires(p, rules[k])
  }

  /** Where a workflow sends the part: the target of the first rule that
      fires, or `None` when none does. */
  function Fire(p: Part, rules: seq<Rule>): Option<WorkflowId>
    decreases |rules|
  {
    if rules == [] then None
    else if Fires(p, rules[0]) then Some(rules[0].target)
    else Fire(p, rules[1..])
  }

  /** The first rule that fires decides. */
  lemma {:induction false} FireAt(p: Part, rules: seq<Rule>, i: nat)
    requires i < |rules| && Fires(p, rules[i]) && NoneFires(p, rules[..i])
    ensures Fire(p, rules) == Some(rules[i].target)
    decreases i
  {
    if i > 0 {
      assert !Fires(p, rules[..i][0]);
      assert rules[1..][..i - 1] == rules[..i][1..];
      FireAt(p, rules[1..], i - 1);
    }
  }

  /** A workflow sends the part nowhere exactly when no rule fires. */
  lemma {:induction false} FireNone(p: Part, rules: seq<Rule>)
    ensures Fire(p, rules).None? <==> NoneFires(p, rules)
    decreases |rules|
  {
    if rules != [] {
      FireNone(p, rules[1..]);
      if !Fires(p, rules[0]) && NoneFires(p, rules[1..]) {
        forall k | 0 <= k < |rules|
          ensures !Fires(p, rules[k])
        {
          if k > 0 {
            assert rules[k] == rules[1..][k - 1];
          }
        }
      }
    }
  }

  /** The `for rule in &wf.rules` loop of `run_workflows`. */
  method FirstFiring(p: Part, rules: seq<Rule>) returns (r: Option<WorkflowId>)
    ensures r == Fire(p, rules)
  {
    var i := 0;
    while i < |rules|
      invariant 0 <= i <= |rules|
      invariant NoneFires(p, rules[..i])
    {
      if Fires(p, rules[i]) {
        FireAt(p, rules, i);
        return Some(rules[i].target);
      }
      assert rules[..i + 1] == rules[..i] + [rules[i]];
      i := i + 1;
    }
    assert rules[..i] == rules;
    FireNone(p, rules);
    return None;
  }

  /** How a run ends: a missing workflow panics; a workflow where no rule
      fires is run again and again, forever; `Tired` is the fuel bound. */
  datatype Verdict = Missing | Stuck | Tired | Ends(accepted: bool)

  /** `run_workflows` from workflow `w` with at most `fuel` workflows run. */
  function RunFrom(wfs: Workflows, p: Part, w: string, fuel: nat): Verdict
    decreases fuel
  {
    if fuel == 0 then Tired
    else if w !in wfs then Missing
    else
      match Fire(p, wfs[w])
      case None => Stuck
      case Some(Accept) => Ends(true)
      case Some(Reject) => Ends(false)
      case Some(Named(n)) => RunFrom(wfs, p, n, fuel - 1)
  }

  /** `run_workflows`: start at `in` and follow the workflows. */
  method RunWorkflows(wfs: Workflows, p: Part, fuel: nat) returns (v: Verdict)
    ensures v == RunFrom(wfs, p, "in", fuel)
  {
    var wid := "in";
    var left := fuel;
    while left > 0
      invariant RunFrom(wfs, p, wid, left) == RunFrom(wfs, p, "in", fuel)
    {
      if wid !in wfs {
        return Missing;
      }
      var next := FirstFiring(p, wfs[wid]);
      match next {
        case None => return Stuck;
        case Some(Accept) => return Ends(true);
        case Some(Reject) => return Ends(false);
        case Some(Named(n)) =>
          wid := n;
          left := left - 1;
      }
    }
    return Tired;
  }

  /* ---------------- what "accepted" means ---------------- */

  /** One workflow step from the workflow named `w`; `None` where the run
      cannot go on. */
  function Next(wfs: Workflows, p: Part, w: string): Option<WorkflowId>
  {
    if w in wfs then Fire(p, wfs[w]) else None
  }

  /** Where the part stands after `n` steps from `w`; the verdicts stay put. */
  function Iter(wfs: Workflows, p: Part, w: WorkflowId, n: nat): Option<WorkflowId>
    decreases n
  {
    if n == 0 then Some(w)
    else
      match w
      case Named(x) =>
        (match Next(wfs, p, x)
         case None => None
         case Some(t) => Iter(wfs, p, t, n - 1))
      case _ => Some(w)
  }

  /** The part gets to `w` from `in` in some number of steps. */
  ghost predicate Reaches(wfs: Workflows, p: Part, w: WorkflowId)
  {
    exists n: nat :: Iter(wfs, p, Named("in"), n) == Some(w)
  }

  ghost predicate Accepted(wfs: Workflows, p: Part)
  {
    Reaches(wfs, p, Accept)
  }

  /** One step more. */
  lemma {:induction false} IterSnoc(wfs: Workflows, p: Part, w0: WorkflowId, n: nat, x: string, t: WorkflowId)
    requires Iter(wfs, p, w0, n) == Some(Named(x)) && Next(wfs, p, x) == Some(t)
    ensures Iter(wfs, p, w0, n + 1) == Some(t)
    decreases n
  {
    if n > 0 {
      var t1 := Next(wfs, p, w0.name).value;
      IterSnoc(wfs, p, t1, n - 1, x, t);
    }
  }

  lemma ReachesStep(wfs: Workflows, p: Part, x: string, t: WorkflowId)
    requires Reaches(wfs, p, Named(x)) && Next(wfs, p, x) == Some(t)
    ensures Reaches(wfs, p, t)
  {
    var n: nat :| Iter(wfs, p, Named("in"), n) == Some(Named(x));
    IterSnoc(wfs, p, Named("in"), n, x, t);
  }

  /** A verdict, once reached, is kept. */
  lemma {:induction false} IterFinal(wfs: Workflows, p: Part, w0: WorkflowId, n: nat, m: nat)
    requires n <= m && Iter(wfs, p, w0, n) in {Some(Accept), Some(Reject)}
    ensures Iter(wfs, p, w0, m) == Iter(wfs, p, w0, n)
    decreases n
  {
    if n > 0 && w0.Named? {
      var t := Next(wfs, p, w0.name).value;
      IterFinal(wfs, p, t, n - 1, m - 1);
    } else if n == 0 && w0.Named? {
      assert false;
    }
  }

  /** A run that ends has reached its verdict by the steps. */
  lemma {:induction false} RunIter(wfs: Workflows, p: Part, w: string, fuel: nat)
    requires RunFrom(wfs, p, w, fuel).Ends?
    ensures Iter(wfs, p, Named(w), fuel) == Some(if RunFrom(wfs, p, w, fuel).accepted then Accept else Reject)
    decreases fuel
  {
    match Fire(p, wfs[w])
    case Some(Named(n)) => RunIter(wfs, p, n, fuel - 1);
    case _ =>
  }

  /** The steps reach `A` within `n` only if the run with fuel `n` accepts. */
  lemma {:induction false} IterRun(wfs: Workflows, p: Part, w: string, n: nat)
    requires Iter(wfs, p, Named(w), n) == Some(Accept)
    ensures RunFrom(wfs, p, w, n) == Ends(true)
    decreases n
  {
    var t := Next(wfs, p, w).value;
    if t.Named? {
      IterRun(wfs, p, t.name, n - 1);
    }
  }

  /** `run_workflows` accepts exactly the accepted parts. */
  lemma RunMeansAccepted(wfs: Workflows, p: Part, fuel: nat)
    requires RunFrom(wfs, p, "in", fuel).Ends?
    ensures RunFrom(wfs, p, "in", fuel).accepted <==> Accepted(wfs, p)
  {
    RunIter(wfs, p, "in", fuel);
    if !RunFrom(wfs, p, "in", fuel).accepted && Accepted(wfs, p) {
      var n: nat :| Iter(wfs, p, Named("in"), n) == Some(Accept);
      var m := if n <= fuel then fuel else n;
      IterFinal(wfs, p, Named("in"), n, m);
      IterFinal(wfs, p, Named("in"), fuel, m);
      assert false;
    }
  }

  /** Every accepted part is accepted by a run with enough fuel. */
  lemma AcceptedRuns(wfs: Workflows, p: Part)
    requires Accepted(wfs, p)
    ensures exists fuel: nat :: RunFrom(wfs, p, "in", fuel) == Ends(true)
  {
    var n: nat :| Iter(wfs, p, Named("in"), n) == Some(Accept);
    IterRun(wfs, p, "in", n);
  }

  /* ---------------- part 1 ---------------- */

  /** How a whole part ends. `Hangs` is a run the source never leaves. */
  datatype Outcome = Panic | Hangs | OutOfFuel | Done(value: nat)

  /** `part1` over the parts, in order: the first part that panics or hangs
      decides; otherwise the sum of the accepted ratings. */
  function Part1Spec(wfs: Workflows, parts: seq<Part>, fuel: nat): Outcome
    decreases |parts|
  {
    if parts == [] then Done(0)
    else
      var last := parts[|parts| - 1];
      match Part1Spec(wfs, parts[..|parts| - 1], fuel)
      case Done(sum) =>
        (match RunFrom(wfs, last, "in", fuel)
         case Missing => Panic
         case Stuck => Hangs
         case Tired => OutOfFuel
         case Ends(b) => Done(sum + if b then Rating(last) else 0))
      case other => other
  }

  method Part1(wfs: Workflows, parts: seq<Part>, fuel: nat) returns (r: Outcome)
    ensures r == Part1Spec(wfs, parts, fuel)
  {
    var result: nat := 0;
    var i := 0;
    while i < |parts|
      invariant 0 <= i <= |parts|
      invariant Part1Spec(wfs, parts[..i], fuel) == Done(result)
    {
      assert parts[..i + 1][..i] == parts[..i];
      var v := RunWorkflows(wfs, parts[i], fuel);
      match v {
        case Missing =>
          Part1Stops(wfs, parts, fuel, i + 1);
          return Panic;
        case Stuck =>
          Part1Stops(wfs, parts, fuel, i + 1);
          return Hangs;
        case Tired =>
          Part1Stops(wfs, parts, fuel, i + 1);
          return OutOfFuel;
        case Ends(b) =>
          if b {
            result := result + Rating(parts[i]);
          }
      }
      i := i + 1;
    }
    assert parts[..i] == parts;
    return Done(result);
  }

  /** Once a part fails, the whole of `part1` fails the same way. */
  lemma {:induction false} Part1Stops(wfs: Workflows, parts: seq<Part>, fuel: nat, n: nat)
    requires n <= |parts| && !Part1Spec(wfs, parts[..n], fuel).Done?
    ensures Part1Spec(wfs, parts, fuel) == Part1Spec(wfs, parts[..n], fuel)
    decreases |parts| - n
  {
    if n < |parts| {
      assert parts[..n + 1][..n] == parts[..n];
      Part1Stops(wfs, parts, fuel, n + 1);
    } else {
      assert parts[..n] == parts;
    }
  }

  /** The sum of the ratings of the accepted parts. */
  ghost function AcceptedRating(wfs: Workflows, parts: seq<Part>): nat
    decreases |parts|
  {
    if parts == [] then 0
    else
      var last := parts[|parts| - 1];
      AcceptedRating(wfs, parts[..|parts| - 1]) + if Accepted(wfs, last) then Rating(last) else 0
  }

  /** `part1` finishes exactly when every part's run ends, and then it is the
      total rating of the accepted parts. */
  lemma {:induction false} Part1Meaning(wfs: Workflows, parts: seq<Part>, fuel: nat)
    ensures Part1Spec(wfs, parts, fuel).Done? <==>
      forall k :: 0 <= k < |parts| ==> RunFrom(wfs, parts[k], "in", fuel).Ends?
    ensures Part1Spec(wfs, parts, fuel).Done? ==>
      Part1Spec(wfs, parts, fuel).value == AcceptedRating(wfs, parts)
    decreases |parts|
  {
    if parts != [] {
      var init := parts[..|parts| - 1];
      var last := parts[|parts| - 1];
      Part1Meaning(wfs, init, fuel);
      assert forall k :: 0 <= k < |init| ==> init[k] == parts[k];
      if RunFrom(wfs, last, "in", fuel).Ends? {
        RunMeansAccepted(wfs, last, fuel);
      }
    }
  }

  /* ---------------- boxes of parts ---------------- */

  /** A half-open range `start..end` of one rating. */
  datatype Span = Span(start: nat, end: nat)

  datatype Ranges = Ranges(x: Span, m: Span, a: Span, s: Span)

  /** `Ranges::default`: every rating from 1 to 4000. */
  function DefaultRanges(): Ranges
  {
    var d := Span(1, 4001);
    Ranges(d, d, d, d)
  }

  function RangeOf(r: Ranges, f: Field): Span
  {
    match f
    case X => r.x
    case M => r.m
    case A => r.a
    case S => r.s
  }

  function WithRange(r: Ranges, f: Field, sp: Span): Ranges
  {
    match f
    case X => r.(x := sp)
    case M => r.(m := sp)
    case A => r.(a := sp)
    case S => r.(s := sp)
  }

  /** `set_min`: keep the ratings at or above `v`. */
  function SetMin(r: Ranges, f: Field, v: nat): Ranges
  {
    var sp := RangeOf(r, f);
    WithRange(r, f, sp.(start := Max(sp.start, v)))
  }

  /** `set_max`: keep the ratings at or below `v`. */
  function SetMax(r: Ranges, f: Field, v: nat): Ranges
  {
    var sp := RangeOf(r, f);
    WithRange(r, f, sp.(end := Min(sp.end, v + 1)))
  }

  function Max(a: nat, b: nat): nat { if a >= b then a else b }
  function Min(a: nat, b: nat): nat { if a <= b then a else b }

  predicate InSpan(v: nat, sp: Span) { sp.start <= v < sp.end }

  /** The part lies in the box. */
  predicate InRanges(p: Part, r: Ranges)
  {
    InSpan(p.x, r.x) && InSpan(p.m, r.m) && InSpan(p.a, r.a) && InSpan(p.s, r.s)
  }

  /** `Ranges::is_empty`: some range is empty. */
  predicate IsEmpty(r: Ranges)
  {
    r.x.start >= r.x.end || r.m.start >= r.m.end || r.a.start >= r.a.end || r.s.start >= r.s.end
  }

  predicate SpanWithin(a: Span, b: Span) { b.start <= a.start && a.end <= b.end }

  predicate Within(r: Ranges, outer: Ranges)
  {
    SpanWithin(r.x, outer.x) && SpanWithin(r.m, outer.m) && SpanWithin(r.a, outer.a) && SpanWithin(r.s, outer.s)
  }

  /** A box is empty exactly when it holds no part. */
  lemma EmptyMeansNoParts(r: Ranges)
    ensures IsEmpty(r) <==> forall p :: !InRanges(p, r)
  {
    if !IsEmpty(r) {
      assert InRanges(Part(r.x.start, r.m.start, r.a.start, r.s.start), r);
    }
  }

  /** `set_min` keeps exactly the parts whose rating is at least `v`, and
      only ever shrinks the box. */
  lemma SetMinMeaning(p: Part, r: Ranges, f: Field, v: nat)
    ensures InRanges(p, SetMin(r, f, v)) <==> InRanges(p, r) && Get(p, f) >= v
    ensures Within(SetMin(r, f, v), r)
  {
  }

  /** `set_max` keeps exactly the parts whose rating is at most `v`, and only
      ever shrinks the box. */
  lemma SetMaxMeaning(p: Part, r: Ranges, f: Field, v: nat)
    ensures InRanges(p, SetMax(r, f, v)) <==> InRanges(p, r) && Get(p, f) <= v
    ensures Within(SetMax(r, f, v), r)
  {
  }

  /** A `<` rule splits the box in two with nothing lost and nothing shared:
      the branch holds the parts the rule sends on, the rest those it does
      not. */
  lemma SplitLt(p: Part, r: Ranges, f: Field, v: nat, t: WorkflowId)
    requires v > 0
    ensures InRanges(p, SetMax(r, f, v - 1)) <==> InRanges(p, r) && Fires(p, Lt(f, v, t))
    ensures InRanges(p, SetMin(r, f, v)) <==> InRanges(p, r) && !Fires(p, Lt(f, v, t))
  {
    SetMaxMeaning(p, r, f, v - 1);
    SetMinMeaning(p, r, f, v);
  }

  /** The same for a `>` rule. */
  lemma SplitGt(p: Part, r: Ranges, f: Field, v: nat, t: WorkflowId)
    ensures InRanges(p, SetMin(r, f, v + 1)) <==> InRanges(p, r) && Fires(p, Gt(f, v, t))
    ensures InRanges(p, SetMax(r, f, v)) <==> InRanges(p, r) && !Fires(p, Gt(f, v, t))
  {
    SetMinMeaning(p, r, f, v + 1);
    SetMaxMeaning(p, r, f, v);
  }

  function Len(sp: Span): nat { if sp.end >= sp.start then sp.end - sp.start else 0 }

  /** The number of parts in a box. */
  function Volume(r: Ranges): nat
  {
    Len(r.x) * Len(r.m) * Len(r.a) * Len(r.s)
  }

  function TotalVolume(rs: seq<Ranges>): nat
    decreases |rs|
  {
    if rs == [] then 0 else TotalVolume(rs[..|rs| - 1]) + Volume(rs[|rs| - 1])
  }

  /** A box has volume exactly when it is not empty. */
  lemma VolumePositive(r: Ranges)
    ensures Volume(r) > 0 <==> !IsEmpty(r)
  {
    if !IsEmpty(r) {
      assert Len(r.x) * Len(r.m) > 0;
      assert Len(r.x) * Len(r.m) * Len(r.a) > 0;
    }
  }

  /* ---------------- part 2: the job stack ---------------- */

  datatype Workitem = Workitem(rule: WorkflowId, ranges: Ranges)

  /** The stack of boxes still to route. */
  class Jobs {
    var jobs: seq<Workitem>

    constructor(first: Workitem)
      ensures jobs == [first]
    {
      jobs := [first];
    }

    /** `Jobs::push`: an empty box is dropped. */
    method Push(item: Workitem)
      modifies this
      ensures jobs == if IsEmpty(item.ranges) then old(jobs) else old(jobs) + [item]
    {
      if !IsEmpty(item.ranges) {
        jobs := jobs + [item];
      }
    }

    /** `Jobs::pop`: the most recently pushed box. */
    method Pop() returns (item: Option<Workitem>)
      modifies this
      ensures old(jobs) == [] ==> item.None? && jobs == []
      ensures old(jobs) != [] ==> item == Some(old(jobs)[|old(jobs)| - 1]) && jobs == old(jobs)[..|old(jobs)| - 1]
    {
      if jobs == [] {
        return None;
      }
      item := Some(jobs[|jobs| - 1]);
      jobs := jobs[..|jobs| - 1];
    }
  }

  /** Only the last rule of a workflow is unconditional. The source goes on
      past an unconditional rule, so without this a box can be routed twice. */
  predicate JmpLast(wfs: Workflows)
  {
    forall w, j :: w in wfs && 0 <= j < |wfs[w]| - 1 ==> !wfs[w][j].Jmp?
  }

  /** A name `part2` can meet: `in`, or the target of some rule. */
  ghost predicate KnownName(wfs: Workflows, n: string)
  {
    n == "in" || exists w, j :: w in wfs && 0 <= j < |wfs[w]| && wfs[w][j].target == Named(n)
  }

  /** What makes `part2` panic on some input: no `in` workflow, a rule whose
      target is missing, or a `<` against 0 (`value - 1` underflows). */
  ghost predicate Broken(wfs: Workflows)
  {
    "in" !in wfs ||
    exists w, j :: w in wfs && 0 <= j < |wfs[w]| &&
      ((wfs[w][j].Lt? && wfs[w][j].value == 0) ||
       (wfs[w][j].target.Named? && wfs[w][j].target.name !in wfs))
  }

  /** Every part of the box gets to `w` from `in`. */
  ghost predicate Sound(wfs: Workflows, r: Ranges, w: WorkflowId)
  {
    forall p :: InRanges(p, r) ==> Reaches(wfs, p, w)
  }

  /** What every queued box keeps: not empty, within the default box, a name
      `part2` can meet and, when only last rules are unconditional, only
      parts that really get to its workflow. */
  ghost predicate JobOk(wfs: Workflows, item: Workitem)
  {
    !IsEmpty(item.ranges) && Within(item.ranges, DefaultRanges()) &&
    (item.rule.Named? ==> KnownName(wfs, item.rule.name)) &&
    (JmpLast(wfs) ==> Sound(wfs, item.ranges, item.rule))
  }

  ghost predicate AllOk(wfs: Workflows, items: seq<Workitem>)
  {
    forall k :: 0 <= k < |items| ==> JobOk(wfs, items[k])
  }

  /** The rest of the box after the first `i` rules of workflow `name`:
      parts that got there and that none of those rules sent on. */
  ghost predicate Pending(wfs: Workflows, name: string, i: nat, r: Ranges)
    requires name in wfs && i <= |wfs[name]|
  {
    forall p :: InRanges(p, r) ==> Reaches(wfs, p, Named(name)) && NoneFires(p, wfs[name][..i])
  }

  /** The branch a rule splits off holds parts the workflow sends to the
      rule's target. */
  lemma BranchSound(wfs: Workflows, name: string, i: nat, r: Ranges, branch: Ranges)
    requires name in wfs && i < |wfs[name]| && Pending(wfs, name, i, r)
    requires forall p :: InRanges(p, branch) ==> InRanges(p, r) && Fires(p, wfs[name][i])
    ensures Sound(wfs, branch, wfs[name][i].target)
  {
    forall p | InRanges(p, branch)
      ensures Reaches(wfs, p, wfs[name][i].target)
    {
      FireAt(p, wfs[name], i);
      ReachesStep(wfs, p, name, wfs[name][i].target);
    }
  }

  /** What a rule leaves of the box is still pending after it. */
  lemma RestPending(wfs: Workflows, name: string, i: nat, r: Ranges, rest: Ranges)
    requires name in wfs && i < |wfs[name]| && Pending(wfs, name, i, r)
    requires forall p :: InRanges(p, rest) ==> InRanges(p, r) && !Fires(p, wfs[name][i])
    ensures Pending(wfs, name, i + 1, rest)
  {
    var rules := wfs[name];
    assert rules[..i + 1] == rules[..i] + [rules[i]];
  }

  /** The target of rule `i` of workflow `name` can be met. */
  lemma TargetKnown(wfs: Workflows, name: string, i: nat)
    requires name in wfs && i < |wfs[name]| && wfs[name][i].target.Named?
    ensures KnownName(wfs, wfs[name][i].target.name)
  {
  }

  /** Where `value - 1` underflows: a `<` against 0. */
  predicate Underflows(rule: Rule)
  {
    rule.Lt? && rule.value == 0
  }

  /** The box a rule splits off for its target. */
  function Branch(rule: Rule, r: Ranges): Ranges
    requires !Underflows(rule)
  {
    match rule
    case Lt(f, v, _) => SetMax(r, f, v - 1)
    case Gt(f, v, _) => SetMin(r, f, v + 1)
    case Jmp(_) => r
  }

  /** What a rule leaves of the box for the rules after it; an unconditional
      rule leaves all of it. */
  function Rest(rule: Rule, r: Ranges): Ranges
  {
    match rule
    case Lt(f, v, _) => SetMin(r, f, v)
    case Gt(f, v, _) => SetMax(r, f, v)
    case Jmp(_) => r
  }

  /** The jobs one rule pushes: its branch, unless that is empty. */
  function Pushed(rule: Rule, r: Ranges): seq<Workitem>
    requires !Underflows(rule)
  {
    var b := Branch(rule, r);
    if IsEmpty(b) then [] else [Workitem(rule.target, b)]
  }

  /** The jobs the loop over `rules` pushes, in order, starting from the box
      `r`; `None` where a `<` against 0 panics. */
  function PushedAll(rules: seq<Rule>, r: Ranges): Option<seq<Workitem>>
    decreases |rules|
  {
    if rules == [] then Some([])
    else if Underflows(rules[0]) then None
    else match PushedAll(rules[1..], Rest(rules[0], r))
      case None => None
      case Some(tail) => Some(Pushed(rules[0], r) + tail)
  }

  function Prefixed(items: seq<Workitem>, o: Option<seq<Workitem>>): Option<seq<Workitem>>
  {
    if o.None? then None else Some(items + o.value)
  }

  /** The branch holds exactly the parts of the box the rule sends on; the
      rest of a conditional rule exactly those it does not; both lie in the
      box. */
  lemma BranchRestMeaning(p: Part, rule: Rule, r: Ranges)
    requires !Underflows(rule)
    ensures InRanges(p, Branch(rule, r)) <==> InRanges(p, r) && Fires(p, rule)
    ensures !rule.Jmp? ==> (InRanges(p, Rest(rule, r)) <==> InRanges(p, r) && !Fires(p, rule))
    ensures Within(Branch(rule, r), r) && Within(Rest(rule, r), r)
  {
    match rule
    case Lt(f, v, t) =>
      assert Branch(rule, r) == SetMax(r, f, v - 1) && Rest(rule, r) == SetMin(r, f, v);
      SplitLt(p, r, f, v, t);
      SetMaxMeaning(p, r, f, v - 1);
      SetMinMeaning(p, r, f, v);
    case Gt(f, v, t) =>
      assert Branch(rule, r) == SetMin(r, f, v + 1) && Rest(rule, r) == SetMax(r, f, v);
      SplitGt(p, r, f, v, t);
      SetMinMeaning(p, r, f, v + 1);
      SetMaxMeaning(p, r, f, v);
    case Jmp(_) =>
  }

  /** The jobs `items` split the box `r` by where the parts go: a part of
      the box that is sent on (to `target`) lies in exactly one of them,
      whose target is that one, and no job holds any other part. */
  ghost predicate Splits(p: Part, r: Ranges, target: Option<WorkflowId>, items: seq<Workitem>)
  {
    (InRanges(p, r) && target.Some? ==>
       exists k :: 0 <= k < |items| && items[k].rule == target.value && InRanges(p, items[k].ranges)) &&
    (forall k :: 0 <= k < |items| && InRanges(p, items[k].ranges) ==> InRanges(p, r) && target == Some(items[k].rule)) &&
    (forall k, k' ::
       0 <= k < |items| && 0 <= k' < |items| && InRanges(p, items[k].ranges) && InRanges(p, items[k'].ranges)
       ==> k == k')
  }

  /** An unconditional rule pushes the whole box to its target. */
  lemma SplitsJmp(p: Part, r: Ranges, t: WorkflowId)
    ensures Splits(p, r, Some(t), Pushed(Jmp(t), r))
  {
    EmptyMeansNoParts(r);
    if InRanges(p, r) {
      assert Pushed(Jmp(t), r)[0] == Workitem(t, r);
    }
  }

  /** A conditional rule in front of jobs that split its rest: with its own
      branch they split the box. */
  lemma SplitsCons(p: Part, r: Ranges, rule: Rule, target: Option<WorkflowId>, tail: seq<Workitem>)
    requires !Underflows(rule) && !rule.Jmp?
    requires Splits(p, Rest(rule, r), target, tail)
    ensures Splits(p, r, if Fires(p, rule) then Some(rule.target) else target, Pushed(rule, r) + tail)
  {
    var head := Pushed(rule, r);
    var items := head + tail;
    BranchRestMeaning(p, rule, r);
    EmptyMeansNoParts(Branch(rule, r));
    assert forall k :: |head| <= k < |items| ==> items[k] == tail[k - |head|];
    if Fires(p, rule) {
      assert forall k :: 0 <= k < |tail| ==> !InRanges(p, tail[k].ranges);
      if InRanges(p, r) {
        assert items[0] == Workitem(rule.target, Branch(rule, r));
      }
    } else {
      assert forall k :: 0 <= k < |head| ==> !InRanges(p, items[k].ranges);
      if InRanges(p, r) && target.Some? {
        var k :| 0 <= k < |tail| && tail[k].rule == target.value && InRanges(p, tail[k].ranges);
        assert items[k + |head|] == tail[k];
      }
    }
  }

  /** When only the last rule may be unconditional, the jobs the loop pushes
      split the box by where the workflow sends each part. */
  lemma {:induction false} PushedAllSplits(p: Part, rules: seq<Rule>, r: Ranges, items: seq<Workitem>)
    requires PushedAll(rules, r) == Some(items)
    requires forall j :: 0 <= j < |rules| - 1 ==> !rules[j].Jmp?
    ensures Splits(p, r, Fire(p, rules), items)
    decreases |rules|
  {
    if rules != [] {
      var rule := rules[0];
      var tail := PushedAll(rules[1..], Rest(rule, r)).value;
      assert items == Pushed(rule, r) + tail;
      if rule.Jmp? {
        assert rules[1..] == [] && tail == [];
        assert Fire(p, rules) == Some(rule.target) && items == Pushed(Jmp(rule.target), r);
        SplitsJmp(p, r, rule.target);
      } else {
        forall j | 0 <= j < |rules[1..]| - 1
          ensures !rules[1..][j].Jmp?
        {
          assert rules[1..][j] == rules[j + 1];
        }
        PushedAllSplits(p, rules[1..], Rest(rule, r), tail);
        SplitsCons(p, r, rule, Fire(p, rules[1..]), tail);
      }
    }
  }

  /** One loop step of `PushedAll`: the rule at `i` pushes its branch and
      hands on its rest. */
  lemma PushedAllStep(rules: seq<Rule>, i: nat, r: Ranges, pushed: seq<Workitem>)
    requires i < |rules| && !Underflows(rules[i])
    ensures Prefixed(pushed, PushedAll(rules[i..], r))
         == Prefixed(pushed + Pushed(rules[i], r), PushedAll(rules[i + 1..], Rest(rules[i], r)))
  {
    assert rules[i..][0] == rules[i] && rules[i..][1..] == rules[i + 1..];
    var o := PushedAll(rules[i + 1..], Rest(rules[i], r));
    if o.Some? {
      assert PushedAll(rules[i..], r) == Some(Pushed(rules[i], r) + o.value);
      assert pushed + (Pushed(rules[i], r) + o.value) == pushed + Pushed(rules[i], r) + o.value;
    }
  }

  /** One rule of a workflow in `part2`: push the branch it splits off to
      its target and give back the rest. `false` where `value - 1`
      underflows. */
  method ApplyRule(wfs: Workflows, name: string, i: nat, ranges: Ranges, jobs: Jobs)
      returns (ok: bool, rest: Ranges)
    requires name in wfs && i < |wfs[name]|
    requires AllOk(wfs, jobs.jobs) && Within(ranges, DefaultRanges())
    requires JmpLast(wfs) ==> Pending(wfs, name, i, ranges)
    modifies jobs
    ensures ok <==> !Underflows(wfs[name][i])
    ensures !ok ==> jobs.jobs == old(jobs.jobs) && Broken(wfs)
    ensures ok ==> rest == Rest(wfs[name][i], ranges) && jobs.jobs == old(jobs.jobs) + Pushed(wfs[name][i], ranges)
    ensures ok && !wfs[name][i].Jmp? ==>
              forall p :: InRanges(p, rest) <==> InRanges(p, ranges) && !Fires(p, wfs[name][i])
    ensures AllOk(wfs, jobs.jobs)
    ensures ok ==> Within(rest, DefaultRanges())
    ensures ok && JmpLast(wfs) && !wfs[name][i].Jmp? ==> Pending(wfs, name, i + 1, rest)
  {
    var rule := wfs[name][i];
    var t := rule.target;
    if Underflows(rule) {
      return false, ranges;
    }
    var branch := Branch(rule, ranges);
    rest := Rest(rule, ranges);
    forall p
      ensures InRanges(p, branch) <==> InRanges(p, ranges) && Fires(p, rule)
      ensures !rule.Jmp? ==> (InRanges(p, rest) <==> InRanges(p, ranges) && !Fires(p, rule))
    {
      BranchRestMeaning(p, rule, ranges);
    }
    BranchRestMeaning(Part(0, 0, 0, 0), rule, ranges);
    if JmpLast(wfs) {
      BranchSound(wfs, name, i, ranges, branch);
      if !rule.Jmp? {
        RestPending(wfs, name, i, ranges, rest);
      }
    }
    if t.Named? {
      TargetKnown(wfs, name, i);
    }
    if rule.Jmp? || !IsEmpty(branch) {
      jobs.Push(Workitem(t, branch));
    }
    return true, rest;
  }

  /** The loop of `part2` over one workflow's rules: it pushes the jobs
      `PushedAll` lists, or fails exactly where that panics. */
  method RunRules(wfs: Workflows, name: string, ranges0: Ranges, jobs: Jobs) returns (ok: bool)
    requires name in wfs && JobOk(wfs, Workitem(Named(name), ranges0))
    requires AllOk(wfs, jobs.jobs)
    modifies jobs
    ensures ok <==> PushedAll(wfs[name], ranges0).Some?
    ensures ok ==> jobs.jobs == old(jobs.jobs) + PushedAll(wfs[name], ranges0).value
    ensures AllOk(wfs, jobs.jobs)
    ensures !ok ==> Broken(wfs)
  {
    var rules := wfs[name];
    var ranges := ranges0;
    var i := 0;
    ghost var pushed: seq<Workitem> := [];
    assert JmpLast(wfs) ==> Pending(wfs, name, 0, ranges);
    assert rules[0..] == rules && old(jobs.jobs) + [] == old(jobs.jobs);
    assert PushedAll(rules, ranges0).Some? ==> [] + PushedAll(rules, ranges0).value == PushedAll(rules, ranges0).value;
    while i < |rules|
      invariant 0 <= i <= |rules|
      invariant AllOk(wfs, jobs.jobs)
      invariant Within(ranges, DefaultRanges())
      invariant JmpLast(wfs) ==> Pending(wfs, name, i, ranges) || (0 < i == |rules| && rules[i - 1].Jmp?)
      invariant jobs.jobs == old(jobs.jobs) + pushed
      invariant PushedAll(rules, ranges0) == Prefixed(pushed, PushedAll(rules[i..], ranges))
    {
      if Underflows(rules[i]) {
        assert PushedAll(rules[i..], ranges).None?;
      } else {
        PushedAllStep(rules, i, ranges, pushed);
        pushed := pushed + Pushed(rules[i], ranges);
      }
      ok, ranges := ApplyRule(wfs, name, i, ranges, jobs);
      if !ok {
        return false;
      }
      i := i + 1;
    }
    assert rules[i..] == [];
    return true;
  }

  /** The start box is sound: every part is at `in` after no steps. */
  lemma StartSound(wfs: Workflows)
    ensures Sound(wfs, DefaultRanges(), Named("in"))
  {
    forall p | InRanges(p, DefaultRanges())
      ensures Reaches(wfs, p, Named("in"))
    {
      assert Iter(wfs, p, Named("in"), 0) == Some(Named("in"));
    }
  }

  /** A popped name that is missing breaks the workflows. */
  lemma MissingBroken(wfs: Workflows, name: string)
    requires KnownName(wfs, name) && name !in wfs
    ensures Broken(wfs)
  {
    if name != "in" {
      var w, j :| w in wfs && 0 <= j < |wfs[w]| && wfs[w][j].target == Named(name);
      assert wfs[w][j].target.Named? && wfs[w][j].target.name !in wfs;
    }
  }

  /** A box that reached `A`: not empty, within the default box and, when
      only last rules are unconditional, holding only accepted parts. */
  ghost predicate ResultOk(wfs: Workflows, r: Ranges)
  {
    !IsEmpty(r) && Within(r, DefaultRanges()) &&
    (JmpLast(wfs) ==> forall p :: InRanges(p, r) ==> Accepted(wfs, p))
  }

  /** `part2`, with at most `fuel` boxes popped: the boxes that reach `A`
      and the sum of their volumes. */
  method Part2(wfs: Workflows, fuel: nat) returns (r: Outcome, results: seq<Ranges>)
    ensures r.Panic? || r.OutOfFuel? || r.Done?
    ensures r.Panic? ==> Broken(wfs)
    ensures r.Done? ==> r.value == TotalVolume(results)
    ensures forall k :: 0 <= k < |results| ==> ResultOk(wfs, results[k])
  {
    var jobs := new Jobs(Workitem(Named("in"), DefaultRanges()));
    StartSound(wfs);
    results := [];
    var steps := 0;
    while steps < fuel
      invariant steps <= fuel
      invariant AllOk(wfs, jobs.jobs)
      invariant forall k :: 0 <= k < |results| ==> ResultOk(wfs, results[k])
      decreases fuel - steps
    {
      var item := jobs.Pop();
      if item.None? {
        return Done(TotalVolume(results)), results;
      }
      var job := item.value;
      assert JobOk(wfs, job);
      match job.rule {
        case Reject =>
        case Accept =>
          results := results + [job.ranges];
        case Named(name) =>
          if name !in wfs {
            MissingBroken(wfs, name);
            return Panic, results;
          }
          var ok := RunRules(wfs, name, job.ranges, jobs);
          if !ok {
            return Panic, results;
          }
      }
      steps := steps + 1;
    }
    return OutOfFuel, results;
  }
}
