// Day 20: modules wired by named outputs pass high and low pulses. A button
// press sends one low pulse to the broadcaster; pulses are handled in the
// order they were sent. Flip-flops toggle on low pulses, conjunctions send
// low only when every input they remember was high, the broadcaster repeats
// what it gets. `part1` counts the pulses of 1000 presses.

module Day20 {
  import opened Lib

  /** The three kinds of module line `parse_module` knows. */
  datatype Kind = FlipFlopKind | ConjunctionKind | BroadcastKind

  /** A parsed line: the parser gives flip-flops the state off and
      conjunctions no remembered inputs, so only the kind is kept. */
  datatype Decl = Decl(name: string, kind: Kind, outputs: seq<string>)

  datatype ModuleType =
    | FlipFlop(state: bool)
    | Conjunction(inputs: map<string, bool>)
    | Broadcast
    | Rx

  /** A module of the machine; its name is its key in the machine's map. */
  datatype Module = Module(variant: ModuleType, outputs: seq<string>)

  datatype Pulse = Pulse(src: string, dest: string, high: bool)

  /** The state of a `Machine`. */
  datatype Config = Config(
    modules: map<string, Module>,
    pulseTrue: nat,
    pulseFalse: nat,
    prods: nat,
    towatch: map<string, nat>)

  /* ---------------- building the machine ---------------- */

  /** The names of the lines that list `n` as an output. */
  function InputsOf(data: seq<Decl>, n: string): set<string>
  {
    set k | 0 <= k < |data| && n in data[k].outputs :: data[k].name
  }

  /** A line as a module: a conjunction remembers low from every line that
      lists it as an output. */
  function Init(d: Decl, data: seq<Decl>): Module
  {
    match d.kind
    case FlipFlopKind => Module(FlipFlop(false), d.outputs)
    case ConjunctionKind => Module(Conjunction(map s | s in InputsOf(data, d.name) :: false), d.outputs)
    case BroadcastKind => Module(Broadcast, d.outputs)
  }

  /** The map of modules made from the lines `ds`; a later line of the same
      name replaces an earlier one. */
  function Collect(ds: seq<Decl>, data: seq<Decl>): map<string, Module>
    decreases |ds|
  {
    if ds == [] then map[] else Collect(ds[..|ds| - 1], data)[ds[|ds| - 1].name := Init(ds[|ds| - 1], data)]
  }

  /** Every module of the map comes from a line of its name. */
  lemma {:induction false} CollectFrom(ds: seq<Decl>, data: seq<Decl>, n: string)
    requires n in Collect(ds, data)
    ensures exists k :: 0 <= k < |ds| && ds[k].name == n && Collect(ds, data)[n] == Init(ds[k], data)
    decreases |ds|
  {
    var init := ds[..|ds| - 1];
    if n != ds[|ds| - 1].name {
      CollectFrom(init, data, n);
      var k :| 0 <= k < |init| && init[k].name == n && Collect(init, data)[n] == Init(init[k], data);
      assert ds[k] == init[k];
    }
  }

  /** `Machine::from`: the modules, with every module that feeds the single
      module sending to `output` (if one is given) turned into a watched
      `Rx`. `None` where the source's `assert_eq!` fails: not exactly one
      module sends to `output`. */
  function From(data: seq<Decl>, output: Option<string>): Option<Config>
  {
    var modules := Collect(data, data);
    match output
    case None => Some(Config(modules, 0, 0, 0, map[]))
    case Some(o) =>
      var toRx := set n | n in modules && o in modules[n].outputs;
      if |toRx| != 1 then None
      else
        var feeders := set n | n in modules && exists s :: s in toRx && s in modules[n].outputs;
        Some(Config(
          map n | n in modules :: if n in feeders then modules[n].(variant := Rx) else modules[n],
          0, 0, 0,
          map n | n in feeders :: 0))
  }

  /** A conjunction of the new machine remembers low from exactly the lines
      that list it as an output. */
  lemma FromConjunctions(data: seq<Decl>, output: Option<string>, n: string)
    requires From(data, output).Some? && n in From(data, output).value.modules
    requires From(data, output).value.modules[n].variant.Conjunction?
    ensures From(data, output).value.modules[n].variant.inputs == map s | s in InputsOf(data, n) :: false
  {
    CollectFrom(data, data, n);
  }

  /** The conditions under which `prod` never panics: a conjunction
      remembers every module that sends to it (and the button, if it is the
      broadcaster), and every `Rx` module is watched. */
  ghost predicate WellFormed(c: Config)
  {
    (forall n, s :: (n in c.modules && c.modules[n].variant.Conjunction? && s in c.modules &&
      n in c.modules[s].outputs) ==> s in c.modules[n].variant.inputs) &&
    ("broadcaster" in c.modules && c.modules["broadcaster"].variant.Conjunction? ==>
      "button" in c.modules["broadcaster"].variant.inputs) &&
    (forall n :: n in c.modules && c.modules[n].variant.Rx? ==> n in c.towatch)
  }

  /** The parser makes every line named `broadcaster` a broadcaster. */
  predicate ParsedBroadcaster(data: seq<Decl>)
  {
    forall k :: 0 <= k < |data| && data[k].name == "broadcaster" ==> data[k].kind == BroadcastKind
  }

  /** A machine built from parsed lines is well formed. */
  lemma FromWellFormed(data: seq<Decl>, output: Option<string>)
    requires ParsedBroadcaster(data) && From(data, output).Some?
    ensures WellFormed(From(data, output).value)
  {
    var c := From(data, output).value;
    forall n, s | n in c.modules && c.modules[n].variant.Conjunction? && s in c.modules && n in c.modules[s].outputs
      ensures s in c.modules[n].variant.inputs
    {
      FromConjunctions(data, output, n);
      CollectFrom(data, data, s);
      var k :| 0 <= k < |data| && data[k].name == s && Collect(data, data)[s] == Init(data[k], data);
      assert n in data[k].outputs;
    }
    if "broadcaster" in c.modules {
      CollectFrom(data, data, "broadcaster");
    }
    forall n | n in c.modules && c.modules[n].variant.Rx?
      ensures n in c.towatch
    {
      CollectFrom(data, data, n);
    }
  }

  /* ---------------- delivering pulses ---------------- */

  /** The pulses a module sends: one per output, in output order. */
  function Send(src: string, outputs: seq<string>, high: bool): (r: seq<Pulse>)
    ensures |r| == |outputs|
    ensures forall i :: 0 <= i < |r| ==> r[i] == Pulse(src, outputs[i], high)
  {
    seq(|outputs|, i requires 0 <= i < |outputs| => Pulse(src, outputs[i], high))
  }

  predicate AllHigh(inputs: map<string, bool>)
  {
    forall s :: s in inputs ==> inputs[s]
  }

  /** One turn of `prod`'s loop: count the pulse, let its destination react
      and give back the pulses it sends. `None` where the source panics: a
      conjunction that does not know the sender, or an `Rx` that is not
      watched. */
  function Deliver(c: Config, p: Pulse): Option<(Config, seq<Pulse>)>
  {
    var counted := if p.high then c.(pulseTrue := c.pulseTrue + 1) else c.(pulseFalse := c.pulseFalse + 1);
    if p.dest !in c.modules then Some((counted, []))
    else
      var m := c.modules[p.dest];
      match m.variant
      case FlipFlop(state) =>
        if p.high then Some((counted, []))
        else
          Some((counted.(modules := c.modules[p.dest := m.(variant := FlipFlop(!state))]),
                Send(p.dest, m.outputs, !state)))
      case Conjunction(inputs) =>
        if p.src !in inputs then None
        else
          var remembered := inputs[p.src := p.high];
          Some((counted.(modules := c.modules[p.dest := m.(variant := Conjunction(remembered))]),
                Send(p.dest, m.outputs, !AllHigh(remembered))))
      case Broadcast => Some((counted, Send(p.dest, m.outputs, p.high)))
      case Rx =>
        if p.high then Some((counted, []))
        else if p.dest !in c.towatch then None
        else if c.towatch[p.dest] == 0 then Some((counted.(towatch := c.towatch[p.dest := c.prods]), []))
        else Some((counted, []))
  }

  /** Every delivered pulse adds one to exactly the counter of its value. */
  lemma DeliverCounts(c: Config, p: Pulse)
    requires Deliver(c, p).Some?
    ensures var c' := Deliver(c, p).value.0;
      (c'.pulseTrue, c'.pulseFalse) ==
        if p.high then (c.pulseTrue + 1, c.pulseFalse) else (c.pulseTrue, c.pulseFalse + 1)
  {
  }

  /** A flip-flop ignores a high pulse; on a low one it toggles and sends its
      new state to every output. */
  lemma FlipFlopRule(c: Config, p: Pulse, state: bool)
    requires p.dest in c.modules && c.modules[p.dest].variant == FlipFlop(state)
    ensures p.high ==> Deliver(c, p).value.0.modules == c.modules && Deliver(c, p).value.1 == []
    ensures !p.high ==> (Deliver(c, p).value.0.modules[p.dest].variant == FlipFlop(!state) &&
      Deliver(c, p).value.1 == Send(p.dest, c.modules[p.dest].outputs, !state))
  {
  }

  /** A conjunction remembers the sender's value, then sends low exactly when
      every remembered input is high. */
  lemma ConjunctionRule(c: Config, p: Pulse, inputs: map<string, bool>)
    requires p.dest in c.modules && c.modules[p.dest].variant == Conjunction(inputs) && p.src in inputs
    ensures var r := Deliver(c, p).value;
      r.0.modules[p.dest].variant.inputs == inputs[p.src := p.high] &&
      |r.1| == |c.modules[p.dest].outputs| &&
      forall i :: 0 <= i < |r.1| ==> (!r.1[i].high <==> forall s :: s in inputs ==> (if s == p.src then p.high else inputs[s]))
  {
    var remembered := inputs[p.src := p.high];
    assert forall s :: s in remembered <==> s in inputs;
    assert AllHigh(remembered) <==> forall s :: s in inputs ==> (if s == p.src then p.high else inputs[s]);
  }

  /** A watched `Rx` keeps the press number of its first low pulse. */
  lemma RxRule(c: Config, p: Pulse)
    requires p.dest in c.modules && c.modules[p.dest].variant.Rx? && p.dest in c.towatch
    ensures var t := Deliver(c, p).value.0.towatch;
      t.Keys == c.towatch.Keys &&
      t[p.dest] == (if !p.high && c.towatch[p.dest] == 0 then c.prods else c.towatch[p.dest]) &&
      forall n :: n in t && n != p.dest ==> t[n] == c.towatch[n]
  {
  }

  /** A pulse to an unknown module is only counted. */
  lemma UnknownRule(c: Config, p: Pulse)
    requires p.dest !in c.modules
    ensures Deliver(c, p).Some? && Deliver(c, p).value.1 == []
    ensures Deliver(c, p).value.0.modules == c.modules && Deliver(c, p).value.0.towatch == c.towatch
  {
  }

  /** How a run of the pulse queue ends; `Exhausted` is the fuel bound. */
  datatype RunResult = Panicked | Exhausted | Finished(config: Config)

  /** `prod`'s `while let` loop: pulses are handled first in, first out. */
  function Run(c: Config, queue: seq<Pulse>, fuel: nat): RunResult
    decreases fuel
  {
    if queue == [] then Finished(c)
    else if fuel == 0 then Exhausted
    else
      match Deliver(c, queue[0])
      case None => Panicked
      case Some((c', sent)) => Run(c', queue[1..] + sent, fuel - 1)
  }

  /** `prod`: one press of the button. */
  function Press(c: Config, fuel: nat): RunResult
  {
    Run(c.(prods := c.prods + 1), [Pulse("button", "broadcaster", false)], fuel)
  }

  /* ---------------- what a run keeps ---------------- */

  /** A pulse a module can send: from a known module to one of its outputs,
      or the button's pulse to the broadcaster. */
  predicate PulseOk(c: Config, p: Pulse)
  {
    (p.src == "button" && p.dest == "broadcaster") ||
    (p.src in c.modules && p.dest in c.modules[p.src].outputs)
  }

  predicate QueueOk(c: Config, queue: seq<Pulse>)
  {
    forall i :: 0 <= i < |queue| ==> PulseOk(c, queue[i])
  }

  /** The wiring a pulse changes nothing of: the module names, their
      outputs, their kinds, the inputs a conjunction remembers and the
      watched names. */
  predicate SameWiring(c: Config, d: Config)
  {
    c.modules.Keys == d.modules.Keys && c.towatch.Keys == d.towatch.Keys &&
    forall n :: n in c.modules ==>
      d.modules[n].outputs == c.modules[n].outputs &&
      d.modules[n].variant.FlipFlop? == c.modules[n].variant.FlipFlop? &&
      d.modules[n].variant.Rx? == c.modules[n].variant.Rx? &&
      d.modules[n].variant.Broadcast? == c.modules[n].variant.Broadcast? &&
      (c.modules[n].variant.Conjunction? ==>
        d.modules[n].variant.Conjunction? && d.modules[n].variant.inputs.Keys == c.modules[n].variant.inputs.Keys)
  }

  /** A well-formed machine never panics on a pulse a module can send. */
  lemma DeliverNoPanic(c: Config, p: Pulse)
    requires WellFormed(c) && PulseOk(c, p)
    ensures Deliver(c, p).Some?
  {
  }

  /** A pulse keeps the wiring. */
  lemma DeliverWiring(c: Config, p: Pulse)
    requires Deliver(c, p).Some?
    ensures SameWiring(c, Deliver(c, p).value.0)
  {
  }

  /** What a pulse sends goes from its destination to that module's outputs. */
  lemma DeliverSends(c: Config, p: Pulse)
    requires Deliver(c, p).Some?
    ensures forall i :: 0 <= i < |Deliver(c, p).value.1| ==>
      PulseOk(Deliver(c, p).value.0, Deliver(c, p).value.1[i])
  {
  }

  /** Well-formedness depends only on the wiring. */
  lemma WiringKeepsWellFormed(c: Config, d: Config)
    requires WellFormed(c) && SameWiring(c, d)
    ensures WellFormed(d)
  {
  }

  lemma WiringTransitive(c: Config, d: Config, e: Config)
    requires SameWiring(c, d) && SameWiring(d, e)
    ensures SameWiring(c, e)
  {
  }

  /** A well-formed machine never panics on a pulse a module can send; the
      pulse keeps the wiring, and what it sends can be sent. */
  lemma DeliverSafe(c: Config, queue: seq<Pulse>)
    requires WellFormed(c) && QueueOk(c, queue) && queue != []
    ensures Deliver(c, queue[0]).Some?
    ensures SameWiring(c, Deliver(c, queue[0]).value.0)
    ensures WellFormed(Deliver(c, queue[0]).value.0)
    ensures QueueOk(Deliver(c, queue[0]).value.0, queue[1..] + Deliver(c, queue[0]).value.1)
  {
    var p := queue[0];
    DeliverNoPanic(c, p);
    DeliverWiring(c, p);
    DeliverSends(c, p);
    var (d, sent) := Deliver(c, p).value;
    WiringKeepsWellFormed(c, d);
    var q := queue[1..] + sent;
    forall i | 0 <= i < |q|
      ensures PulseOk(d, q[i])
    {
      if i < |queue| - 1 {
        assert q[i] == queue[i + 1];
        assert PulseOk(c, queue[i + 1]);
      } else {
        assert q[i] == sent[i - (|queue| - 1)];
      }
    }
  }

  /** A well-formed machine runs its queue without panicking, and keeps its
      wiring. */
  lemma {:induction false} RunSafe(c: Config, queue: seq<Pulse>, fuel: nat)
    requires WellFormed(c) && QueueOk(c, queue)
    ensures !Run(c, queue, fuel).Panicked?
    ensures Run(c, queue, fuel).Finished? ==> SameWiring(c, Run(c, queue, fuel).config)
    decreases fuel
  {
    if queue != [] && fuel > 0 {
      DeliverSafe(c, queue);
      var (d, sent) := Deliver(c, queue[0]).value;
      RunSafe(d, queue[1..] + sent, fuel - 1);
    }
  }

  /** A machine built from parsed lines never panics on a press. */
  lemma PressSafe(data: seq<Decl>, output: Option<string>, fuel: nat)
    requires ParsedBroadcaster(data) && From(data, output).Some?
    ensures !Press(From(data, output).value, fuel).Panicked?
  {
    var c := From(data, output).value;
    FromWellFormed(data, output);
    RunSafe(c.(prods := c.prods + 1), [Pulse("button", "broadcaster", false)], fuel);
  }

  /** Over a whole run both counters only grow, and by at least one per
      queued pulse; a watched entry, once set, is never overwritten, and an
      unset one can only be set to the current press. */
  lemma {:induction false} RunRecords(c: Config, queue: seq<Pulse>, fuel: nat)
    requires Run(c, queue, fuel).Finished?
    ensures var d := Run(c, queue, fuel).config;
      d.pulseTrue >= c.pulseTrue && d.pulseFalse >= c.pulseFalse &&
      d.pulseTrue + d.pulseFalse >= c.pulseTrue + c.pulseFalse + |queue| &&
      d.prods == c.prods && d.towatch.Keys == c.towatch.Keys &&
      forall n :: n in c.towatch ==>
        (c.towatch[n] != 0 ==> d.towatch[n] == c.towatch[n]) &&
        (d.towatch[n] == c.towatch[n] || d.towatch[n] == c.prods)
    decreases fuel
  {
    if queue != [] {
      var (d, sent) := Deliver(c, queue[0]).value;
      RunRecords(d, queue[1..] + sent, fuel - 1);
    }
  }

  /* ---------------- the machine ---------------- */

  /** The result of one press of a `Machine`. */
  datatype Status = Ok | Panic | OutOfFuel

  function StatusOf(r: RunResult): Status
  {
    match r
    case Panicked => Panic
    case Exhausted => OutOfFuel
    case Finished(_) => Ok
  }

  class Machine {
    var modules: map<string, Module>
    var pulseTrue: nat
    var pulseFalse: nat
    var prods: nat
    var towatch: map<string, nat>

    function State(): Config
      reads this
    {
      Config(modules, pulseTrue, pulseFalse, prods, towatch)
    }

    constructor(c: Config)
      ensures State() == c
    {
      modules, pulseTrue, pulseFalse, prods, towatch := c.modules, c.pulseTrue, c.pulseFalse, c.prods, c.towatch;
    }

    /** `pulse_count`. */
    function PulseCount(): (r: nat)
      reads this
      ensures r == 0 <==> pulseTrue == 0 || pulseFalse == 0
    {
      pulseTrue * pulseFalse
    }

    /** The module's pulses, pushed one output at a time. */
    static method Emit(src: string, outputs: seq<string>, high: bool) returns (sent: seq<Pulse>)
      ensures sent == Send(src, outputs, high)
    {
      sent := [];
      var i := 0;
      while i < |outputs|
        invariant 0 <= i <= |outputs|
        invariant sent == Send(src, outputs[..i], high)
      {
        sent := sent + [Pulse(src, outputs[i], high)];
        i := i + 1;
      }
      assert outputs[..i] == outputs;
    }

    /** One turn of `prod`'s loop, updating the machine in place. */
    method Handle(p: Pulse) returns (sent: Option<seq<Pulse>>)
      modifies this
      ensures Deliver(old(State()), p).None? <==> sent.None?
      ensures sent.Some? ==> Deliver(old(State()), p) == Some((State(), sent.value))
    {
      if p.high {
        pulseTrue := pulseTrue + 1;
      } else {
        pulseFalse := pulseFalse + 1;
      }
      if p.dest !in modules {
        return Some([]);
      }
      var m := modules[p.dest];
      match m.variant {
        case FlipFlop(state) =>
          if p.high {
            return Some([]);
          }
          modules := modules[p.dest := m.(variant := FlipFlop(!state))];
          var out := Emit(p.dest, m.outputs, !state);
          return Some(out);
        case Conjunction(inputs) =>
          if p.src !in inputs {
            return None;
          }
          var remembered := inputs[p.src := p.high];
          modules := modules[p.dest := m.(variant := Conjunction(remembered))];
          var out := Emit(p.dest, m.outputs, !AllHigh(remembered));
          return Some(out);
        case Broadcast =>
          var out := Emit(p.dest, m.outputs, p.high);
          return Some(out);
        case Rx =>
          if !p.high {
            if p.dest !in towatch {
              return None;
            }
            if towatch[p.dest] == 0 {
              towatch := towatch[p.dest := prods];
            }
          }
          return Some([]);
      }
    }

    /** `prod`: press the button and handle pulses until none is left, at
        most `fuel` of them. */
    method Prod(fuel: nat) returns (s: Status)
      modifies this
      ensures s == StatusOf(Press(old(State()), fuel))
      ensures s == Ok ==> State() == Press(old(State()), fuel).config
    {
      prods := prods + 1;
      var pulses := [Pulse("button", "broadcaster", false)];
      var steps := 0;
      while pulses != []
        invariant steps <= fuel
        invariant Run(State(), pulses, fuel - steps) == Press(old(State()), fuel)
        decreases fuel - steps
      {
        if steps == fuel {
          return OutOfFuel;
        }
        var p := pulses[0];
        var sent := Handle(p);
        if sent.None? {
          return Panic;
        }
        pulses := pulses[1..] + sent.value;
        steps := steps + 1;
      }
      return Ok;
    }
  }

  /* ---------------- part 1 ---------------- */

  /** `n` presses in a row. */
  function Presses(c: Config, n: nat, fuel: nat): RunResult
    decreases n
  {
    if n == 0 then Finished(c)
    else
      match Presses(c, n - 1, fuel)
      case Finished(d) => Press(d, fuel)
      case other => other
  }

  datatype Outcome = Failed(status: Status) | Done(value: nat)

  /** `part1`: the product of the two counters after 1000 presses. */
  function Part1Spec(data: seq<Decl>, fuel: nat): Outcome
  {
    match Presses(From(data, None).value, 1000, fuel)
    case Finished(c) => Done(c.pulseTrue * c.pulseFalse)
    case r => Failed(StatusOf(r))
  }

  method Part1(data: seq<Decl>, fuel: nat) returns (r: Outcome)
    ensures r == Part1Spec(data, fuel)
  {
    var machine := new Machine(From(data, None).value);
    var i := 0;
    while i < 1000
      invariant 0 <= i <= 1000
      invariant Presses(From(data, None).value, i, fuel) == Finished(machine.State())
    {
      var s := machine.Prod(fuel);
      if s != Ok {
        PressesStop(From(data, None).value, i + 1, 1000, fuel);
        return Failed(s);
      }
      i := i + 1;
    }
    return Done(machine.PulseCount());
  }

  /** Once a press fails, every later count of presses fails the same way. */
  lemma {:induction false} PressesStop(c: Config, n: nat, m: nat, fuel: nat)
    requires n <= m && !Presses(c, n, fuel).Finished?
    ensures Presses(c, m, fuel) == Presses(c, n, fuel)
    decreases m - n
  {
    if n < m {
      PressesStop(c, n, m - 1, fuel);
    }
  }

  /** A machine built from parsed lines keeps its wiring and never panics
      over any number of presses. */
  lemma {:induction false} PressesSafe(data: seq<Decl>, n: nat, fuel: nat)
    requires ParsedBroadcaster(data)
    ensures !Presses(From(data, None).value, n, fuel).Panicked?
    ensures Presses(From(data, None).value, n, fuel).Finished? ==>
      SameWiring(From(data, None).value, Presses(From(data, None).value, n, fuel).config) &&
      WellFormed(Presses(From(data, None).value, n, fuel).config)
    decreases n
  {
    var c := From(data, None).value;
    FromWellFormed(data, None);
    if n > 0 {
      PressesSafe(data, n - 1, fuel);
      match Presses(c, n - 1, fuel)
      case Finished(d) =>
        OnePressSafe(c, d, fuel);
      case _ =>
    }
  }

  /** One press of a machine wired like `c` never panics and keeps the
      wiring. */
  lemma OnePressSafe(c: Config, d: Config, fuel: nat)
    requires WellFormed(c) && SameWiring(c, d) && WellFormed(d)
    ensures !Press(d, fuel).Panicked?
    ensures Press(d, fuel).Finished? ==> SameWiring(c, Press(d, fuel).config) && WellFormed(Press(d, fuel).config)
  {
    var d' := d.(prods := d.prods + 1);
    RunSafe(d', [Pulse("button", "broadcaster", false)], fuel);
    if Press(d, fuel).Finished? {
      var e := Press(d, fuel).config;
      assert SameWiring(d, d');
      WiringTransitive(d, d', e);
      WiringTransitive(c, d, e);
      WiringKeepsWellFormed(c, e);
    }
  }

  /** `part1` never panics on parsed lines. */
  lemma Part1Safe(data: seq<Decl>, fuel: nat)
    requires ParsedBroadcaster(data)
    ensures Part1Spec(data, fuel) != Failed(Panic)
  {
    PressesSafe(data, 1000, fuel);
  }
}
