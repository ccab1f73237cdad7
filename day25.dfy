/** Day 25: a graph of named components.  Part 1 counts, along fewest-edge
    routes between fixed pairs of nodes, how often each edge is used, then
    tries removing triples of the most used edges until node 0's group no
    longer holds every node, and answers the product of the two group sizes. */
module Day25 {
  import opened Lib
  import Sorting

  /* ---------------- edge_enc ---------------- */

  /** 2^32: the shift `<< 32` multiplies by it. */
  const Half: nat := 0x1_0000_0000
  /** 2^64: the width of `u64`. */
  const Word: nat := 0x1_0000_0000_0000_0000

  /** Bitwise or of two naturals. */
  function Or(x: nat, y: nat): nat
  {
    if x == 0 then y
    else if y == 0 then x
    else 2 * Or(x / 2, y / 2) + (if x % 2 == 1 || y % 2 == 1 then 1 else 0)
  }

  /** Or-ing a value whose low `k` bits are clear with one below 2^k adds them. */
  lemma {:induction false} OrDisjoint(h: nat, k: nat, l: nat)
    requires l < Pow2(k)
    ensures Or(h * Pow2(k), l) == h * Pow2(k) + l
  {
    if k > 0 && h != 0 && l != 0 {
      var x := h * Pow2(k);
      assert x == 2 * (h * Pow2(k - 1));
      assert x / 2 == h * Pow2(k - 1);
      assert x % 2 == 0;
      OrDisjoint(h, k - 1, l / 2);
    }
  }

  lemma Pow32()
    ensures Pow2(32) == Half
  {
    assert Pow2(8) == 256;
    assert Pow2(16) == 65536;
    assert Pow2(24) == 16777216;
  }

  /** `edge_enc`: the smaller id cast to `u64` and shifted into the high half,
      or'd with the larger id. */
  function EdgeEnc(a: nat, b: nat): nat
  {
    if a < b then Or(a % Word * Half % Word, b % Word)
    else Or(b % Word * Half % Word, a % Word)
  }

  function Min(a: nat, b: nat): nat { if a < b then a else b }
  function Max(a: nat, b: nat): nat { if a < b then b else a }

  /** For ids below 2^32 the code does not depend on the order of the ends,
      holds the smaller id in its high 32 bits and the larger in its low 32. */
  lemma EdgeEncFields(a: nat, b: nat)
    requires a < Half && b < Half
    ensures EdgeEnc(a, b) == EdgeEnc(b, a)
    ensures EdgeEnc(a, b) == Min(a, b) * Half + Max(a, b)
    ensures EdgeEnc(a, b) / Half == Min(a, b) && EdgeEnc(a, b) % Half == Max(a, b)
  {
    var lo, hi := Min(a, b), Max(a, b);
    assert hi % Word == hi;
    assert lo % Word == lo;
    assert lo * Half < Word;
    assert lo % Word * Half % Word == lo * Half;
    assert EdgeEnc(a, b) == Or(lo * Half, hi);
    Pow32();
    OrDisjoint(lo, 32, hi);
  }

  /** So two edges between ids below 2^32 share a code only when they join the
      same two nodes. */
  lemma EdgeEncInjective(a: nat, b: nat, c: nat, d: nat)
    requires a < Half && b < Half && c < Half && d < Half
    requires EdgeEnc(a, b) == EdgeEnc(c, d)
    ensures Min(a, b) == Min(c, d) && Max(a, b) == Max(c, d)
  {
    EdgeEncFields(a, b);
    EdgeEncFields(c, d);
  }

  /* ---------------- the graph ---------------- */

  /** `Data::nodes`: each node's list of linked nodes. */
  type Graph = map<nat, seq<nat>>

  /** A link the searches may follow: `b` is listed among `a`'s links and the
      edge between them is not ignored. */
  ghost predicate Linked(g: Graph, ignore: seq<nat>, a: nat, b: nat)
  {
    a in g && b in g[a] && EdgeEnc(a, b) !in ignore
  }

  /** A walk along links that are not ignored. */
  ghost predicate Walk(g: Graph, ignore: seq<nat>, p: seq<nat>)
  {
    |p| >= 1 && forall i :: 0 <= i < |p| - 1 ==> Linked(g, ignore, p[i], p[i + 1])
  }

  ghost predicate WalkBetween(g: Graph, ignore: seq<nat>, p: seq<nat>, a: nat, b: nat)
  {
    Walk(g, ignore, p) && p[0] == a && p[|p| - 1] == b
  }

  ghost predicate Reaches(g: Graph, ignore: seq<nat>, a: nat, b: nat)
  {
    exists p :: WalkBetween(g, ignore, p, a, b)
  }

  lemma WalkSnoc(g: Graph, ignore: seq<nat>, p: seq<nat>, a: nat, b: nat, c: nat)
    requires WalkBetween(g, ignore, p, a, b) && Linked(g, ignore, b, c)
    ensures WalkBetween(g, ignore, p + [c], a, c)
  {
    var q := p + [c];
    forall i | 0 <= i < |q| - 1
      ensures Linked(g, ignore, q[i], q[i + 1])
    {
      if i < |p| - 1 {
        assert q[i] == p[i] && q[i + 1] == p[i + 1];
      }
    }
  }

  /** Every node some walk from `a` can reach lies in a set that holds `a` and
      is closed under following links. */
  lemma {:induction false} ClosedHoldsWalks(g: Graph, ignore: seq<nat>, s: set<nat>, p: seq<nat>, a: nat, b: nat)
    requires a in s
    requires forall v, w :: v in s && Linked(g, ignore, v, w) ==> w in s
    requires WalkBetween(g, ignore, p, a, b)
    ensures b in s
    decreases |p|
  {
    if |p| > 1 {
      var q := p[..|p| - 1];
      assert Linked(g, ignore, p[|p| - 2], p[|p| - 1]);
      assert WalkBetween(g, ignore, q, a, q[|q| - 1]) by {
        forall i | 0 <= i < |q| - 1
          ensures Linked(g, ignore, q[i], q[i + 1])
        {
          assert Linked(g, ignore, p[i], p[i + 1]);
        }
      }
      ClosedHoldsWalks(g, ignore, s, q, a, q[|q| - 1]);
    }
  }

  /** Every node named in the graph: node 0, the keys and every listed link. */
  ghost function Nodes(g: Graph): set<nat>
  {
    {0} + g.Keys + Targets(g)
  }

  /** Every node listed as a link. */
  ghost function Targets(g: Graph): set<nat>
  {
    set k, d | k in g && d in g[k] :: d
  }

  /** Node 0's group once the `ignore` edges are cut. */
  ghost function Group(g: Graph, ignore: seq<nat>): set<nat>
  {
    set v | v in Nodes(g) && Reaches(g, ignore, 0, v)
  }

  /** `group_size` unwraps the links of every node it visits: it panics when
      node 0's group holds a node without an entry. */
  ghost predicate GroupPanics(g: Graph, ignore: seq<nat>)
  {
    exists v :: Reaches(g, ignore, 0, v) && v !in g
  }

  lemma ReachedNamed(g: Graph, ignore: seq<nat>, p: seq<nat>, v: nat)
    requires WalkBetween(g, ignore, p, 0, v)
    ensures v in Nodes(g)
  {
    if |p| > 1 {
      assert Linked(g, ignore, p[|p| - 2], p[|p| - 1]);
    }
  }

  /** A group is a component of the cut graph: no link that is not ignored
      leaves it, except from a node that panics. */
  lemma GroupIsCut(g: Graph, ignore: seq<nat>, v: nat, w: nat)
    requires v in Group(g, ignore) && Linked(g, ignore, v, w)
    ensures w in Group(g, ignore)
  {
    var p :| WalkBetween(g, ignore, p, 0, v);
    WalkSnoc(g, ignore, p, 0, v, w);
    ReachedNamed(g, ignore, p + [w], w);
  }

  /** How many entries of `s` are already in `seen`. */
  function Stale(s: seq<nat>, seen: set<nat>): nat
  {
    if s == [] then 0 else Stale(s[..|s| - 1], seen) + (if s[|s| - 1] in seen then 1 else 0)
  }

  /** The links of `n` that the inner loop of `group_size` pushes: those whose
      edge is not ignored and that were not yet visited, in order. */
  function Pushed(n: nat, links: seq<nat>, ignore: seq<nat>, nodes: set<nat>): seq<nat>
  {
    if links == [] then []
    else
      var w := links[|links| - 1];
      Pushed(n, links[..|links| - 1], ignore, nodes) + (if EdgeEnc(n, w) !in ignore && w !in nodes then [w] else [])
  }

  lemma {:induction false} PushedMeaning(n: nat, links: seq<nat>, ignore: seq<nat>, nodes: set<nat>)
    ensures forall w :: w in Pushed(n, links, ignore, nodes) <==> w in links && EdgeEnc(n, w) !in ignore && w !in nodes
  {
    if links != [] {
      var init := links[..|links| - 1];
      PushedMeaning(n, init, ignore, nodes);
      assert links == init + [links[|links| - 1]];
    }
  }

  lemma {:induction false} PushedStale(s: seq<nat>, n: nat, links: seq<nat>, ignore: seq<nat>, nodes: set<nat>)
    ensures Stale(s + Pushed(n, links, ignore, nodes), nodes) == Stale(s, nodes)
  {
    if links != [] {
      var init := links[..|links| - 1];
      var w := links[|links| - 1];
      var t := s + Pushed(n, init, ignore, nodes);
      PushedStale(s, n, init, ignore, nodes);
      if EdgeEnc(n, w) !in ignore && w !in nodes {
        assert s + Pushed(n, links, ignore, nodes) == t + [w];
        assert (t + [w])[..|t|] == t;
      } else {
        assert s + Pushed(n, links, ignore, nodes) == t;
      }
    } else {
      assert s + Pushed(n, links, ignore, nodes) == s;
    }
  }

  /** The inner loop of `group_size`: push every link of `n` whose edge is not
      ignored and that has not been visited. */
  method Visit(n: nat, links: seq<nat>, ignore: seq<nat>, nodes: set<nat>, toVisit0: seq<nat>) returns (toVisit: seq<nat>)
    ensures toVisit == toVisit0 + Pushed(n, links, ignore, nodes)
  {
    toVisit := toVisit0;
    var j := 0;
    while j < |links|
      invariant 0 <= j <= |links|
      invariant toVisit == toVisit0 + Pushed(n, links[..j], ignore, nodes)
    {
      var other := links[j];
      var linkval := EdgeEnc(n, other);
      assert links[..j + 1][..j] == links[..j];
      if linkval !in ignore && other !in nodes {
        toVisit := toVisit + [other];
      }
      j := j + 1;
    }
    assert links[..j] == links;
  }

  /** What `group_size`'s loop keeps: the visited nodes have links, every
      visited or stacked node is reached from node 0 by its walk in `via`,
      and every link out of a visited node leads to a visited or stacked node. */
  ghost predicate DfsInv(g: Graph, ignore: seq<nat>, nodes: set<nat>, toVisit: seq<nat>, via: map<nat, seq<nat>>)
  {
    && nodes <= Nodes(g) && nodes <= g.Keys
    && (forall v :: v in toVisit ==> v in Nodes(g))
    && (forall v :: v in nodes ==> v in via && WalkBetween(g, ignore, via[v], 0, v))
    && (forall v :: v in toVisit ==> v in via && WalkBetween(g, ignore, via[v], 0, v))
    && (0 in nodes || 0 in toVisit)
    && (forall v, w :: v in nodes && Linked(g, ignore, v, w) ==> w in nodes || w in toVisit)
  }

  /** The walks to the nodes pushed from `n`: `n`'s walk, one link longer. */
  ghost function Extend(via: map<nat, seq<nat>>, n: nat, pushed: seq<nat>): map<nat, seq<nat>>
    requires n in via
  {
    via + map w | w in pushed :: via[n] + [w]
  }

  /** One turn of `group_size`'s loop keeps DfsInv. */
  lemma DfsStep(g: Graph, ignore: seq<nat>, nodes: set<nat>, toVisit: seq<nat>, via: map<nat, seq<nat>>)
    requires DfsInv(g, ignore, nodes, toVisit, via)
    requires toVisit != [] && toVisit[|toVisit| - 1] in g
    ensures var n := toVisit[|toVisit| - 1];
            var rest := toVisit[..|toVisit| - 1];
            var pushed := Pushed(n, g[n], ignore, nodes + {n});
            DfsInv(g, ignore, nodes + {n}, rest + pushed, Extend(via, n, pushed))
  {
    var n := toVisit[|toVisit| - 1];
    var rest := toVisit[..|toVisit| - 1];
    var nodes' := nodes + {n};
    var pushed := Pushed(n, g[n], ignore, nodes');
    var via' := Extend(via, n, pushed);
    var stack' := rest + pushed;
    assert forall v :: v in toVisit ==> v in rest || v == n;
    PushedMeaning(n, g[n], ignore, nodes');
    forall w | w in pushed
      ensures WalkBetween(g, ignore, via[n] + [w], 0, w) && w in Nodes(g)
    {
      WalkSnoc(g, ignore, via[n], 0, n, w);
      ReachedNamed(g, ignore, via[n] + [w], w);
    }
    forall v | v in nodes'
      ensures v in via' && WalkBetween(g, ignore, via'[v], 0, v)
    {
      if v !in pushed {
        assert via'[v] == via[v];
      }
    }
    forall v | v in stack'
      ensures v in via' && WalkBetween(g, ignore, via'[v], 0, v)
    {
      if v !in pushed {
        assert via'[v] == via[v];
      }
    }
    forall v, w | v in nodes' && Linked(g, ignore, v, w)
      ensures w in nodes' || w in stack'
    {
      if v == n {
        if w !in nodes' {
          assert w in pushed;
        }
      }
    }
  }

  /** The measure of `group_size`'s loop goes down: either a new node is
      visited, or a stacked node that was already visited is dropped. */
  lemma DfsProgress(g: Graph, ignore: seq<nat>, nodes: set<nat>, toVisit: seq<nat>)
    requires toVisit != [] && toVisit[|toVisit| - 1] in Nodes(g) && toVisit[|toVisit| - 1] in g
    ensures var n := toVisit[|toVisit| - 1];
            var rest := toVisit[..|toVisit| - 1];
            var nodes' := nodes + {n};
            var next := rest + Pushed(n, g[n], ignore, nodes');
            |Nodes(g) - nodes'| < |Nodes(g) - nodes|
            || (|Nodes(g) - nodes'| == |Nodes(g) - nodes| && Stale(next, nodes') < Stale(toVisit, nodes))
  {
    var n := toVisit[|toVisit| - 1];
    var rest := toVisit[..|toVisit| - 1];
    var nodes' := nodes + {n};
    PushedStale(rest, n, g[n], ignore, nodes');
    if n in nodes {
      assert nodes' == nodes;
      assert Stale(toVisit, nodes) == Stale(rest, nodes) + 1;
    } else {
      assert Nodes(g) - nodes' == (Nodes(g) - nodes) - {n};
    }
  }

  lemma DfsStart(g: Graph, ignore: seq<nat>)
    ensures DfsInv(g, ignore, {}, [0], map[0 := [0]])
  {
    assert WalkBetween(g, ignore, [0], 0, 0);
  }

  /** Once the stack is empty the visited nodes are node 0's whole group. */
  lemma DfsDone(g: Graph, ignore: seq<nat>, nodes: set<nat>, via: map<nat, seq<nat>>)
    requires DfsInv(g, ignore, nodes, [], via)
    ensures nodes == Group(g, ignore) && !GroupPanics(g, ignore)
  {
    forall v | Reaches(g, ignore, 0, v)
      ensures v in nodes
    {
      var p :| WalkBetween(g, ignore, p, 0, v);
      ClosedHoldsWalks(g, ignore, nodes, p, 0, v);
    }
    forall v | v in nodes ensures v in Group(g, ignore) {
      assert WalkBetween(g, ignore, via[v], 0, v);
    }
  }

  /** `group_size`: a depth-first search from node 0 over a stack of nodes to
      visit, skipping ignored edges; the number of nodes visited. */
  method GroupSize(g: Graph, ignore: seq<nat>) returns (r: Option<nat>)
    ensures r.None? <==> GroupPanics(g, ignore)
    ensures r.Some? ==> r.value == |Group(g, ignore)|
  {
    var nodes: set<nat> := {};
    var toVisit: seq<nat> := [0];
    ghost var via: map<nat, seq<nat>> := map[0 := [0]];
    DfsStart(g, ignore);
    while toVisit != []
      invariant DfsInv(g, ignore, nodes, toVisit, via)
      decreases |Nodes(g) - nodes|, Stale(toVisit, nodes)
    {
      var n := toVisit[|toVisit| - 1];
      if n !in g {
        assert WalkBetween(g, ignore, via[n], 0, n);
        return None;
      }
      DfsStep(g, ignore, nodes, toVisit, via);
      DfsProgress(g, ignore, nodes, toVisit);
      via := Extend(via, n, Pushed(n, g[n], ignore, nodes + {n}));
      toVisit := toVisit[..|toVisit| - 1];
      nodes := nodes + {n};
      toVisit := Visit(n, g[n], ignore, nodes, toVisit);
    }
    DfsDone(g, ignore, nodes, via);
    return Some(|nodes|);
  }

  /* ---------------- route ---------------- */

  datatype RouteResult = Found(path: seq<nat>) | NotFound | Panicked

  /** `k` has a route, and every link out of it leads to a node with a route
      at most one node longer. */
  ghost predicate Expanded(g: Graph, routes: map<nat, seq<nat>>, k: nat)
  {
    k in routes && forall w :: Linked(g, [], k, w) ==> w in routes && |routes[w]| <= |routes[k]| + 1
  }

  /** What `route`'s loops keep while they work through layer `d` (the nodes
      whose routes hold `d` links): every route is a walk from `n1`, routes
      only reach layer `d + 1`, every node up to layer `d - 1` and the first
      `qi` nodes of the queue are expanded, `queue` holds layer `d` and
      `newQueue` layer `d + 1`, and `n2` has no route yet. */
  ghost predicate BfsInv(g: Graph, n1: nat, n2: nat, d: nat, routes: map<nat, seq<nat>>,
                         queue: seq<nat>, qi: nat, newQueue: seq<nat>)
  {
    && qi <= |queue|
    && RoutesFrom(g, n1, n2, d, routes)
    && Layered(d, routes, queue, newQueue)
    && Settled(g, d, routes, queue, qi)
  }

  ghost predicate RoutesFrom(g: Graph, n1: nat, n2: nat, d: nat, routes: map<nat, seq<nat>>)
  {
    && n1 in routes && routes[n1] == [n1]
    && (n1 != n2 ==> n2 !in routes)
    && (forall k :: k in routes ==> WalkBetween(g, [], routes[k], n1, k) && |routes[k]| <= d + 2)
  }

  ghost predicate Layered(d: nat, routes: map<nat, seq<nat>>, queue: seq<nat>, newQueue: seq<nat>)
  {
    && (forall k :: k in routes && |routes[k]| == d + 1 ==> k in queue)
    && (forall k :: k in queue ==> k in routes && |routes[k]| == d + 1)
    && (forall k :: k in routes && |routes[k]| == d + 2 ==> k in newQueue)
    && (forall k :: k in newQueue ==> k in routes && |routes[k]| == d + 2)
  }

  ghost predicate Settled(g: Graph, d: nat, routes: map<nat, seq<nat>>, queue: seq<nat>, qi: nat)
  {
    && (forall k :: k in routes && |routes[k]| <= d ==> Expanded(g, routes, k))
    && (forall i :: 0 <= i < qi && i < |queue| ==> Expanded(g, routes, queue[i]))
  }

  /** While layer `d` is worked through, a walk of at most `d` links from
      `n1` ends at a node whose route is no longer than the walk. */
  lemma {:induction false} Shortest(g: Graph, n1: nat, n2: nat, d: nat, routes: map<nat, seq<nat>>,
                                    queue: seq<nat>, qi: nat, newQueue: seq<nat>, p: seq<nat>, w: nat)
    requires BfsInv(g, n1, n2, d, routes, queue, qi, newQueue)
    requires WalkBetween(g, [], p, n1, w) && |p| <= d + 1
    ensures w in routes && |routes[w]| <= |p|
    decreases |p|
  {
    if |p| > 1 {
      var q := p[..|p| - 1];
      var k := q[|q| - 1];
      assert Linked(g, [], p[|p| - 2], p[|p| - 1]);
      assert WalkBetween(g, [], q, n1, k) by {
        forall i | 0 <= i < |q| - 1
          ensures Linked(g, [], q[i], q[i + 1])
        {
          assert Linked(g, [], p[i], p[i + 1]);
        }
      }
      Shortest(g, n1, n2, d, routes, queue, qi, newQueue, q, k);
      assert Expanded(g, routes, k);
    }
  }

  /** The inner loop of `route` for one node `pt` of the queue: every link of
      `pt` without a route gets `pt`'s route extended by it and is queued for
      the next layer, unless it is `n2`, whose route is returned at once. */
  method ExpandNode(g: Graph, n2: nat, pt: nat, routes0: map<nat, seq<nat>>, newQueue0: seq<nat>)
    returns (routes: map<nat, seq<nat>>, newQueue: seq<nat>, found: Option<seq<nat>>)
    requires pt in g && pt in routes0
    ensures found.Some? ==> n2 in g[pt] && n2 !in routes0 && found.value == routes0[pt] + [n2]
    ensures found.None? ==> n2 !in g[pt] || n2 in routes0
    ensures found.None? ==> ExpandsTo(g, pt, routes0, newQueue0, routes, newQueue)
  {
    routes, newQueue := routes0, newQueue0;
    var dests := g[pt];
    var j := 0;
    while j < |dests|
      invariant 0 <= j <= |dests|
      invariant n2 in dests[..j] ==> n2 in routes0
      invariant forall k :: k in routes <==> k in routes0 || k in dests[..j]
      invariant forall k :: k in routes ==> routes[k] == if k in routes0 then routes0[k] else routes0[pt] + [k]
      invariant forall k :: k in newQueue <==> k in newQueue0 || (k in dests[..j] && k !in routes0)
    {
      var dest := dests[j];
      assert dests[..j + 1] == dests[..j] + [dest];
      if dest !in routes {
        var v := routes[pt] + [dest];
        if dest == n2 {
          return routes, newQueue, Some(v);
        }
        routes := routes[dest := v];
        newQueue := newQueue + [dest];
      }
      j := j + 1;
    }
    assert dests[..j] == dests;
    found := None;
  }

  /** What expanding `pt` does to the routes: every link of `pt` without a
      route gets `pt`'s route extended by it, and is queued. */
  ghost predicate ExpandsTo(g: Graph, pt: nat, routes: map<nat, seq<nat>>, newQueue: seq<nat>,
                            routes': map<nat, seq<nat>>, newQueue': seq<nat>)
    requires pt in g && pt in routes
  {
    && (forall k :: k in routes' <==> k in routes || k in g[pt])
    && (forall k :: k in routes' ==> routes'[k] == if k in routes then routes[k] else routes[pt] + [k])
    && (forall k :: k in newQueue' <==> k in newQueue || (k in g[pt] && k !in routes))
  }

  /** Expanding the next node of the queue keeps BfsInv. */
  lemma BfsStep(g: Graph, n1: nat, n2: nat, d: nat, routes: map<nat, seq<nat>>, queue: seq<nat>, qi: nat,
                newQueue: seq<nat>, routes': map<nat, seq<nat>>, newQueue': seq<nat>)
    requires BfsInv(g, n1, n2, d, routes, queue, qi, newQueue) && qi < |queue|
    requires queue[qi] in g
    requires n2 !in g[queue[qi]] || n2 in routes
    requires ExpandsTo(g, queue[qi], routes, newQueue, routes', newQueue')
    ensures BfsInv(g, n1, n2, d, routes', queue, qi + 1, newQueue')
  {
    RoutesFromStep(g, n1, n2, d, routes, queue[qi], newQueue, routes', newQueue');
    LayeredStep(d, routes, queue, qi, newQueue, routes', newQueue', g);
    SettledStep(g, d, routes, queue, qi, newQueue, routes', newQueue');
  }

  lemma RoutesFromStep(g: Graph, n1: nat, n2: nat, d: nat, routes: map<nat, seq<nat>>, pt: nat,
                       newQueue: seq<nat>, routes': map<nat, seq<nat>>, newQueue': seq<nat>)
    requires RoutesFrom(g, n1, n2, d, routes) && pt in g && pt in routes && |routes[pt]| == d + 1
    requires n2 !in g[pt] || n2 in routes
    requires ExpandsTo(g, pt, routes, newQueue, routes', newQueue')
    ensures RoutesFrom(g, n1, n2, d, routes')
  {
    forall k | k in routes'
      ensures WalkBetween(g, [], routes'[k], n1, k) && |routes'[k]| <= d + 2
    {
      if k !in routes {
        assert Linked(g, [], pt, k);
        WalkSnoc(g, [], routes[pt], n1, pt, k);
      }
    }
  }

  lemma LayeredStep(d: nat, routes: map<nat, seq<nat>>, queue: seq<nat>, qi: nat,
                    newQueue: seq<nat>, routes': map<nat, seq<nat>>, newQueue': seq<nat>, g: Graph)
    requires Layered(d, routes, queue, newQueue) && qi < |queue| && queue[qi] in g
    requires ExpandsTo(g, queue[qi], routes, newQueue, routes', newQueue')
    ensures Layered(d, routes', queue, newQueue')
  {
  }

  lemma SettledStep(g: Graph, d: nat, routes: map<nat, seq<nat>>, queue: seq<nat>, qi: nat,
                    newQueue: seq<nat>, routes': map<nat, seq<nat>>, newQueue': seq<nat>)
    requires Settled(g, d, routes, queue, qi) && qi < |queue| && queue[qi] in g && queue[qi] in routes
    requires |routes[queue[qi]]| == d + 1
    requires forall k :: k in routes ==> |routes[k]| <= d + 2
    requires ExpandsTo(g, queue[qi], routes, newQueue, routes', newQueue')
    ensures Settled(g, d, routes', queue, qi + 1)
  {
    var pt := queue[qi];
    assert forall v :: v in routes ==> v in routes' && routes'[v] == routes[v];
    forall k | k in routes' && |routes'[k]| <= d
      ensures Expanded(g, routes', k)
    {
      ExpandedKept(g, routes, routes', k);
    }
    assert Expanded(g, routes', pt);
    forall i | 0 <= i < qi + 1 && i < |queue|
      ensures Expanded(g, routes', queue[i])
    {
      if i < qi {
        ExpandedKept(g, routes, routes', queue[i]);
      }
    }
  }

  /** Adding routes to new nodes keeps an expanded node expanded. */
  lemma ExpandedKept(g: Graph, routes: map<nat, seq<nat>>, routes': map<nat, seq<nat>>, k: nat)
    requires Expanded(g, routes, k)
    requires forall v :: v in routes ==> v in routes' && routes'[v] == routes[v]
    ensures Expanded(g, routes', k)
  {
    forall w | Linked(g, [], k, w)
      ensures w in routes' && |routes'[w]| <= |routes'[k]| + 1
    {
      assert w in routes;
    }
  }

  /** When a layer is done, the next layer's loop starts from the queued nodes. */
  lemma BfsLayer(g: Graph, n1: nat, n2: nat, d: nat, routes: map<nat, seq<nat>>, queue: seq<nat>, newQueue: seq<nat>)
    requires BfsInv(g, n1, n2, d, routes, queue, |queue|, newQueue)
    ensures BfsInv(g, n1, n2, d + 1, routes, newQueue, 0, [])
  {
    forall k | k in routes && |routes[k]| <= d + 1
      ensures Expanded(g, routes, k)
    {
      if |routes[k]| == d + 1 {
        var i :| 0 <= i < |queue| && queue[i] == k;
      }
    }
  }

  /** When no layer is left, every link out of a routed node leads to a routed
      node, so `n2` cannot be reached. */
  lemma BfsDone(g: Graph, n1: nat, n2: nat, d: nat, routes: map<nat, seq<nat>>)
    requires BfsInv(g, n1, n2, d, routes, [], 0, []) && n1 != n2
    ensures !Reaches(g, [], n1, n2)
  {
    forall v, w | v in routes.Keys && Linked(g, [], v, w)
      ensures w in routes.Keys
    {
      assert Expanded(g, routes, v);
    }
    if Reaches(g, [], n1, n2) {
      var p :| WalkBetween(g, [], p, n1, n2);
      ClosedHoldsWalks(g, [], routes.Keys, p, n1, n2);
    }
  }

  /** The route `route` returns when it meets `n2` while expanding the next
      node of the queue is a walk from `n1` to `n2` that no walk between them
      undercuts. */
  lemma FoundIsShortest(g: Graph, n1: nat, n2: nat, d: nat, routes: map<nat, seq<nat>>, queue: seq<nat>,
                        qi: nat, newQueue: seq<nat>)
    requires BfsInv(g, n1, n2, d, routes, queue, qi, newQueue) && qi < |queue|
    requires queue[qi] in g && n2 in g[queue[qi]] && n2 !in routes
    ensures n1 != n2 && WalkBetween(g, [], routes[queue[qi]] + [n2], n1, n2)
    ensures forall p :: WalkBetween(g, [], p, n1, n2) ==> |routes[queue[qi]] + [n2]| <= |p|
  {
    var pt := queue[qi];
    assert Linked(g, [], pt, n2);
    WalkSnoc(g, [], routes[pt], n1, pt, n2);
    forall p | WalkBetween(g, [], p, n1, n2)
      ensures |routes[pt] + [n2]| <= |p|
    {
      if |p| <= d + 1 {
        Shortest(g, n1, n2, d, routes, queue, qi, newQueue, p, n2);
      }
    }
  }

  lemma RoutedNamed(g: Graph, n1: nat, routes: map<nat, seq<nat>>, routes': map<nat, seq<nat>>, pt: nat)
    requires pt in g && pt in routes && routes.Keys <= {n1} + Targets(g)
    requires forall k :: k in routes' <==> k in routes || k in g[pt]
    ensures routes'.Keys <= {n1} + Targets(g)
  {
    forall k | k in routes'
      ensures k in {n1} + Targets(g)
    {
      if k !in routes {
        assert k in Targets(g);
      }
    }
  }

  /** Dropping more nodes from a finite set leaves fewer. */
  lemma FewerLeft(u: set<nat>, a: set<nat>, b: set<nat>)
    requires a <= b <= u
    ensures |u - b| <= |u - a|
    ensures a != b ==> |u - b| < |u - a|
  {
    var gone := (u - a) - (u - b);
    assert u - a == (u - b) + gone;
    if a != b {
      var x :| x in b && x !in a;
      assert x in gone;
    }
  }

  /** What `route` promises: a route it finds is a walk from `n1` to `n2`
      with no fewer links than any other, it finds none only when `n2` is `n1`
      or cannot be reached, and it panics only after reaching a node that has
      no entry. */
  ghost predicate RouteMeets(g: Graph, n1: nat, n2: nat, r: RouteResult)
  {
    && (r.Found? ==> n1 != n2 && WalkBetween(g, [], r.path, n1, n2))
    && (r.Found? ==> forall p :: WalkBetween(g, [], p, n1, n2) ==> |r.path| <= |p|)
    && (r.NotFound? ==> n1 == n2 || !Reaches(g, [], n1, n2))
    && (r.Panicked? ==> exists v :: Reaches(g, [], n1, v) && v !in g)
  }

  /** One turn of `route`'s outer loop: expand every node of layer `d`,
      stopping early with the route to `n2` or a panic. */
  method Layer(g: Graph, n1: nat, n2: nat, ghost d: nat, routes0: map<nat, seq<nat>>, queue: seq<nat>)
    returns (routes: map<nat, seq<nat>>, newQueue: seq<nat>, stop: Option<RouteResult>)
    requires BfsInv(g, n1, n2, d, routes0, queue, 0, [])
    requires routes0.Keys <= {n1} + Targets(g)
    ensures stop.Some? ==> !stop.value.NotFound? && RouteMeets(g, n1, n2, stop.value)
    ensures stop.None? ==> BfsInv(g, n1, n2, d + 1, routes, newQueue, 0, [])
    ensures stop.None? ==> routes0.Keys <= routes.Keys <= {n1} + Targets(g)
    ensures stop.None? && newQueue != [] ==> routes0.Keys != routes.Keys
  {
    routes, newQueue := routes0, [];
    var qi := 0;
    while qi < |queue|
      invariant BfsInv(g, n1, n2, d, routes, queue, qi, newQueue)
      invariant routes0.Keys <= routes.Keys <= {n1} + Targets(g)
      invariant forall k :: k in newQueue ==> k !in routes0
    {
      var pt := queue[qi];
      if pt !in g {
        assert WalkBetween(g, [], routes[pt], n1, pt);
        return routes, newQueue, Some(Panicked);
      }
      var routes', newQueue', found := ExpandNode(g, n2, pt, routes, newQueue);
      if found.Some? {
        FoundIsShortest(g, n1, n2, d, routes, queue, qi, newQueue);
        return routes, newQueue, Some(Found(found.value));
      }
      BfsStep(g, n1, n2, d, routes, queue, qi, newQueue, routes', newQueue');
      RoutedNamed(g, n1, routes, routes', pt);
      routes, newQueue := routes', newQueue';
      qi := qi + 1;
    }
    BfsLayer(g, n1, n2, d, routes, queue, newQueue);
    if newQueue != [] {
      assert newQueue[0] in routes.Keys && newQueue[0] !in routes0.Keys;
    }
    stop := None;
  }

  lemma BfsStart(g: Graph, n1: nat, n2: nat)
    ensures BfsInv(g, n1, n2, 0, map[n1 := [n1]], [n1], 0, [])
  {
    assert WalkBetween(g, [], [n1], n1, n1);
  }

  /** `route`: a breadth-first search from `n1`, layer by layer, remembering
      the route to each node found; the route to `n2` as soon as it is found. */
  method Route(g: Graph, n1: nat, n2: nat) returns (r: RouteResult)
    ensures r.Found? ==> n1 != n2 && WalkBetween(g, [], r.path, n1, n2)
    ensures r.Found? ==> forall p :: WalkBetween(g, [], p, n1, n2) ==> |r.path| <= |p|
    ensures r.NotFound? ==> n1 == n2 || !Reaches(g, [], n1, n2)
    ensures r.Panicked? ==> exists v :: Reaches(g, [], n1, v) && v !in g
  {
    ghost var u := {n1} + Targets(g);
    var routes: map<nat, seq<nat>> := map[n1 := [n1]];
    var queue: seq<nat> := [n1];
    ghost var d := 0;
    BfsStart(g, n1, n2);
    while queue != []
      invariant BfsInv(g, n1, n2, d, routes, queue, 0, [])
      invariant routes.Keys <= u
      decreases |u - routes.Keys|, |queue|
    {
      ghost var keys0 := routes.Keys;
      var newQueue, stop;
      routes, newQueue, stop := Layer(g, n1, n2, d, routes, queue);
      if stop.Some? {
        return stop.value;
      }
      FewerLeft(u, keys0, routes.Keys);
      queue := newQueue;
      d := d + 1;
    }
    if n1 != n2 {
      BfsDone(g, n1, n2, d, routes);
    }
    return NotFound;
  }

  /* ---------------- edges ---------------- */

  /** The codes of the links of `k` to larger ids, in list order. */
  function Forward(k: nat, links: seq<nat>): seq<nat>
  {
    if links == [] then []
    else
      var d := links[|links| - 1];
      Forward(k, links[..|links| - 1]) + (if k < d then [EdgeEnc(k, d)] else [])
  }

  /** The edge list `edges` builds, visiting the nodes in the order `keys`. */
  function EdgeList(g: Graph, keys: seq<nat>): seq<nat>
    requires forall k :: k in keys ==> k in g
  {
    if keys == [] then []
    else
      var k := keys[|keys| - 1];
      EdgeList(g, keys[..|keys| - 1]) + Forward(k, g[k])
  }

  lemma {:induction false} ForwardMeaning(k: nat, links: seq<nat>, e: nat)
    ensures e in Forward(k, links) <==> exists d :: d in links && k < d && e == EdgeEnc(k, d)
  {
    if links != [] {
      var init := links[..|links| - 1];
      var d := links[|links| - 1];
      ForwardMeaning(k, init, e);
      assert links == init + [d];
    }
  }

  /** An edge code is listed exactly when some node lists a link to a larger
      id and the code is that link's. */
  lemma {:induction false} EdgeListMeaning(g: Graph, keys: seq<nat>, e: nat)
    requires forall k :: k in keys ==> k in g
    ensures e in EdgeList(g, keys) <==> exists k, d :: k in keys && d in g[k] && k < d && e == EdgeEnc(k, d)
  {
    if keys != [] {
      var init := keys[..|keys| - 1];
      var k := keys[|keys| - 1];
      EdgeListMeaning(g, init, e);
      ForwardMeaning(k, g[k], e);
      assert keys == init + [k];
    }
  }

  /** When every node is visited and links are listed both ways, every link
      between two different nodes has its code in the list. */
  lemma EdgesCoverLinks(g: Graph, keys: seq<nat>, a: nat, b: nat)
    requires forall k :: k in keys <==> k in g
    requires Symmetric(g)
    requires a in g && b in g[a] && a != b
    ensures EdgeEnc(a, b) in EdgeList(g, keys)
  {
    EdgeListMeaning(g, keys, EdgeEnc(a, b));
    if b < a {
      assert a in g[b];
      assert EdgeEnc(a, b) == EdgeEnc(b, a);
    }
  }

  /** `Data::edges`: for each node (in the map's order `keys`) and each of its
      links, the code of the link when it leads to a larger id. */
  method Edges(g: Graph, keys: seq<nat>) returns (result: seq<nat>)
    requires forall k :: k in keys ==> k in g
    ensures result == EdgeList(g, keys)
  {
    result := [];
    var i := 0;
    while i < |keys|
      invariant 0 <= i <= |keys|
      invariant result == EdgeList(g, keys[..i])
    {
      var k := keys[i];
      var v := g[k];
      ghost var before := result;
      var j := 0;
      while j < |v|
        invariant 0 <= j <= |v|
        invariant result == before + Forward(k, v[..j])
      {
        var d := v[j];
        assert v[..j + 1][..j] == v[..j];
        if k < d {
          result := result + [EdgeEnc(k, d)];
        }
        j := j + 1;
      }
      assert v[..j] == v;
      assert keys[..i + 1][..i] == keys[..i];
      i := i + 1;
    }
    assert keys[..i] == keys;
  }

  /* ---------------- parse_input ---------------- */

  /** Every listed link is listed back. */
  ghost predicate Symmetric(g: Graph)
  {
    forall k, d :: k in g && d in g[k] ==> d in g && k in g[d]
  }

  /** `Data`: the names of the nodes, indexed by id, and their links. */
  datatype Data = Data(names: seq<string>, nodes: Graph)

  /** Names are distinct, ids are exactly the indexes of `names`, and links
      are listed both ways. */
  ghost predicate WellFormed(data: Data)
  {
    && (forall i, j :: 0 <= i < j < |data.names| ==> data.names[i] != data.names[j])
    && (forall k: nat :: k in data.nodes <==> k < |data.names|)
    && Symmetric(data.nodes)
  }

  predicate OccursAt(s: string, sep: string, j: nat)
  {
    j + |sep| <= |s| && s[j..j + |sep|] == sep
  }

  /** The first index at or after `i` where `sep` occurs in `s`. */
  function FindFrom(s: string, sep: string, i: nat): (r: Option<nat>)
    ensures r.Some? ==> i <= r.value && OccursAt(s, sep, r.value)
    ensures r.Some? ==> forall j: nat :: i <= j < r.value ==> !OccursAt(s, sep, j)
    ensures r.None? ==> forall j: nat :: i <= j ==> !OccursAt(s, sep, j)
    decreases |s| - i
  {
    if i + |sep| > |s| then None
    else if s[i..i + |sep|] == sep then Some(i)
    else FindFrom(s, sep, i + 1)
  }

  /** `str::split_once`: the text before and after the first occurrence of
      `sep`, or nothing when it does not occur. */
  function SplitOnce(s: string, sep: string): (r: Option<(string, string)>)
    ensures r.Some? ==> r.value.0 + sep + r.value.1 == s
    ensures r.Some? ==> forall j: nat :: j < |r.value.0| ==> !OccursAt(s, sep, j)
    ensures r.None? ==> forall j: nat :: !OccursAt(s, sep, j)
  {
    match FindFrom(s, sep, 0)
    case None => None
    case Some(i) =>
      assert s[..i] + sep + s[i + |sep|..] == s by {
        assert s == s[..i] + s[i..i + |sep|] + s[i + |sep|..];
      }
      Some((s[..i], s[i + |sep|..]))
  }

  /** The tables `parse_input` builds while it reads: the names by id, the
      links by id and the ids by name. */
  class Builder {
    var names: seq<string>
    var nodes: Graph
    var nameMap: map<string, nat>

    /** `nameMap` and `names` are inverse, the ids with links are exactly the
        ids of names, and links are listed both ways. */
    ghost predicate Valid()
      reads this
    {
      && (forall i :: 0 <= i < |names| ==> names[i] in nameMap && nameMap[names[i]] == i)
      && (forall s :: s in nameMap ==> nameMap[s] < |names| && names[nameMap[s]] == s)
      && (forall k: nat :: k in nodes <==> k < |names|)
      && Symmetric(nodes)
    }

    constructor()
      ensures Valid() && names == [] && nodes == map[] && nameMap == map[]
    {
      names, nodes, nameMap := [], map[], map[];
    }

    /** `get_id`: the id of a known name; a new name gets the next id and an
        empty list of links. */
    method GetId(src: string) returns (id: nat)
      requires Valid()
      modifies this
      ensures Valid()
      ensures src in old(nameMap) ==> id == old(nameMap)[src] && names == old(names) && nodes == old(nodes) && nameMap == old(nameMap)
      ensures src !in old(nameMap) ==> id == old(|names|) && names == old(names) + [src]
                                       && nodes == old(nodes)[id := []] && nameMap == old(nameMap)[src := id]
      ensures id < |names| && names[id] == src && src in nameMap && nameMap[src] == id
      ensures Grows(old(nameMap), old(nodes), nameMap, nodes)
      ensures src in old(names) ==> names == old(names) && nodes == old(nodes)
      ensures src !in old(names) ==> names == old(names) + [src] && nodes == old(nodes)[|old(names)| := []]
    {
      if src in nameMap {
        id := nameMap[src];
      } else {
        id := |names|;
        assert id !in nodes;
        names := names + [src];
        nameMap := nameMap[src := id];
        nodes := nodes[id := []];
      }
    }

    /** The two pushes of `parse_input`: `b` onto `a`'s links, then `a` onto
        `b`'s. */
    method Link(a: nat, b: nat)
      requires Valid() && a < |names| && b < |names|
      modifies this
      ensures Valid()
      ensures names == old(names) && nameMap == old(nameMap)
      ensures var once := old(nodes)[a := old(nodes)[a] + [b]];
              nodes == once[b := once[b] + [a]]
      ensures Grows(old(nameMap), old(nodes), nameMap, nodes)
      ensures a in nodes && b in nodes && b in nodes[a] && a in nodes[b]
    {
      nodes := nodes[a := nodes[a] + [b]];
      nodes := nodes[b := nodes[b] + [a]];
    }
  }

  /** The link from the node named `a` to the node named `b` is listed in
      both directions. */
  ghost predicate Recorded(nameMap: map<string, nat>, nodes: Graph, a: string, b: string)
  {
    && a in nameMap && b in nameMap && nameMap[a] in nodes && nameMap[b] in nodes
    && nameMap[b] in nodes[nameMap[a]] && nameMap[a] in nodes[nameMap[b]]
  }

  /** The names keep their ids and the lists keep their links. */
  ghost predicate Grows(nameMap: map<string, nat>, nodes: Graph, nameMap': map<string, nat>, nodes': Graph)
  {
    && (forall s :: s in nameMap ==> s in nameMap' && nameMap'[s] == nameMap[s])
    && (forall k :: k in nodes ==> k in nodes' && forall x :: x in nodes[k] ==> x in nodes'[k])
  }

  lemma RecordedKept(nameMap: map<string, nat>, nodes: Graph, nameMap': map<string, nat>, nodes': Graph, a: string, b: string)
    requires Recorded(nameMap, nodes, a, b) && Grows(nameMap, nodes, nameMap', nodes')
    ensures Recorded(nameMap', nodes', a, b)
  {
  }

  /** The name before `": "` on a line, and the names after it. */
  function Source(line: string): string
    requires SplitOnce(line, ": ").Some?
  {
    SplitOnce(line, ": ").value.0
  }

  function Dests(line: string): seq<string>
    requires SplitOnce(line, ": ").Some?
  {
    Split(SplitOnce(line, ": ").value.1, ' ')
  }

  lemma GrowsTransitive(m0: map<string, nat>, n0: Graph, m1: map<string, nat>, n1: Graph, m2: map<string, nat>, n2: Graph)
    requires Grows(m0, n0, m1, n1) && Grows(m1, n1, m2, n2)
    ensures Grows(m0, n0, m2, n2)
  {
  }

  /** The names in the order they first appear. */
  function Dedup(ts: seq<string>): seq<string>
    decreases |ts|
  {
    if ts == [] then []
    else
      var init := ts[..|ts| - 1];
      var t := ts[|ts| - 1];
      if t in init then Dedup(init) else Dedup(init) + [t]
  }

  /** Each name appears once, and exactly the names of `ts` appear. */
  lemma {:induction false} DedupSpec(ts: seq<string>)
    ensures forall t :: t in Dedup(ts) <==> t in ts
    ensures forall i, j :: 0 <= i < j < |Dedup(ts)| ==> Dedup(ts)[i] != Dedup(ts)[j]
    decreases |ts|
  {
    if ts != [] {
      var init := ts[..|ts| - 1];
      var t := ts[|ts| - 1];
      assert ts == init + [t];
      DedupSpec(init);
    }
  }

  /** Meeting one more name adds it at the end exactly when it is new. */
  lemma DedupSnoc(ts: seq<string>, t: string)
    ensures Dedup(ts + [t]) == if t in ts then Dedup(ts) else Dedup(ts) + [t]
  {
    assert (ts + [t])[..|ts|] == ts;
  }

  /** Every name of a line, in order: its source, then each destination. */
  function LineTokens(line: string): seq<string>
    requires SplitOnce(line, ": ").Some?
  {
    [Source(line)] + Dests(line)
  }

  predicate AllSplit(lines: seq<string>)
  {
    forall l :: 0 <= l < |lines| ==> SplitOnce(lines[l], ": ").Some?
  }

  /** The names of the lines, in the order `parse_input` meets them. */
  function Tokens(lines: seq<string>): seq<string>
    requires AllSplit(lines)
    decreases |lines|
  {
    if lines == [] then []
    else Tokens(lines[..|lines| - 1]) + LineTokens(lines[|lines| - 1])
  }

  /** Some line lists `c` after `a`'s colon, or `a` after `c`'s. */
  ghost predicate LinkFromLine(lines: seq<string>, a: string, c: string)
  {
    exists l, i :: 0 <= l < |lines| && SplitOnce(lines[l], ": ").Some? && 0 <= i < |Dests(lines[l])| &&
      ((Source(lines[l]) == a && Dests(lines[l])[i] == c) || (Source(lines[l]) == c && Dests(lines[l])[i] == a))
  }

  /** Every listed link joins two named nodes that some line links. */
  ghost predicate LinksFromLines(names: seq<string>, nodes: Graph, lines: seq<string>)
  {
    forall k, d :: k in nodes && d in nodes[k] ==> LinkTraced(names, lines, k, d)
  }

  ghost predicate LinkTraced(names: seq<string>, lines: seq<string>, k: nat, d: nat)
  {
    k < |names| && d < |names| && LinkFromLine(lines, names[k], names[d])
  }

  /** Meeting a name keeps the names in first-appearance order. */
  lemma NameStep(names: seq<string>, ts: seq<string>, t: string, names': seq<string>)
    requires names == Dedup(ts)
    requires t in names ==> names' == names
    requires t !in names ==> names' == names + [t]
    ensures names' == Dedup(ts + [t])
  {
    DedupSpec(ts);
    DedupSnoc(ts, t);
  }

  /** A new name with no links yet adds no link. */
  lemma LinksNewName(names: seq<string>, nodes: Graph, lines: seq<string>, t: string)
    requires LinksFromLines(names, nodes, lines)
    ensures LinksFromLines(names + [t], nodes[|names| := []], lines)
  {
    var names', nodes' := names + [t], nodes[|names| := []];
    forall k, d | k in nodes' && d in nodes'[k]
      ensures LinkTraced(names', lines, k, d)
    {
      assert k in nodes && nodes'[k] == nodes[k];
      assert names'[k] == names[k] && names'[d] == names[d];
    }
  }

  /** Linking two named nodes that some line links keeps every link traced. */
  lemma LinksLink(names: seq<string>, nodes: Graph, lines: seq<string>, a: nat, c: nat)
    requires LinksFromLines(names, nodes, lines)
    requires a < |names| && c < |names| && a in nodes && c in nodes
    requires LinkFromLine(lines, names[a], names[c])
    ensures var once := nodes[a := nodes[a] + [c]];
            LinksFromLines(names, once[c := once[c] + [a]], lines)
  {
    var once := nodes[a := nodes[a] + [c]];
    var twice := once[c := once[c] + [a]];
    assert LinkFromLine(lines, names[c], names[a]);
    forall k, d | k in twice && d in twice[k]
      ensures LinkTraced(names, lines, k, d)
    {
      if (k == a && d == c) || (k == c && d == a) {
      } else {
        assert k in nodes && d in nodes[k];
      }
    }
  }

  lemma TakeSnoc(seen: seq<string>, dests: seq<string>, i: nat)
    requires i < |dests|
    ensures seen + dests[..i + 1] == (seen + dests[..i]) + [dests[i]]
  {
    assert dests[..i + 1] == dests[..i] + [dests[i]];
  }

  lemma RecordedPrefixKept(m0: map<string, nat>, n0: Graph, m1: map<string, nat>, n1: Graph, src: string, dests: seq<string>, i: nat)
    requires i < |dests| && Grows(m0, n0, m1, n1)
    requires forall l :: 0 <= l < i ==> Recorded(m0, n0, src, dests[l])
    requires Recorded(m1, n1, src, dests[i])
    ensures forall l :: 0 <= l < i + 1 ==> Recorded(m1, n1, src, dests[l])
  {
    forall l | 0 <= l < i
      ensures Recorded(m1, n1, src, dests[l])
    {
      RecordedKept(m0, n0, m1, n1, src, dests[l]);
    }
  }

  /** One turn of the inner loop of `parse_input`: the id of `dest`, then the
      link both ways. */
  method AddDest(b: Builder, src: string, srcId: nat, dest: string, ghost ts: seq<string>, ghost lines: seq<string>)
    requires b.Valid() && src in b.nameMap && b.nameMap[src] == srcId
    requires b.names == Dedup(ts) && LinksFromLines(b.names, b.nodes, lines) && LinkFromLine(lines, src, dest)
    modifies b
    ensures b.Valid()
    ensures Grows(old(b.nameMap), old(b.nodes), b.nameMap, b.nodes)
    ensures Recorded(b.nameMap, b.nodes, src, dest)
    ensures b.names == Dedup(ts + [dest]) && LinksFromLines(b.names, b.nodes, lines)
  {
    ghost var names0, nodes0 := b.names, b.nodes;
    var destId := b.GetId(dest);
    NameStep(names0, ts, dest, b.names);
    if dest !in names0 {
      LinksNewName(names0, nodes0, lines, dest);
    }
    ghost var m1, n1 := b.nameMap, b.nodes;
    assert b.names[srcId] == src && b.names[destId] == dest;
    LinksLink(b.names, b.nodes, lines, srcId, destId);
    b.Link(srcId, destId);
    GrowsTransitive(old(b.nameMap), old(b.nodes), m1, n1, b.nameMap, b.nodes);
  }

  /** The body of `parse_input`'s loop for one line: the source's id, then
      for each name after it its id and the link both ways. */
  method AddLine(b: Builder, src: string, dests: seq<string>, ghost ts: seq<string>, ghost lines: seq<string>)
    requires b.Valid()
    requires b.names == Dedup(ts) && LinksFromLines(b.names, b.nodes, lines)
    requires forall i :: 0 <= i < |dests| ==> LinkFromLine(lines, src, dests[i])
    modifies b
    ensures b.Valid()
    ensures Grows(old(b.nameMap), old(b.nodes), b.nameMap, b.nodes)
    ensures forall i :: 0 <= i < |dests| ==> Recorded(b.nameMap, b.nodes, src, dests[i])
    ensures b.names == Dedup(ts + [src] + dests) && LinksFromLines(b.names, b.nodes, lines)
  {
    ghost var names0, nodes0 := b.names, b.nodes;
    var srcId := b.GetId(src);
    NameStep(names0, ts, src, b.names);
    if src !in names0 {
      LinksNewName(names0, nodes0, lines, src);
    }
    ghost var m1, n1 := b.nameMap, b.nodes;
    AddDests(b, src, srcId, dests, ts + [src], lines);
    GrowsTransitive(old(b.nameMap), old(b.nodes), m1, n1, b.nameMap, b.nodes);
  }

  /** The inner loop of `parse_input`, over the names after the colon. */
  method AddDests(b: Builder, src: string, srcId: nat, dests: seq<string>, ghost seen: seq<string>, ghost lines: seq<string>)
    requires b.Valid() && src in b.nameMap && b.nameMap[src] == srcId
    requires b.names == Dedup(seen) && LinksFromLines(b.names, b.nodes, lines)
    requires forall i :: 0 <= i < |dests| ==> LinkFromLine(lines, src, dests[i])
    modifies b
    ensures b.Valid()
    ensures Grows(old(b.nameMap), old(b.nodes), b.nameMap, b.nodes)
    ensures forall i :: 0 <= i < |dests| ==> Recorded(b.nameMap, b.nodes, src, dests[i])
    ensures b.names == Dedup(seen + dests) && LinksFromLines(b.names, b.nodes, lines)
  {
    assert seen + dests[..0] == seen;
    ghost var sofar := seen;
    var i := 0;
    while i < |dests|
      invariant 0 <= i <= |dests|
      invariant b.Valid()
      invariant Grows(old(b.nameMap), old(b.nodes), b.nameMap, b.nodes)
      invariant src in b.nameMap && b.nameMap[src] == srcId
      invariant forall l :: 0 <= l < i ==> Recorded(b.nameMap, b.nodes, src, dests[l])
      invariant sofar == seen + dests[..i] && b.names == Dedup(sofar)
      invariant LinksFromLines(b.names, b.nodes, lines)
    {
      ghost var m0, n0 := b.nameMap, b.nodes;
      TakeSnoc(seen, dests, i);
      AddDest(b, src, srcId, dests[i], sofar, lines);
      sofar := sofar + [dests[i]];
      GrowsTransitive(old(b.nameMap), old(b.nodes), m0, n0, b.nameMap, b.nodes);
      RecordedPrefixKept(m0, n0, b.nameMap, b.nodes, src, dests, i);
      i := i + 1;
    }
    assert dests[..i] == dests;
  }

  /** Every link on the first `l` lines is recorded. */
  ghost predicate LinesRecorded(nameMap: map<string, nat>, nodes: Graph, lines: seq<string>, l: nat)
    requires l <= |lines|
  {
    && (forall m :: 0 <= m < l ==> SplitOnce(lines[m], ": ").Some?)
    && (forall m, i :: 0 <= m < l && SplitOnce(lines[m], ": ").Some? && 0 <= i < |Dests(lines[m])| ==>
          Recorded(nameMap, nodes, Source(lines[m]), Dests(lines[m])[i]))
  }

  lemma LinesRecordedStep(m0: map<string, nat>, n0: Graph, m1: map<string, nat>, n1: Graph, lines: seq<string>, l: nat)
    requires l < |lines| && LinesRecorded(m0, n0, lines, l) && Grows(m0, n0, m1, n1)
    requires SplitOnce(lines[l], ": ").Some?
    requires forall i :: 0 <= i < |Dests(lines[l])| ==> Recorded(m1, n1, Source(lines[l]), Dests(lines[l])[i])
    ensures LinesRecorded(m1, n1, lines, l + 1)
  {
    forall m, i | 0 <= m < l && 0 <= i < |Dests(lines[m])|
      ensures Recorded(m1, n1, Source(lines[m]), Dests(lines[m])[i])
    {
      RecordedKept(m0, n0, m1, n1, Source(lines[m]), Dests(lines[m])[i]);
    }
  }

  /** Names are connected only when some line links them. */
  lemma ConnectedFromLines(data: Data, lines: seq<string>)
    requires LinksFromLines(data.names, data.nodes, lines)
    ensures forall a, c :: Connected(data, a, c) ==> LinkFromLine(lines, a, c)
  {
    forall a, c | Connected(data, a, c)
      ensures LinkFromLine(lines, a, c)
    {
      var i, j :| 0 <= i < |data.names| && 0 <= j < |data.names| && data.names[i] == a && data.names[j] == c
                  && i in data.nodes && j in data.nodes && j in data.nodes[i] && i in data.nodes[j];
      assert LinkTraced(data.names, lines, i, j);
    }
  }

  /** Names that some line links are connected, in either order. */
  lemma LinesConnected(b: Builder, lines: seq<string>)
    requires b.Valid() && LinesRecorded(b.nameMap, b.nodes, lines, |lines|)
    ensures forall a, c :: LinkFromLine(lines, a, c) ==> Connected(Data(b.names, b.nodes), a, c)
  {
    var data := Data(b.names, b.nodes);
    forall a, c | LinkFromLine(lines, a, c)
      ensures Connected(data, a, c)
    {
      var m, i :| 0 <= m < |lines| && SplitOnce(lines[m], ": ").Some? && 0 <= i < |Dests(lines[m])| &&
                  ((Source(lines[m]) == a && Dests(lines[m])[i] == c) || (Source(lines[m]) == c && Dests(lines[m])[i] == a));
      var x, y := Source(lines[m]), Dests(lines[m])[i];
      assert Recorded(b.nameMap, b.nodes, x, y);
      assert data.names[b.nameMap[x]] == x && data.names[b.nameMap[y]] == y;
    }
  }

  /** The tables of a valid builder, read as `Data`, are well formed and
      connect every recorded pair of names; when every link comes from a
      line, two names are connected exactly when some line links them. */
  lemma BuiltData(b: Builder, lines: seq<string>)
    requires b.Valid() && LinesRecorded(b.nameMap, b.nodes, lines, |lines|)
    requires LinksFromLines(b.names, b.nodes, lines)
    ensures WellFormed(Data(b.names, b.nodes))
    ensures forall m, i :: 0 <= m < |lines| && 0 <= i < |Dests(lines[m])| ==>
              Connected(Data(b.names, b.nodes), Source(lines[m]), Dests(lines[m])[i])
    ensures forall a, c :: Connected(Data(b.names, b.nodes), a, c) <==> LinkFromLine(lines, a, c)
  {
    var data := Data(b.names, b.nodes);
    ConnectedFromLines(data, lines);
    LinesConnected(b, lines);
    forall m, i | 0 <= m < |lines| && 0 <= i < |Dests(lines[m])|
      ensures Connected(data, Source(lines[m]), Dests(lines[m])[i])
    {
      var a, c := Source(lines[m]), Dests(lines[m])[i];
      assert Recorded(b.nameMap, b.nodes, a, c);
      assert data.names[b.nameMap[a]] == a && data.names[b.nameMap[c]] == c;
    }
    forall i, j | 0 <= i < j < |b.names|
      ensures b.names[i] != b.names[j]
    {
      assert b.nameMap[b.names[i]] == i && b.nameMap[b.names[j]] == j;
    }
  }

  /** Every name after a line's colon is linked to its source by that line. */
  lemma LineLinks(lines: seq<string>, l: nat)
    requires l < |lines| && SplitOnce(lines[l], ": ").Some?
    ensures forall i :: 0 <= i < |Dests(lines[l])| ==> LinkFromLine(lines, Source(lines[l]), Dests(lines[l])[i])
  {
  }

  /** Reading one more line appends its names. */
  lemma TokensSnoc(lines: seq<string>, l: nat)
    requires l < |lines| && AllSplit(lines[..l]) && SplitOnce(lines[l], ": ").Some?
    ensures AllSplit(lines[..l + 1])
    ensures Tokens(lines[..l + 1]) == Tokens(lines[..l]) + LineTokens(lines[l])
  {
    assert lines[..l + 1][..l] == lines[..l];
  }

  /** `parse_input`: every line is `name: name name ...`; a line without
      `": "` panics. */
  method ParseInput(input: string) returns (r: Option<Data>)
    ensures r.None? <==> exists l :: 0 <= l < |Lines(input)| && SplitOnce(Lines(input)[l], ": ").None?
    ensures r.Some? ==> WellFormed(r.value)
    ensures r.Some? ==> forall l, i :: 0 <= l < |Lines(input)| && 0 <= i < |Dests(Lines(input)[l])| ==>
                          Connected(r.value, Source(Lines(input)[l]), Dests(Lines(input)[l])[i])
    ensures r.Some? ==> AllSplit(Lines(input)) && r.value.names == Dedup(Tokens(Lines(input)))
    ensures r.Some? ==> LinksFromLines(r.value.names, r.value.nodes, Lines(input))
    ensures r.Some? ==> forall a, c :: Connected(r.value, a, c) <==> LinkFromLine(Lines(input), a, c)
  {
    var lines := Lines(input);
    var b := new Builder();
    var l := 0;
    ghost var toks: seq<string> := [];
    while l < |lines|
      invariant 0 <= l <= |lines|
      invariant b.Valid()
      invariant LinesRecorded(b.nameMap, b.nodes, lines, l)
      invariant AllSplit(lines[..l]) && toks == Tokens(lines[..l]) && b.names == Dedup(toks)
      invariant LinksFromLines(b.names, b.nodes, lines)
    {
      var parts := SplitOnce(lines[l], ": ");
      if parts.None? {
        return None;
      }
      var (src, destStr) := parts.value;
      ghost var m0, n0 := b.nameMap, b.nodes;
      assert src == Source(lines[l]) && Split(destStr, ' ') == Dests(lines[l]);
      assert toks + [src] + Split(destStr, ' ') == toks + LineTokens(lines[l]);
      LineLinks(lines, l);
      AddLine(b, src, Split(destStr, ' '), toks, lines);
      LinesRecordedStep(m0, n0, b.nameMap, b.nodes, lines, l);
      TokensSnoc(lines, l);
      toks := toks + [src] + Split(destStr, ' ');
      l := l + 1;
    }
    assert lines[..l] == lines;
    BuiltData(b, lines);
    return Some(Data(b.names, b.nodes));
  }

  /** The nodes named `a` and `b` are linked, in both directions. */
  ghost predicate Connected(data: Data, a: string, b: string)
  {
    exists i, j :: 0 <= i < |data.names| && 0 <= j < |data.names| && data.names[i] == a && data.names[j] == b
                   && i in data.nodes && j in data.nodes && j in data.nodes[i] && i in data.nodes[j]
  }

  /* ---------------- group sizes ---------------- */

  lemma ZeroInGroup(g: Graph, ignore: seq<nat>)
    ensures 0 in Group(g, ignore)
  {
    assert WalkBetween(g, ignore, [0], 0, 0);
  }

  lemma {:induction false} RangeSize(s: set<nat>, n: nat)
    requires forall k: nat :: k in s <==> k < n
    ensures |s| == n
    decreases n
  {
    if n > 0 {
      var t := s - {n - 1};
      RangeSize(t, n - 1);
    }
  }

  lemma SubsetSize(a: set<nat>, b: set<nat>)
    requires a <= b
    ensures |a| <= |b|
  {
    assert b == a + (b - a);
  }

  /** When it does not panic, `group_size` of well-formed data is between one
      and the number of nodes. */
  lemma GroupBounds(data: Data, ignore: seq<nat>)
    requires WellFormed(data) && !GroupPanics(data.nodes, ignore)
    ensures 1 <= |Group(data.nodes, ignore)| <= |data.names|
  {
    var group := Group(data.nodes, ignore);
    ZeroInGroup(data.nodes, ignore);
    forall v | v in group
      ensures v in data.nodes.Keys
    {
      assert Reaches(data.nodes, ignore, 0, v);
    }
    RangeSize(data.nodes.Keys, |data.names|);
    SubsetSize(group, data.nodes.Keys);
  }

  /* ---------------- part 1: the histogram ---------------- */

  /** An entry of `edgehist`: an edge code and how many routes used it. */
  datatype Entry = Entry(edge: nat, count: nat)

  /** `*edgehist.entry(e).or_default() += 1`, with the map kept as a list of
      entries in the order their edges were first counted. */
  function Bump(hist: seq<Entry>, e: nat): seq<Entry>
  {
    if hist == [] then [Entry(e, 1)]
    else if hist[0].edge == e then [hist[0].(count := hist[0].count + 1)] + hist[1..]
    else [hist[0]] + Bump(hist[1..], e)
  }

  /** The count the histogram holds for `e`. */
  function CountOf(hist: seq<Entry>, e: nat): nat
  {
    if hist == [] then 0 else (if hist[0].edge == e then hist[0].count else 0) + CountOf(hist[1..], e)
  }

  ghost predicate HasEdge(hist: seq<Entry>, e: nat)
  {
    exists i :: 0 <= i < |hist| && hist[i].edge == e
  }

  /** Like a map's keys, no edge has two entries. */
  ghost predicate DistinctEdges(hist: seq<Entry>)
  {
    forall i, j :: 0 <= i < j < |hist| ==> hist[i].edge != hist[j].edge
  }

  /** Counting `e` adds one to its count and leaves the others alone. */
  lemma {:induction false} BumpCounts(hist: seq<Entry>, e: nat, x: nat)
    ensures CountOf(Bump(hist, e), x) == CountOf(hist, x) + (if x == e then 1 else 0)
  {
    if hist != [] && hist[0].edge != e {
      BumpCounts(hist[1..], e, x);
      assert Bump(hist, e)[1..] == Bump(hist[1..], e);
    } else if hist != [] {
      assert Bump(hist, e)[1..] == hist[1..];
    }
  }

  lemma {:induction false} BumpEdges(hist: seq<Entry>, e: nat, x: nat)
    ensures HasEdge(Bump(hist, e), x) <==> HasEdge(hist, x) || x == e
  {
    var r := Bump(hist, e);
    if hist == [] {
      assert r[0].edge == e;
    } else if hist[0].edge == e {
      assert r[0].edge == e;
      if HasEdge(hist, x) {
        var i :| 0 <= i < |hist| && hist[i].edge == x;
        assert r[i].edge == x;
      }
      if HasEdge(r, x) {
        var i :| 0 <= i < |r| && r[i].edge == x;
        assert hist[i].edge == x;
      }
    } else {
      var rest := Bump(hist[1..], e);
      BumpEdges(hist[1..], e, x);
      assert r == [hist[0]] + rest;
      if HasEdge(hist, x) {
        var i :| 0 <= i < |hist| && hist[i].edge == x;
        if i == 0 {
          assert r[0].edge == x;
        } else {
          assert hist[1..][i - 1].edge == x;
          assert HasEdge(rest, x);
          var q :| 0 <= q < |rest| && rest[q].edge == x;
          assert r[q + 1].edge == x;
        }
      }
      if x == e {
        assert HasEdge(rest, x);
        var q :| 0 <= q < |rest| && rest[q].edge == x;
        assert r[q + 1].edge == x;
      }
      if HasEdge(r, x) {
        var i :| 0 <= i < |r| && r[i].edge == x;
        if i == 0 {
          assert hist[0].edge == x;
        } else {
          assert rest[i - 1].edge == x;
          if HasEdge(hist[1..], x) {
            var q :| 0 <= q < |hist[1..]| && hist[1..][q].edge == x;
            assert hist[q + 1].edge == x;
          }
        }
      }
    }
  }

  lemma {:induction false} BumpDistinct(hist: seq<Entry>, e: nat)
    requires DistinctEdges(hist)
    ensures DistinctEdges(Bump(hist, e))
  {
    if hist != [] && hist[0].edge != e {
      var rest := Bump(hist[1..], e);
      BumpDistinct(hist[1..], e);
      BumpEdges(hist[1..], e, hist[0].edge);
      assert !HasEdge(hist[1..], hist[0].edge) by {
        forall i | 0 <= i < |hist[1..]|
          ensures hist[1..][i].edge != hist[0].edge
        {
          assert hist[1..][i] == hist[i + 1];
        }
      }
      var r := Bump(hist, e);
      forall i, j | 0 <= i < j < |r|
        ensures r[i].edge != r[j].edge
      {
        if i == 0 {
          assert r[j] == rest[j - 1];
        } else {
          assert r[i] == rest[i - 1] && r[j] == rest[j - 1];
        }
      }
    }
  }

  /** The codes of the links a route uses, in order. */
  function PathEdges(p: seq<nat>): (r: seq<nat>)
    requires |p| >= 1
    ensures |r| == |p| - 1
  {
    seq(|p| - 1, i requires 0 <= i < |p| - 1 => EdgeEnc(p[i], p[i + 1]))
  }

  /** Counting each of `es` in turn. */
  function AddAll(hist: seq<Entry>, es: seq<nat>): seq<Entry>
    decreases |es|
  {
    if es == [] then hist else AddAll(Bump(hist, es[0]), es[1..])
  }

  /** The histogram of the routes' links, route by route. */
  function HistOf(paths: seq<seq<nat>>): seq<Entry>
    requires Proper(paths)
  {
    if paths == [] then []
    else AddAll(HistOf(paths[..|paths| - 1]), PathEdges(paths[|paths| - 1]))
  }

  /** How many times the routes use the link coded `e`. */
  function Uses(paths: seq<seq<nat>>, e: nat): nat
    requires Proper(paths)
  {
    if paths == [] then 0
    else Uses(paths[..|paths| - 1], e) + Occurrences(PathEdges(paths[|paths| - 1]), e)
  }

  lemma {:induction false} AddAllCounts(hist: seq<Entry>, es: seq<nat>, x: nat)
    ensures CountOf(AddAll(hist, es), x) == CountOf(hist, x) + Occurrences(es, x)
    ensures DistinctEdges(hist) ==> DistinctEdges(AddAll(hist, es))
    decreases |es|
  {
    if es != [] {
      BumpCounts(hist, es[0], x);
      if DistinctEdges(hist) {
        BumpDistinct(hist, es[0]);
      }
      AddAllCounts(Bump(hist, es[0]), es[1..], x);
    }
  }

  /** The histogram holds one entry per edge, counting exactly how many
      times the routes use it. */
  lemma {:induction false} HistCounts(paths: seq<seq<nat>>, x: nat)
    requires Proper(paths)
    ensures CountOf(HistOf(paths), x) == Uses(paths, x)
    ensures DistinctEdges(HistOf(paths))
  {
    if paths != [] {
      var init := paths[..|paths| - 1];
      HistCounts(init, x);
      AddAllCounts(HistOf(init), PathEdges(paths[|paths| - 1]), x);
    }
  }

  /** The inner loop of `do_part1`'s first loop: count each link of the
      route. */
  method CountRoute(hist0: seq<Entry>, p: seq<nat>) returns (hist: seq<Entry>)
    requires |p| >= 1
    ensures hist == AddAll(hist0, PathEdges(p))
  {
    hist := hist0;
    var k := 0;
    while k < |p| - 1
      invariant 0 <= k <= |p| - 1
      invariant AddAll(hist, PathEdges(p)[k..]) == AddAll(hist0, PathEdges(p))
    {
      var es := PathEdges(p)[k..];
      assert es[0] == EdgeEnc(p[k], p[k + 1]) && es[1..] == PathEdges(p)[k + 1..];
      hist := Bump(hist, EdgeEnc(p[k], p[k + 1]));
      k := k + 1;
    }
  }

  /* ---------------- part 1: the search ---------------- */

  datatype Outcome = Panic | Done(value: nat)

  /** What `group_size` says about removing the edges of three entries. */
  datatype Trial = Crash | Whole | Cut(size: nat)

  /** What `group_size` says about the graph without the links in `ignore`. */
  ghost function Verdict(g: Graph, n: nat, ignore: seq<nat>): Trial
  {
    if GroupPanics(g, ignore) then Crash
    else
      var size := |Group(g, ignore)|;
      if size < n then Cut(size) else Whole
  }

  ghost function Try(g: Graph, n: nat, hist: seq<Entry>, i: nat, j: nat, k: nat): Trial
    requires k < j < i < |hist|
  {
    Verdict(g, n, [hist[i].edge, hist[j].edge, hist[k].edge])
  }

  /** One trial of the innermost loop's body. */
  method Probe(g: Graph, n: nat, ignore: seq<nat>) returns (t: Trial)
    ensures t == Verdict(g, n, ignore)
  {
    var size := GroupSize(g, ignore);
    if size.None? {
      return Crash;
    }
    if size.value < n {
      return Cut(size.value);
    }
    return Whole;
  }

  /** The innermost loop from `k` on: nothing when every triple keeps the
      group whole. */
  ghost function ScanK(g: Graph, n: nat, hist: seq<Entry>, i: nat, j: nat, k: nat): Option<Outcome>
    requires k <= j < i < |hist|
    decreases j - k
  {
    if k == j then None
    else
      match Try(g, n, hist, i, j, k)
      case Crash => Some(Panic)
      case Cut(size) => Some(Done(size * (n - size)))
      case Whole => ScanK(g, n, hist, i, j, k + 1)
  }

  ghost function ScanJ(g: Graph, n: nat, hist: seq<Entry>, i: nat, j: nat): Option<Outcome>
    requires 1 <= j <= i < |hist|
    decreases i - j
  {
    if j == i then None
    else
      match ScanK(g, n, hist, i, j, 0)
      case Some(o) => Some(o)
      case None => ScanJ(g, n, hist, i, j + 1)
  }

  /** The outer loop from `i` on, over `i < m`: indexing past the histogram
      panics, and so does running out of triples (`todo!()`). */
  ghost function ScanI(g: Graph, n: nat, hist: seq<Entry>, m: nat, i: nat): Outcome
    requires 2 <= i
    decreases m - i
  {
    if i >= m then Panic
    else if i >= |hist| then Panic
    else
      match ScanJ(g, n, hist, i, 1)
      case Some(o) => o
      case None => ScanI(g, n, hist, m, i + 1)
  }

  /** A triple that splits the graph: the group's size times the rest. */
  ghost predicate Splits(g: Graph, n: nat, hist: seq<Entry>, m: nat, i: nat, j: nat, k: nat, v: nat)
  {
    k < j < i < |hist| && i < m && Try(g, n, hist, i, j, k).Cut? && v == Try(g, n, hist, i, j, k).size * (n - Try(g, n, hist, i, j, k).size)
  }

  lemma {:induction false} ScanKDone(g: Graph, n: nat, hist: seq<Entry>, m: nat, i: nat, j: nat, k: nat, v: nat)
    requires k <= j < i < |hist| && i < m && ScanK(g, n, hist, i, j, k) == Some(Done(v))
    ensures exists c :: Splits(g, n, hist, m, i, j, c, v)
    decreases j - k
  {
    if Try(g, n, hist, i, j, k).Cut? {
      assert Splits(g, n, hist, m, i, j, k, v);
    } else {
      ScanKDone(g, n, hist, m, i, j, k + 1, v);
    }
  }

  lemma {:induction false} ScanJDone(g: Graph, n: nat, hist: seq<Entry>, m: nat, i: nat, j: nat, v: nat)
    requires 1 <= j <= i < |hist| && i < m && ScanJ(g, n, hist, i, j) == Some(Done(v))
    ensures exists b, c :: Splits(g, n, hist, m, i, b, c, v)
    decreases i - j
  {
    if ScanK(g, n, hist, i, j, 0).Some? {
      ScanKDone(g, n, hist, m, i, j, 0, v);
    } else {
      ScanJDone(g, n, hist, m, i, j + 1, v);
    }
  }

  /** An answer of the search comes from a triple of the first `m` entries
      whose removal leaves node 0's group smaller than the graph: the product
      of the group's size and the number of nodes outside it. */
  lemma {:induction false} ScanIDone(g: Graph, n: nat, hist: seq<Entry>, m: nat, i: nat, v: nat)
    requires 2 <= i && ScanI(g, n, hist, m, i) == Done(v)
    ensures exists a, b, c :: Splits(g, n, hist, m, a, b, c, v)
    decreases m - i
  {
    if ScanJ(g, n, hist, i, 1).Some? {
      ScanJDone(g, n, hist, m, i, 1, v);
    } else {
      ScanIDone(g, n, hist, m, i + 1, v);
    }
  }

  /** For well-formed data a splitting triple cuts the graph in two nonempty
      parts, no link that is not removed joins them, and the answer is
      positive. */
  lemma SplitMeaning(data: Data, hist: seq<Entry>, m: nat, i: nat, j: nat, k: nat, v: nat)
    requires WellFormed(data) && Splits(data.nodes, |data.names|, hist, m, i, j, k, v)
    ensures var ignore := [hist[i].edge, hist[j].edge, hist[k].edge];
            var size := |Group(data.nodes, ignore)|;
            1 <= size < |data.names| && v == size * (|data.names| - size) && v >= 1
            && forall a, b :: a in Group(data.nodes, ignore) && Linked(data.nodes, ignore, a, b) ==> b in Group(data.nodes, ignore)
  {
    var ignore := [hist[i].edge, hist[j].edge, hist[k].edge];
    GroupBounds(data, ignore);
    var size := |Group(data.nodes, ignore)|;
    MulAtLeast(size, |data.names| - size);
    forall a, b | a in Group(data.nodes, ignore) && Linked(data.nodes, ignore, a, b)
      ensures b in Group(data.nodes, ignore)
    {
      GroupIsCut(data.nodes, ignore, a, b);
    }
  }

  lemma MulAtLeast(a: nat, b: nat)
    requires a >= 1
    ensures a * b >= b
  {
  }

  /** The triple loop of `do_part1`, pushing and popping `ignore_edges`. */
  method Search(g: Graph, n: nat, hist: seq<Entry>, m: nat) returns (r: Outcome)
    ensures r == ScanI(g, n, hist, m, 2)
  {
    var ignore: seq<nat> := [];
    var i := 2;
    while i < m
      invariant 2 <= i
      invariant ignore == []
      invariant ScanI(g, n, hist, m, 2) == ScanI(g, n, hist, m, i)
    {
      if i >= |hist| {
        return Panic;
      }
      ignore := ignore + [hist[i].edge];
      var j := 1;
      while j < i
        invariant 1 <= j <= i
        invariant ignore == [hist[i].edge]
        invariant ScanJ(g, n, hist, i, 1) == ScanJ(g, n, hist, i, j)
      {
        ignore := ignore + [hist[j].edge];
        var k := 0;
        while k < j
          invariant 0 <= k <= j
          invariant ignore == [hist[i].edge, hist[j].edge]
          invariant ScanK(g, n, hist, i, j, 0) == ScanK(g, n, hist, i, j, k)
        {
          ignore := ignore + [hist[k].edge];
          assert ignore == [hist[i].edge, hist[j].edge, hist[k].edge];
          var t := Probe(g, n, ignore);
          assert t == Try(g, n, hist, i, j, k);
          if t.Crash? {
            return Panic;
          }
          if t.Cut? {
            return Done(t.size * (n - t.size));
          }
          ignore := ignore[..|ignore| - 1];
          k := k + 1;
        }
        ignore := ignore[..|ignore| - 1];
        j := j + 1;
      }
      ignore := ignore[..|ignore| - 1];
      i := i + 1;
    }
    return Panic;
  }

  /* ---------------- part 1 ---------------- */

  /** `p` is a fewest-link route from `a` to another node `b`. */
  ghost predicate ShortestRoute(g: Graph, p: seq<nat>, a: nat, b: nat)
  {
    a != b && WalkBetween(g, [], p, a, b) && forall q :: WalkBetween(g, [], q, a, b) ==> |p| <= |q|
  }

  /** `route(a, b).unwrap()` panics: `b` is `a`, cannot be reached, or the
      search met a node without an entry. */
  ghost predicate RouteFails(g: Graph, a: nat, b: nat)
  {
    a == b || !Reaches(g, [], a, b) || exists v :: Reaches(g, [], a, v) && v !in g
  }

  /** Route `l` is a fewest-link route from `l` to `l + half`, for each `l`. */
  ghost predicate AllShortest(g: Graph, paths: seq<seq<nat>>, half: nat)
    decreases |paths|
  {
    paths == [] ||
    (AllShortest(g, paths[..|paths| - 1], half) && ShortestRoute(g, paths[|paths| - 1], |paths| - 1, |paths| - 1 + half))
  }

  /** Every route links at least two nodes. */
  predicate Proper(paths: seq<seq<nat>>)
  {
    forall l :: 0 <= l < |paths| ==> |paths[l]| >= 2
  }

  lemma {:induction false} AllShortestMeaning(g: Graph, paths: seq<seq<nat>>, half: nat, l: nat)
    requires AllShortest(g, paths, half) && l < |paths|
    ensures ShortestRoute(g, paths[l], l, l + half)
    decreases |paths|
  {
    if l < |paths| - 1 {
      AllShortestMeaning(g, paths[..|paths| - 1], half, l);
    }
  }

  lemma HistSnoc(paths: seq<seq<nat>>, p: seq<nat>)
    requires Proper(paths) && |p| >= 2
    ensures Proper(paths + [p])
    ensures HistOf(paths + [p]) == AddAll(HistOf(paths), PathEdges(p))
  {
    var paths' := paths + [p];
    forall l | 0 <= l < |paths'|
      ensures |paths'[l]| >= 2
    {
      if l < |paths| {
        assert paths'[l] == paths[l];
      }
    }
    assert paths'[..|paths|] == paths;
  }

  lemma LongEnough(g: Graph, p: seq<nat>, a: nat, b: nat)
    requires ShortestRoute(g, p, a, b)
    ensures |p| >= 2
  {
    assert p[0] != p[|p| - 1];
  }

  /** One more route found: the routes so far stay shortest. */
  lemma RoutesStep(g: Graph, paths: seq<seq<nat>>, half: nat, p: seq<nat>)
    requires AllShortest(g, paths, half) && Proper(paths)
    requires ShortestRoute(g, p, |paths|, |paths| + half)
    ensures AllShortest(g, paths + [p], half) && Proper(paths + [p])
  {
    var paths' := paths + [p];
    LongEnough(g, p, |paths|, |paths| + half);
    assert paths'[..|paths|] == paths;
    forall l | 0 <= l < |paths'|
      ensures |paths'[l]| >= 2
    {
      if l < |paths| {
        assert paths'[l] == paths[l];
      }
    }
  }

  /** The order of `sort_by_key(|v| usize::MAX - v.1)`: larger counts first. */
  function ByCount(a: Entry, b: Entry): bool
  {
    a.count >= b.count
  }

  lemma ByCountOrders()
    ensures Sorting.TotalPreorder(ByCount)
  {
  }

  /** The sorted histogram holds the same entries, in falling order of
      count. */
  lemma SortedHistogram(hist: seq<Entry>)
    ensures var s := Sorting.SortBy(hist, ByCount);
            multiset(s) == multiset(hist) && forall i, j :: 0 <= i < j < |s| ==> s[i].count >= s[j].count
  {
    ByCountOrders();
    Sorting.SortBySortsAndPermutes(hist, ByCount);
  }

  /** One step of the first loop of `do_part1`: the route from `i` to
      `i + half`, where `i` is the number of routes found so far. */
  method NextRoute(g: Graph, ghost paths: seq<seq<nat>>, i: nat, half: nat) returns (p: Option<seq<nat>>)
    requires i == |paths|
    ensures p.Some? ==> ShortestRoute(g, p.value, |paths|, |paths| + half)
    ensures p.None? ==> RouteFails(g, |paths|, |paths| + half)
  {
    var route := Route(g, i, i + half);
    if !route.Found? {
      return None;
    }
    return Some(route.path);
  }

  /** The routes found so far are shortest and `counts` is their histogram. */
  ghost predicate Counted(g: Graph, half: nat, paths: seq<seq<nat>>, counts: seq<Entry>)
  {
    AllShortest(g, paths, half) && Proper(paths) && counts == HistOf(paths)
  }

  lemma CountedStep(g: Graph, half: nat, paths: seq<seq<nat>>, counts: seq<Entry>, p: seq<nat>)
    requires Counted(g, half, paths, counts)
    requires ShortestRoute(g, p, |paths|, |paths| + half)
    ensures |p| >= 2
    ensures Counted(g, half, paths + [p], AddAll(counts, PathEdges(p)))
  {
    RoutesStep(g, paths, half, p);
    LongEnough(g, p, |paths|, |paths| + half);
    HistSnoc(paths, p);
  }

  /** What the first loop of `do_part1` leaves: the routes it found are
      shortest, `hist` is their histogram when all `n/4` were found, and
      otherwise the next route panics. */
  ghost predicate Routed(g: Graph, numNodes: nat, paths: seq<seq<nat>>, hist: Option<seq<Entry>>)
  {
    |paths| <= numNodes / 4 && AllShortest(g, paths, numNodes / 2) && Proper(paths) &&
    (hist.None? <==> |paths| < numNodes / 4) &&
    (hist.None? ==> RouteFails(g, |paths|, |paths| + numNodes / 2)) &&
    (hist.Some? ==> hist.value == HistOf(paths))
  }

  lemma RoutedAll(g: Graph, numNodes: nat, paths: seq<seq<nat>>, counts: seq<Entry>)
    requires Counted(g, numNodes / 2, paths, counts) && |paths| == numNodes / 4
    ensures Routed(g, numNodes, paths, Some(counts))
  {
  }

  /** The first loop of `do_part1`: route from each `i < n/4` to `i + n/2`
      and count the links of each route; `None` when a route panics. The
      routes are returned as a ghost `paths`. */
  method CountRoutes(g: Graph, numNodes: nat) returns (hist: Option<seq<Entry>>, ghost paths: seq<seq<nat>>)
    ensures Routed(g, numNodes, paths, hist)
  {
    var half := numNodes / 2;
    var counts: seq<Entry> := [];
    paths := [];
    var i := 0;
    while i < numNodes / 4
      invariant 0 <= i <= numNodes / 4
      invariant |paths| == i
      invariant Counted(g, half, paths, counts)
    {
      var route := NextRoute(g, paths, i, half);
      if route.None? {
        return None, paths;
      }
      var p := route.value;
      CountedStep(g, half, paths, counts, p);
      counts := CountRoute(counts, p);
      paths := paths + [p];
      i := i + 1;
    }
    RoutedAll(g, numNodes, paths, counts);
    return Some(counts), paths;
  }

  /** `do_part1`: count the links of the routes, sort the entries by falling
      count and search the triples of the first `m` entries, `m` being the
      number of edges. `keys` lists the keys of the link map once each, in the
      map's iteration order. The routes and their histogram are returned as
      ghost `paths` and `hist`. */
  method Part1(data: Data, keys: seq<nat>) returns (r: Outcome, ghost paths: seq<seq<nat>>, ghost hist: Option<seq<Entry>>)
    requires forall k :: k in keys <==> k in data.nodes
    requires forall i, j :: 0 <= i < j < |keys| ==> keys[i] != keys[j]
    ensures Routed(data.nodes, |data.names|, paths, hist)
    ensures hist.None? ==> r == Panic
    ensures hist.Some? ==>
              r == ScanI(data.nodes, |data.names|, Sorting.SortBy(hist.value, ByCount), |EdgeList(data.nodes, keys)|, 2)
  {
    var edges := Edges(data.nodes, keys);
    var numNodes := |data.names|;
    var counts;
    counts, paths := CountRoutes(data.nodes, numNodes);
    hist := counts;
    if counts.None? {
      return Panic, paths, hist;
    }
    var histEntries := Sorting.SortBy(counts.value, ByCount);
    r := Search(data.nodes, numNodes, histEntries, |edges|);
  }
}
