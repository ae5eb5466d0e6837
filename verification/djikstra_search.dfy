/** The shortest-path client's planning: Dijkstra's algorithm with
    predecessor-based path reconstruction, the path score `weigh`, and
    `find_best`, which picks a cell on the cheapest border-to-border path. */
module DjikstraSearch {
  import opened Wrappers
  import opened DjikstraGraph
  import HexGame

  type Weights = map<(Node, Node), int>

  /** What `djikstra` records per reached node: the node it was reached from
      (none for the start) and the cost of that route. */
  datatype Entry = Entry(pred: Option<Node>, dist: int)

  // ---------------------------------------------------------------------------
  // Walks and their cost

  ghost predicate NonNegative(w: Weights) {
    forall e :: e in w ==> w[e] >= 0
  }

  /** Each consecutive pair of p is an edge with a weight. */
  predicate Linked(w: Weights, p: seq<Node>) {
    forall k :: 0 <= k < |p| - 1 ==> (p[k], p[k + 1]) in w
  }

  /** p is a walk from s to t. */
  predicate IsWalk(w: Weights, p: seq<Node>, s: Node, t: Node) {
    |p| >= 1 && p[0] == s && p[|p| - 1] == t && Linked(w, p)
  }

  ghost predicate Reachable(w: Weights, s: Node, t: Node) {
    exists p :: IsWalk(w, p, s, t)
  }

  /** The total weight of the consecutive pairs of a walk. */
  function PathCost(w: Weights, p: seq<Node>): int
    requires Linked(w, p)
    decreases |p|
  {
    if |p| <= 1 then 0 else PathCost(w, p[..|p| - 1]) + w[(p[|p| - 2], p[|p| - 1])]
  }

  lemma {:induction false} PathCostNonNegative(w: Weights, p: seq<Node>)
    requires NonNegative(w) && Linked(w, p)
    ensures PathCost(w, p) >= 0
    decreases |p|
  {
    if |p| > 1 {
      PathCostNonNegative(w, p[..|p| - 1]);
    }
  }

  /** With non-negative weights, a prefix of a walk costs no more than the walk. */
  lemma {:induction false} PrefixCost(w: Weights, p: seq<Node>, k: nat)
    requires NonNegative(w) && Linked(w, p) && 1 <= k <= |p|
    ensures PathCost(w, p[..k]) <= PathCost(w, p)
    decreases |p|
  {
    if k < |p| {
      var q := p[..|p| - 1];
      PrefixCost(w, q, k);
      assert q[..k] == p[..k];
    } else {
      assert p[..k] == p;
    }
  }

  /** Putting a node in front of a walk adds the weight of the new first pair. */
  lemma {:induction false} PathCostCons(w: Weights, x: Node, p: seq<Node>)
    requires |p| >= 1 && (x, p[0]) in w && Linked(w, p)
    ensures Linked(w, [x] + p)
    ensures PathCost(w, [x] + p) == w[(x, p[0])] + PathCost(w, p)
    decreases |p|
  {
    var q := [x] + p;
    forall k | 0 <= k < |q| - 1
      ensures (q[k], q[k + 1]) in w
    {
      if k > 0 {
        assert q[k] == p[k - 1] && q[k + 1] == p[k];
      }
    }
    if |p| > 1 {
      assert q[..|q| - 1] == [x] + p[..|p| - 1];
      PathCostCons(w, x, p[..|p| - 1]);
    }
  }

  // ---------------------------------------------------------------------------
  // What `djikstra` maintains

  /** d is no more than the cost of any walk from s to v. */
  ghost predicate LowerBound(w: Weights, s: Node, v: Node, d: int) {
    forall p :: IsWalk(w, p, s, v) ==> d <= PathCost(w, p)
  }

  /** Every reached node other than the start was reached from a visited node
      along an edge, at that node's recorded cost plus the edge's weight. */
  ghost predicate Tree(w: Weights, sp: map<Node, Entry>, initial: Node, visited: set<Node>) {
    initial in sp && sp[initial] == Entry(None, 0) &&
    forall x {:trigger sp[x].pred} :: x in sp && x != initial ==>
      sp[x].pred.Some? && sp[x].pred.value in visited && sp[x].pred.value in sp &&
      (sp[x].pred.value, x) in w &&
      sp[x].dist == sp[sp[x].pred.value].dist + w[(sp[x].pred.value, x)]
  }

  /** Visit order: a visited node was reached from a node visited before it. */
  ghost predicate Ranked(sp: map<Node, Entry>, visited: set<Node>, order: map<Node, nat>) {
    order.Keys == visited &&
    (forall v :: v in visited ==> order[v] < |visited|) &&
    forall x {:trigger sp[x].pred} :: x in visited && x in sp && sp[x].pred.Some? && sp[x].pred.value in visited ==>
      order[sp[x].pred.value] < order[x]
  }

  /** Every edge out of a visited node has been relaxed. */
  ghost predicate Relaxed(w: Weights, sp: map<Node, Entry>, visited: set<Node>) {
    forall v, y :: v in visited && v in sp && (v, y) in w ==>
      y in sp && sp[y].dist <= sp[v].dist + w[(v, y)]
  }

  /** The recorded cost of every visited node is optimal. */
  ghost predicate Settled(w: Weights, sp: map<Node, Entry>, initial: Node, visited: set<Node>) {
    forall v :: v in visited && v in sp ==> LowerBound(w, initial, v, sp[v].dist)
  }

  /** No visited node costs more than a reached, unvisited one. */
  ghost predicate Ordered(sp: map<Node, Entry>, visited: set<Node>) {
    forall v, y :: v in visited && v in sp && y in sp && y !in visited ==> sp[v].dist <= sp[y].dist
  }

  /** `current` is a cheapest reached, unvisited node. */
  ghost predicate Cheapest(sp: map<Node, Entry>, visited: set<Node>, current: Node) {
    current in sp && current !in visited &&
    forall y :: y in sp && y !in visited ==> sp[current].dist <= sp[y].dist
  }

  /** The node a cheapest unvisited node is taken to be optimal: any walk to
      it leaves the visited set somewhere, at a node no cheaper than it. */
  lemma CurrentSettled(w: Weights, sp: map<Node, Entry>, initial: Node, visited: set<Node>, current: Node)
    requires NonNegative(w) && visited <= sp.Keys
    requires Tree(w, sp, initial, visited) && Relaxed(w, sp, visited) && Settled(w, sp, initial, visited)
    requires Cheapest(sp, visited, current)
    requires current == initial || initial in visited
    ensures LowerBound(w, initial, current, sp[current].dist)
  {
    forall p | IsWalk(w, p, initial, current)
      ensures sp[current].dist <= PathCost(w, p)
    {
      PathCostNonNegative(w, p);
      if current != initial {
        var k := Exit(p, visited);
        var q := p[..k + 1];
        assert IsWalk(w, q, initial, p[k]);
        ExitCost(w, p, k, sp[p[k]].dist, sp[p[k + 1]].dist, sp[current].dist);
      }
    }
  }

  /** A walk that starts inside a set and ends outside it leaves the set
      somewhere: the index of its last node inside before the first outside. */
  lemma Exit(p: seq<Node>, inside: set<Node>) returns (k: nat)
    requires |p| >= 1 && p[0] in inside && p[|p| - 1] !in inside
    ensures k < |p| - 1 && p[k] in inside && p[k + 1] !in inside
  {
    k := 0;
    while p[k + 1] in inside
      invariant 0 <= k < |p| - 1 && p[k] in inside
      decreases |p| - k
    {
      k := k + 1;
    }
  }

  /** Where a walk leaves the visited set, the recorded costs bound the cost
      of the whole walk from below. */
  lemma ExitCost(w: Weights, p: seq<Node>, k: nat, inner: int, outer: int, cheapest: int)
    requires NonNegative(w) && Linked(w, p) && k < |p| - 1
    requires inner <= PathCost(w, p[..k + 1])
    requires outer <= inner + w[(p[k], p[k + 1])]
    requires cheapest <= outer
    ensures cheapest <= PathCost(w, p)
  {
    assert p[..k + 2][..k + 1] == p[..k + 1];
    PrefixCost(w, p, k + 2);
  }

  /** With every reached node visited and every visited edge relaxed, the
      walks from the start never leave the visited set. */
  lemma NoWayOut(w: Weights, sp: map<Node, Entry>, initial: Node, visited: set<Node>, end: Node)
    requires visited <= sp.Keys && sp.Keys <= visited
    requires Relaxed(w, sp, visited) && initial in visited && end !in visited
    ensures !Reachable(w, initial, end)
  {
    forall p | IsWalk(w, p, initial, end)
      ensures false
    {
      var k := 0;
      while k < |p| - 1
        invariant 0 <= k < |p| && p[k] in visited
      {
        assert (p[k], p[k + 1]) in w;
        k := k + 1;
      }
    }
  }

  /** Recording that `next` is reached from the visited node `current` keeps
      the predecessor structure. */
  lemma TreeAfterUpdate(w: Weights, sp: map<Node, Entry>, initial: Node, visited: set<Node>,
                        current: Node, next: Node, weight: int)
    requires Tree(w, sp, initial, visited) && visited <= sp.Keys
    requires current in visited && initial in visited && next !in visited
    requires (current, next) in w && weight == sp[current].dist + w[(current, next)]
    ensures Tree(w, sp[next := Entry(Some(current), weight)], initial, visited)
  {
  }

  /** A finite non-empty set of reached nodes has a cheapest member. */
  lemma {:induction false} MinExists(sp: map<Node, Entry>, f: set<Node>)
    requires f != {} && f <= sp.Keys
    ensures exists m :: m in f && forall y :: y in f ==> sp[m].dist <= sp[y].dist
    decreases |f|
  {
    var x :| x in f;
    if f != {x} {
      MinExists(sp, f - {x});
      var m :| m in f - {x} && forall y :: y in f - {x} ==> sp[m].dist <= sp[y].dist;
      if sp[x].dist < sp[m].dist {
        assert forall y :: y in f ==> sp[x].dist <= sp[y].dist;
      } else {
        assert forall y :: y in f ==> sp[m].dist <= sp[y].dist;
      }
    }
  }

  // ---------------------------------------------------------------------------
  // djikstra

  lemma ListedBoth(edges: map<Node, seq<Node>>, w: Weights, a: Node, b: Node)
    requires Listed(edges, w)
    ensures b in AdjOf(edges, a) <==> (a, b) in w
  {
  }

  /** One step of the relaxation loop: reach `next` from `current` at cost
      `weight` if it had no record or a strictly dearer one. */
  function Improve(sp: map<Node, Entry>, current: Node, next: Node, weight: int): map<Node, Entry> {
    if next !in sp || sp[next].dist > weight then sp[next := Entry(Some(current), weight)] else sp
  }

  /** What the relaxation loop keeps, after handling the first `idx`
      neighbours of `current`. */
  ghost predicate RelaxInv(w: Weights, sp0: map<Node, Entry>, sp: map<Node, Entry>, initial: Node,
                           visited: set<Node>, current: Node, destinations: seq<Node>, idx: int,
                           universe: set<Node>)
  {
    current in sp0 && 0 <= idx <= |destinations| && visited <= sp0.Keys &&
    visited <= sp.Keys <= universe && sp0.Keys <= sp.Keys &&
    (forall v :: v in visited ==> sp[v] == sp0[v]) &&
    Tree(w, sp, initial, visited) &&
    (forall y :: y in sp0 ==> sp[y].dist <= sp0[y].dist) &&
    (forall y :: y in sp && y !in visited ==> sp[y].dist >= sp0[current].dist) &&
    (forall k :: 0 <= k < idx ==>
      ((current, destinations[k]) in w && destinations[k] in sp &&
       sp[destinations[k]].dist <= sp0[current].dist + w[(current, destinations[k])]))
  }

  lemma RelaxStep(w: Weights, sp0: map<Node, Entry>, sp: map<Node, Entry>, initial: Node,
                  visited: set<Node>, current: Node, destinations: seq<Node>, idx: int,
                  universe: set<Node>)
    requires RelaxInv(w, sp0, sp, initial, visited, current, destinations, idx, universe)
    requires NonNegative(w) && current in visited && initial in visited
    requires forall v :: v in visited ==> sp0[v].dist <= sp0[current].dist
    requires idx < |destinations| && (current, destinations[idx]) in w && destinations[idx] in universe
    ensures var next := destinations[idx];
      RelaxInv(w, sp0, Improve(sp, current, next, w[(current, next)] + sp0[current].dist),
               initial, visited, current, destinations, idx + 1, universe)
  {
    var next := destinations[idx];
    var weight := w[(current, next)] + sp0[current].dist;
    if next !in sp || sp[next].dist > weight {
      ImproveKeeps(w, sp0, sp, initial, visited, current, destinations, idx, universe);
    } else {
      assert Improve(sp, current, next, weight) == sp;
    }
  }

  /** A cheaper record for `next`, which is not visited, keeps the bounds on
      the recorded costs. */
  lemma ImproveBounds(w: Weights, sp0: map<Node, Entry>, sp: map<Node, Entry>, visited: set<Node>,
                      current: Node, next: Node, weight: int)
    requires current in sp0 && visited <= sp0.Keys <= sp.Keys && next !in visited && weight >= sp0[current].dist
    requires next !in sp || sp[next].dist > weight
    requires forall v :: v in visited ==> sp[v] == sp0[v]
    requires forall y :: y in sp0 ==> sp[y].dist <= sp0[y].dist
    requires forall y :: y in sp && y !in visited ==> sp[y].dist >= sp0[current].dist
    ensures var sp' := sp[next := Entry(Some(current), weight)];
      (forall v :: v in visited ==> sp'[v] == sp0[v]) &&
      (forall y :: y in sp0 ==> sp'[y].dist <= sp0[y].dist) &&
      (forall y :: y in sp' && y !in visited ==> sp'[y].dist >= sp0[current].dist)
  {
  }

  /** A cheaper record for `destinations[idx]` keeps the first neighbours
      relaxed and relaxes one more. */
  lemma ImproveDone(w: Weights, sp0: map<Node, Entry>, sp: map<Node, Entry>, current: Node,
                    destinations: seq<Node>, idx: int, weight: int)
    requires current in sp0 && 0 <= idx < |destinations| && (current, destinations[idx]) in w
    requires weight == w[(current, destinations[idx])] + sp0[current].dist
    requires destinations[idx] !in sp || sp[destinations[idx]].dist > weight
    requires forall k :: 0 <= k < idx ==>
      ((current, destinations[k]) in w && destinations[k] in sp &&
       sp[destinations[k]].dist <= sp0[current].dist + w[(current, destinations[k])])
    ensures var sp' := sp[destinations[idx] := Entry(Some(current), weight)];
      forall k :: 0 <= k < idx + 1 ==>
        ((current, destinations[k]) in w && destinations[k] in sp' &&
         sp'[destinations[k]].dist <= sp0[current].dist + w[(current, destinations[k])])
  {
    var next := destinations[idx];
    var sp' := sp[next := Entry(Some(current), weight)];
    forall k | 0 <= k < idx + 1
      ensures (current, destinations[k]) in w && destinations[k] in sp' &&
        sp'[destinations[k]].dist <= sp0[current].dist + w[(current, destinations[k])]
    {
      if destinations[k] != next {
        assert k < idx;
      }
    }
  }

  /** The step that records a cheaper route to the next neighbour. */
  lemma ImproveKeeps(w: Weights, sp0: map<Node, Entry>, sp: map<Node, Entry>, initial: Node,
                     visited: set<Node>, current: Node, destinations: seq<Node>, idx: int,
                     universe: set<Node>)
    requires RelaxInv(w, sp0, sp, initial, visited, current, destinations, idx, universe)
    requires NonNegative(w) && current in visited && initial in visited
    requires forall v :: v in visited ==> sp0[v].dist <= sp0[current].dist
    requires idx < |destinations| && (current, destinations[idx]) in w && destinations[idx] in universe
    requires var next := destinations[idx];
      next !in sp || sp[next].dist > w[(current, next)] + sp0[current].dist
    ensures var next := destinations[idx];
      RelaxInv(w, sp0, sp[next := Entry(Some(current), w[(current, next)] + sp0[current].dist)],
               initial, visited, current, destinations, idx + 1, universe)
  {
    var next := destinations[idx];
    var weight := w[(current, next)] + sp0[current].dist;
    assert next !in visited;
    TreeAfterUpdate(w, sp, initial, visited, current, next, weight);
    ImproveBounds(w, sp0, sp, visited, current, next, weight);
    ImproveDone(w, sp0, sp, current, destinations, idx, weight);
  }

  /** The relaxation loop of `djikstra` for the node just visited: every
      neighbour gets a record if it had none, or a cheaper one through
      `current` if that is strictly cheaper. Visited records stay as they are. */
  method Relax(g: Graph, sp0: map<Node, Entry>, initial: Node, visited: set<Node>, current: Node,
               ghost universe: set<Node>)
    returns (sp: map<Node, Entry>)
    requires Listed(g.edges, g.weights) && NonNegative(g.weights)
    requires current in visited && initial in visited && visited <= sp0.Keys <= universe
    requires forall e :: e in g.weights ==> e.1 in universe
    requires Tree(g.weights, sp0, initial, visited)
    requires forall v :: v in visited ==> sp0[v].dist <= sp0[current].dist
    requires forall y :: y in sp0 && y !in visited ==> sp0[y].dist >= sp0[current].dist
    ensures visited <= sp.Keys <= universe && sp0.Keys <= sp.Keys
    ensures forall v :: v in visited ==> sp[v] == sp0[v]
    ensures Tree(g.weights, sp, initial, visited)
    ensures forall y :: y in sp0 ==> sp[y].dist <= sp0[y].dist
    ensures forall y :: y in sp && y !in visited ==> sp[y].dist >= sp0[current].dist
    ensures forall y :: (current, y) in g.weights ==>
      y in sp && sp[y].dist <= sp0[current].dist + g.weights[(current, y)]
  {
    sp := sp0;
    var w := g.weights;
    var destinations := g.Adj(current);
    var weightToCurrent := sp[current].dist;
    RelaxStart(w, sp0, initial, visited, current, destinations, universe);
    for idx := 0 to |destinations|
      invariant RelaxInv(w, sp0, sp, initial, visited, current, destinations, idx, universe)
    {
      ListedBoth(g.edges, w, current, destinations[idx]);
      sp := RelaxNeighbour(w, sp0, sp, initial, visited, current, destinations, idx, universe, weightToCurrent);
    }
    RelaxDone(g.edges, w, sp0, sp, initial, visited, current, universe);
  }

  /** The body of the relaxation loop for the neighbour at `idx`. */
  method RelaxNeighbour(w: Weights, sp0: map<Node, Entry>, sp1: map<Node, Entry>, initial: Node,
                        visited: set<Node>, current: Node, destinations: seq<Node>, idx: int,
                        ghost universe: set<Node>, weightToCurrent: int)
    returns (sp: map<Node, Entry>)
    requires RelaxInv(w, sp0, sp1, initial, visited, current, destinations, idx, universe)
    requires NonNegative(w) && current in visited && initial in visited
    requires forall v :: v in visited ==> sp0[v].dist <= sp0[current].dist
    requires idx < |destinations| && (current, destinations[idx]) in w && destinations[idx] in universe
    requires weightToCurrent == sp0[current].dist
    ensures RelaxInv(w, sp0, sp, initial, visited, current, destinations, idx + 1, universe)
  {
    var next := destinations[idx];
    RelaxStep(w, sp0, sp1, initial, visited, current, destinations, idx, universe);
    sp := RelaxEdge(sp1, current, next, w[(current, next)] + weightToCurrent);
  }

  /** Reach `next` from `current` at cost `weight` if it had no record or a
      strictly dearer one. */
  method RelaxEdge(sp0: map<Node, Entry>, current: Node, next: Node, weight: int)
    returns (sp: map<Node, Entry>)
    ensures sp == Improve(sp0, current, next, weight)
    ensures sp.Keys == sp0.Keys + {next} && forall y :: y in sp0 && y != next ==> sp[y] == sp0[y]
    ensures next !in sp0 ==> sp[next] == Entry(Some(current), weight)
    ensures next in sp0 ==> sp[next].dist <= sp0[next].dist && sp[next].dist <= weight
    ensures next in sp0 && sp[next] != sp0[next] ==> sp[next] == Entry(Some(current), weight) && weight < sp0[next].dist
  {
    sp := sp0;
    if next !in sp {
      sp := sp[next := Entry(Some(current), weight)];
    } else {
      var currentShortestWeight := sp[next].dist;
      if currentShortestWeight > weight {
        sp := sp[next := Entry(Some(current), weight)];
      }
    }
  }

  /** Before any neighbour is handled the records are those on entry. */
  lemma RelaxStart(w: Weights, sp0: map<Node, Entry>, initial: Node, visited: set<Node>, current: Node,
                   destinations: seq<Node>, universe: set<Node>)
    requires current in visited && visited <= sp0.Keys <= universe
    requires Tree(w, sp0, initial, visited)
    requires forall y :: y in sp0 && y !in visited ==> sp0[y].dist >= sp0[current].dist
    ensures RelaxInv(w, sp0, sp0, initial, visited, current, destinations, 0, universe)
  {
  }

  /** Once every listed neighbour is handled, every edge out of `current`
      is relaxed. */
  lemma RelaxDone(edges: map<Node, seq<Node>>, w: Weights, sp0: map<Node, Entry>, sp: map<Node, Entry>,
                  initial: Node, visited: set<Node>, current: Node, universe: set<Node>)
    requires Listed(edges, w)
    requires RelaxInv(w, sp0, sp, initial, visited, current, AdjOf(edges, current),
                      |AdjOf(edges, current)|, universe)
    ensures forall y :: (current, y) in w ==> y in sp && sp[y].dist <= sp0[current].dist + w[(current, y)]
  {
    var destinations := AdjOf(edges, current);
    forall y | (current, y) in w
      ensures y in sp && sp[y].dist <= sp0[current].dist + w[(current, y)]
    {
      ListedBoth(edges, w, current, y);
      var k :| 0 <= k < |destinations| && destinations[k] == y;
    }
  }

  /** Everything the main loop of `djikstra` keeps, with `current` the node
      about to be visited. */
  ghost predicate SearchInv(w: Weights, sp: map<Node, Entry>, initial: Node, end: Node,
                            visited: set<Node>, order: map<Node, nat>, current: Node, universe: set<Node>)
  {
    visited <= sp.Keys <= universe && end !in visited &&
    (current == initial || initial in visited) &&
    Tree(w, sp, initial, visited) && Ranked(sp, visited, order) &&
    Relaxed(w, sp, visited) && Settled(w, sp, initial, visited) &&
    Ordered(sp, visited) && Cheapest(sp, visited, current)
  }

  /** Visiting `current` extends the visit order. */
  lemma RankedAfter(sp0: map<Node, Entry>, sp: map<Node, Entry>,
                    visited0: set<Node>, order0: map<Node, nat>, current: Node)
    requires Ranked(sp0, visited0, order0)
    requires visited0 <= sp0.Keys && current in sp0 && current !in visited0
    requires forall x {:trigger sp0[x].pred} :: x in visited0 + {current} && sp0[x].pred.Some? ==>
      sp0[x].pred.value in visited0
    requires forall v :: v in visited0 + {current} ==> v in sp && sp[v] == sp0[v]
    ensures Ranked(sp, visited0 + {current}, order0[current := |visited0|])
  {
    var visited, order := visited0 + {current}, order0[current := |visited0|];
    forall x | x in visited && x in sp && sp[x].pred.Some? && sp[x].pred.value in visited
      ensures order[sp[x].pred.value] < order[x]
    {
      assert sp[x] == sp0[x];
      if x != current {
        assert sp0[x].pred.value != current;
      }
    }
  }

  /** After the relaxation, every visited node's edges are relaxed. */
  lemma RelaxedAfter(w: Weights, sp0: map<Node, Entry>, sp: map<Node, Entry>,
                     visited0: set<Node>, current: Node)
    requires Relaxed(w, sp0, visited0) && visited0 <= sp0.Keys && current in sp0
    requires sp0.Keys <= sp.Keys
    requires forall v :: v in visited0 + {current} ==> v in sp && sp[v] == sp0[v]
    requires forall y :: y in sp0 ==> sp[y].dist <= sp0[y].dist
    requires forall y :: (current, y) in w ==> y in sp && sp[y].dist <= sp0[current].dist + w[(current, y)]
    ensures Relaxed(w, sp, visited0 + {current})
  {
    forall v, y | v in visited0 + {current} && v in sp && (v, y) in w
      ensures y in sp && sp[y].dist <= sp[v].dist + w[(v, y)]
    {
      if v != current {
        assert y in sp0 && sp0[y].dist <= sp0[v].dist + w[(v, y)];
      }
    }
  }

  /** One pass of the main loop of `djikstra`: visit `current`, relax its
      edges, then either find no reached, unvisited node left (no route) or
      pick a cheapest one to visit next. */
  method Visit(g: Graph, sp0: map<Node, Entry>, initial: Node, end: Node, visited0: set<Node>,
               ghost order0: map<Node, nat>, current: Node, ghost universe: set<Node>)
    returns (sp: map<Node, Entry>, visited: set<Node>, ghost order: map<Node, nat>, next: Option<Node>)
    requires Listed(g.edges, g.weights) && NonNegative(g.weights)
    requires forall e :: e in g.weights ==> e.1 in universe
    requires SearchInv(g.weights, sp0, initial, end, visited0, order0, current, universe) && current != end
    ensures visited == visited0 + {current}
    ensures next.None? ==> !Reachable(g.weights, initial, end)
    ensures next.Some? ==> SearchInv(g.weights, sp, initial, end, visited, order, next.value, universe)
  {
    var w := g.weights;
    CurrentSettled(w, sp0, initial, visited0, current);
    order := order0[current := |visited0|];
    visited := visited0 + {current};
    sp := Relax(g, sp0, initial, visited, current, universe);
    RankedAfter(sp0, sp, visited0, order0, current);
    RelaxedAfter(w, sp0, sp, visited0, current);
    assert Settled(w, sp, initial, visited);

    var nextDestinations := set node | node in sp && node !in visited;
    if nextDestinations == {} {
      NoWayOut(w, sp, initial, visited, end);
      return sp, visited, order, None;
    }
    MinExists(sp, nextDestinations);
    var node :| node in nextDestinations &&
      forall y :: y in nextDestinations ==> sp[node].dist <= sp[y].dist;
    next := Some(node);
  }

  /** The reconstruction loop of `djikstra`: follow the recorded
      predecessors back from `end` to the start, then reverse. The result is
      a walk from the start to `end` costing exactly the recorded cost. */
  method Reconstruct(w: Weights, sp: map<Node, Entry>, initial: Node, end: Node,
                     visited: set<Node>, ghost order: map<Node, nat>)
    returns (path: seq<Node>)
    requires Tree(w, sp, initial, visited) && Ranked(sp, visited, order)
    requires visited <= sp.Keys && end in sp
    ensures IsWalk(w, path, initial, end) && PathCost(w, path) == sp[end].dist
  {
    var reversedPath: seq<Node> := [];
    var node: Option<Node> := Some(end);
    ghost var route: seq<Node> := [];
    while node.Some?
      invariant node.Some? ==> node.value in sp
      invariant |reversedPath| == |route|
      invariant forall k :: 0 <= k < |reversedPath| ==> reversedPath[k] == route[|route| - 1 - k]
      invariant node.Some? && |route| == 0 ==> node.value == end
      invariant |route| > 0 ==>
        IsWalk(w, route, route[0], end) && route[0] in sp &&
        PathCost(w, route) + sp[route[0]].dist == sp[end].dist
      invariant node.Some? && |route| > 0 ==>
        (node.value, route[0]) in w &&
        sp[route[0]].dist == sp[node.value].dist + w[(node.value, route[0])]
      invariant node.None? ==> |route| > 0 && route[0] == initial
      decreases if node.Some? then Rank(visited, order, node.value) + 1 else 0
    {
      var x := node.value;
      reversedPath := reversedPath + [x];
      if |route| > 0 {
        PathCostCons(w, x, route);
      }
      route := [x] + route;
      node := sp[x].pred;
    }
    path := seq(|reversedPath|, k requires 0 <= k < |reversedPath| => reversedPath[|reversedPath| - 1 - k]);
    assert path == route;
  }

  /** The state before the first visit: only the start is reached, at cost 0. */
  lemma SearchStart(w: Weights, initial: Node, end: Node, universe: set<Node>)
    requires initial in universe
    ensures SearchInv(w, map[initial := Entry(None, 0)], initial, end, {}, map[], initial, universe)
  {
  }

  /** Visiting one more node of the universe leaves fewer to visit. */
  lemma Shrinks(universe: set<Node>, visited: set<Node>, current: Node)
    requires current in universe && current !in visited
    ensures |universe - (visited + {current})| < |universe - visited|
  {
    assert universe - (visited + {current}) == (universe - visited) - {current};
  }

  /** The main loop of `djikstra`: visit cheapest reached nodes until `end`
      is the one to visit, or nothing reached is left unvisited. */
  method Explore(g: Graph, initial: Node, end: Node)
    returns (found: bool, sp: map<Node, Entry>, visited: set<Node>, ghost order: map<Node, nat>)
    requires Listed(g.edges, g.weights) && NonNegative(g.weights)
    ensures !found ==> !Reachable(g.weights, initial, end)
    ensures found ==> Tree(g.weights, sp, initial, visited) && Ranked(sp, visited, order)
    ensures found ==> visited <= sp.Keys && end in sp && LowerBound(g.weights, initial, end, sp[end].dist)
  {
    var w := g.weights;
    ghost var universe := {initial} + set e | e in w :: e.1;
    sp := map[initial := Entry(None, 0)];
    var current := initial;
    visited := {};
    order := map[];
    SearchStart(w, initial, end, universe);

    while current != end
      invariant SearchInv(w, sp, initial, end, visited, order, current, universe)
      decreases |universe - visited|
    {
      Shrinks(universe, visited, current);
      var next;
      sp, visited, order, next := Visit(g, sp, initial, end, visited, order, current, universe);
      if next.None? {
        return false, sp, visited, order;
      }
      current := next.value;
    }
    CurrentSettled(w, sp, initial, visited, current);
    found := true;
  }

  /** `djikstra(graph, initial, end)`: None where the source answers
      "Route Not Possible", which happens exactly when no walk leads from
      initial to end; otherwise a walk from initial to end that costs no more
      than any other. */
  method Djikstra(g: Graph, initial: Node, end: Node) returns (r: Option<seq<Node>>)
    requires Listed(g.edges, g.weights) && NonNegative(g.weights)
    ensures r.None? <==> !Reachable(g.weights, initial, end)
    ensures r.Some? ==> IsWalk(g.weights, r.value, initial, end)
    ensures r.Some? ==> forall p :: IsWalk(g.weights, p, initial, end) ==>
      PathCost(g.weights, r.value) <= PathCost(g.weights, p)
  {
    var found, sp, visited, order := Explore(g, initial, end);
    if !found {
      return None;
    }
    var path := Reconstruct(g.weights, sp, initial, end, visited, order);
    return Some(path);
  }

  /** Position in the visit order, unvisited nodes coming last. */
  ghost function Rank(visited: set<Node>, order: map<Node, nat>, x: Node): nat
    requires order.Keys == visited
  {
    if x in visited then order[x] else |visited|
  }
}
