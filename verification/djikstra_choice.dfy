/** How the shortest-path client picks its move: `weigh` scores a path,
    `find_best` runs `djikstra` between every pair of cells on the acting
    player's two sides, keeps the first cheapest path and answers one of its
    cells. */
module DjikstraChoice {
  import opened Wrappers
  import opened DjikstraGraph
  import opened DjikstraSearch
  import HexGame

  // ---------------------------------------------------------------------------
  // weigh

  /** The score `weigh` gives a path: the weights of its consecutive pairs,
      leaving out the last pair. */
  function Score(w: Weights, p: seq<Node>): int
    requires Linked(w, p)
  {
    if |p| == 0 then 0 else PathCost(w, p[..|p| - 1])
  }

  /** The score and the full cost differ by exactly the last pair's weight;
      paths of one or two nodes score 0. */
  lemma ScoreAndCost(w: Weights, p: seq<Node>)
    requires Linked(w, p)
    ensures |p| <= 2 ==> Score(w, p) == 0
    ensures |p| >= 2 ==> Score(w, p) + w[(p[|p| - 2], p[|p| - 1])] == PathCost(w, p)
  {
    if |p| == 2 {
      assert p[..1][..0] == p[..0];
    }
  }

  /** With non-negative weights the score never exceeds the cost. */
  lemma ScoreAtMostCost(w: Weights, p: seq<Node>)
    requires Linked(w, p) && NonNegative(w)
    ensures 0 <= Score(w, p) <= PathCost(w, p)
  {
    ScoreAndCost(w, p);
    if |p| > 0 {
      PathCostNonNegative(w, p[..|p| - 1]);
    }
  }

  /** `weigh(graph, elt)`: add up the weights of the pairs starting at the
      first `len(elt) - 2` positions. */
  method Weigh(g: Graph, elt: seq<Node>) returns (sum: int)
    requires Linked(g.weights, elt)
    ensures sum == Score(g.weights, elt)
  {
    var w := g.weights;
    sum := 0;
    var i := 0;
    while i < |elt| - 2
      invariant 0 <= i && (|elt| >= 2 ==> i <= |elt| - 2) && (|elt| < 2 ==> i == 0)
      invariant |elt| >= 1 ==> sum == PathCost(w, elt[..i + 1])
      invariant |elt| == 0 ==> sum == 0
    {
      assert elt[..i + 2][..i + 1] == elt[..i + 1];
      sum := sum + w[(elt[i], elt[i + 1])];
      i := i + 1;
    }
    if |elt| == 1 {
      assert elt[..1][..0] == elt[..0];
    }
  }

  // ---------------------------------------------------------------------------
  // find_best

  /** The pair `find_best` hands `djikstra` for outer index o and inner
      index n: BLUE goes from row o of column 0 to row n of the last column,
      RED from column o of row 0 to column n of the last row. */
  function Ends(size: nat, current: int, o: int, n: int): (Node, Node) {
    if current == HexGame.BLUE then (Key(o, 0), Key(n, size - 1))
    else (Key(0, o), Key(size - 1, n))
  }

  /** The pairs of the inner loop for outer index o, inner indices below n. */
  function CandidateRow(size: nat, current: int, o: nat, n: nat): seq<(Node, Node)>
    decreases n
  {
    if n == 0 then [] else CandidateRow(size, current, o, n - 1) + [Ends(size, current, o, n - 1)]
  }

  /** The pairs for outer indices below m. */
  function CandidateRows(size: nat, current: int, m: nat): seq<(Node, Node)>
    decreases m
  {
    if m == 0 then [] else CandidateRows(size, current, m - 1) + CandidateRow(size, current, m - 1, size)
  }

  /** Every pair `find_best` consults, in the order of its loops. */
  function Candidates(size: nat, current: int): seq<(Node, Node)> {
    CandidateRows(size, current, size)
  }

  /** The pairs joining a cell of the acting player's first side to a cell of
      their last side. */
  predicate SidePair(size: nat, current: int, c: (Node, Node)) {
    exists o, n :: 0 <= o < size && 0 <= n < size && c == Ends(size, current, o, n)
  }

  lemma {:induction false} CandidateRowPairs(size: nat, current: int, o: nat, n: nat, c: (Node, Node))
    ensures c in CandidateRow(size, current, o, n) <==>
      exists m :: 0 <= m < n && c == Ends(size, current, o, m)
    decreases n
  {
    if n > 0 {
      CandidateRowPairs(size, current, o, n - 1, c);
    }
  }

  lemma {:induction false} CandidateRowsPairs(size: nat, current: int, m: nat, c: (Node, Node))
    ensures c in CandidateRows(size, current, m) <==>
      exists o, n :: 0 <= o < m && 0 <= n < size && c == Ends(size, current, o, n)
    decreases m
  {
    if m > 0 {
      var before, row := CandidateRows(size, current, m - 1), CandidateRow(size, current, m - 1, size);
      assert CandidateRows(size, current, m) == before + row;
      CandidateRowsPairs(size, current, m - 1, c);
      CandidateRowPairs(size, current, m - 1, size, c);
      if c in before + row {
        if c !in before {
          var n :| 0 <= n < size && c == Ends(size, current, m - 1, n);
          assert 0 <= m - 1 < m && c == Ends(size, current, m - 1, n);
        }
      }
      if exists o, n :: 0 <= o < m && 0 <= n < size && c == Ends(size, current, o, n) {
        var o, n :| 0 <= o < m && 0 <= n < size && c == Ends(size, current, o, n);
        if o < m - 1 {
          assert c in before;
        } else {
          assert c in row;
        }
      }
    }
  }

  /** The candidates are exactly the pairs from a cell of the first side to a
      cell of the last side, size * size of them. */
  lemma CandidatesAreSidePairs(size: nat, current: int)
    ensures forall c :: c in Candidates(size, current) <==> SidePair(size, current, c)
    ensures |Candidates(size, current)| == size * size
  {
    forall c
      ensures c in Candidates(size, current) <==> SidePair(size, current, c)
    {
      CandidateRowsPairs(size, current, size, c);
    }
    CandidateCount(size, current, size);
  }

  lemma {:induction false} CandidateCount(size: nat, current: int, m: nat)
    ensures |CandidateRows(size, current, m)| == m * size
    decreases m
  {
    if m > 0 {
      CandidateCount(size, current, m - 1);
      RowCount(size, current, m - 1, size);
      assert m * size == (m - 1) * size + size;
    }
  }

  lemma {:induction false} RowCount(size: nat, current: int, o: nat, n: nat)
    ensures |CandidateRow(size, current, o, n)| == n
    decreases n
  {
    if n > 0 {
      RowCount(size, current, o, n - 1);
    }
  }

  /** `p` is a cheapest walk from s to t. */
  ghost predicate Shortest(w: Weights, p: seq<Node>, s: Node, t: Node) {
    IsWalk(w, p, s, t) && forall q :: IsWalk(w, q, s, t) ==> PathCost(w, p) <= PathCost(w, q)
  }

  /** What `djikstra` answers for the pair c: no route exactly when there is
      none, otherwise a cheapest walk. */
  ghost predicate Answers(w: Weights, c: (Node, Node), res: Option<seq<Node>>) {
    (res.None? <==> !Reachable(w, c.0, c.1)) &&
    (res.Some? ==> Shortest(w, res.value, c.0, c.1))
  }

  /** How `find_best` fails: with no candidate at all, `lst[0]` does not
      exist; with an unreachable pair, `weigh` is handed the text "Route Not
      Possible" and looks up weights of pairs of its characters, which do not
      exist. */
  datatype FindError = NoCandidates | RouteNotPossible

  /** All weights of a graph built by `make_graph` are between 0 and 3. */
  lemma SoundNonNegative(size: nat, grid: seq<seq<int>>, current: int, w: Weights)
    requires HexGame.IsSquare(size, grid) && Sound(size, grid, current, w)
    ensures NonNegative(w)
  {
    forall e | e in w
      ensures w[e] >= 0
    {
      WeightRange(size, grid, current, w, e.0, e.1);
    }
  }

  /** Every node of a walk from a board cell is the key of a board cell. */
  lemma {:induction false} WalkCells(size: nat, grid: seq<seq<int>>, current: int, w: Weights,
                                     p: seq<Node>, i: int, j: int, t: Node)
    requires HexGame.IsSquare(size, grid) && Sound(size, grid, current, w)
    requires InBounds(size, i, j) && IsWalk(w, p, Key(i, j), t)
    ensures forall k :: 0 <= k < |p| ==>
      DecodeKey(p[k]).Some? && InBounds(size, DecodeKey(p[k]).value.0, DecodeKey(p[k]).value.1)
  {
    KeyRoundTrip(i, j);
    forall k | 0 <= k < |p|
      ensures DecodeKey(p[k]).Some? && InBounds(size, DecodeKey(p[k]).value.0, DecodeKey(p[k]).value.1)
    {
      if k > 0 {
        assert (p[k - 1], p[k]) in w;
        assert RuleEdge(size, grid, current, p[k - 1], p[k], w[(p[k - 1], p[k])]);
      }
    }
  }

  /** Each answer in `lst` is `djikstra`'s answer for the pair at the same
      position of `pairs`. */
  ghost predicate Answered(w: Weights, pairs: seq<(Node, Node)>, lst: seq<Option<seq<Node>>>) {
    |pairs| == |lst| && forall k :: 0 <= k < |lst| ==> Answers(w, pairs[k], lst[k])
  }

  lemma AnsweredAppend(w: Weights, pairs: seq<(Node, Node)>, lst: seq<Option<seq<Node>>>,
                       c: (Node, Node), res: Option<seq<Node>>)
    requires Answered(w, pairs, lst) && Answers(w, c, res)
    ensures Answered(w, pairs + [c], lst + [res])
  {
    forall k | 0 <= k < |lst| + 1
      ensures Answers(w, (pairs + [c])[k], (lst + [res])[k])
    {
      if k < |lst| {
        assert (pairs + [c])[k] == pairs[k] && (lst + [res])[k] == lst[k];
      }
    }
  }

  /** The nested loops of `find_best`: one `djikstra` answer per candidate
      pair, in order. */
  method AskAll(size: nat, g: Graph, current: int) returns (lst: seq<Option<seq<Node>>>)
    requires Listed(g.edges, g.weights) && NonNegative(g.weights)
    ensures Answered(g.weights, Candidates(size, current), lst)
  {
    lst := [];
    var o := 0;
    while o < size
      invariant 0 <= o <= size
      invariant Answered(g.weights, CandidateRows(size, current, o), lst)
    {
      ghost var done := CandidateRows(size, current, o);
      var n := 0;
      while n < size
        invariant 0 <= n <= size
        invariant Answered(g.weights, done + CandidateRow(size, current, o, n), lst)
      {
        var s, t;
        if current == HexGame.BLUE {
          s, t := Key(o, 0), Key(n, size - 1);
        } else {
          s, t := Key(0, o), Key(size - 1, n);
        }
        var res := Djikstra(g, s, t);
        assert Answers(g.weights, Ends(size, current, o, n), res);
        AnsweredAppend(g.weights, done + CandidateRow(size, current, o, n), lst, Ends(size, current, o, n), res);
        assert done + CandidateRow(size, current, o, n + 1) ==
          (done + CandidateRow(size, current, o, n)) + [Ends(size, current, o, n)];
        lst := lst + [res];
        n := n + 1;
      }
      o := o + 1;
    }
  }

  /** Every answer is a path. */
  predicate AllFound(lst: seq<Option<seq<Node>>>) {
    forall k :: 0 <= k < |lst| ==> lst[k].Some?
  }

  /** Among the found paths, the one at `best` has the lowest score and every
      earlier one scores strictly more. */
  ghost predicate FirstCheapest(w: Weights, paths: seq<seq<Node>>, best: nat)
    requires forall k :: 0 <= k < |paths| ==> Linked(w, paths[k])
  {
    best < |paths| &&
    (forall k :: 0 <= k < |paths| ==> Score(w, paths[best]) <= Score(w, paths[k])) &&
    (forall k :: 0 <= k < best ==> Score(w, paths[best]) < Score(w, paths[k]))
  }

  function Values(lst: seq<Option<seq<Node>>>): (paths: seq<seq<Node>>)
    requires AllFound(lst)
    ensures |paths| == |lst| && forall k :: 0 <= k < |lst| ==> lst[k] == Some(paths[k])
  {
    seq(|lst|, k requires 0 <= k < |lst| => lst[k].value)
  }

  /** The scoring loop of `find_best`: start from the first path's score and
      switch to a later path only when it scores strictly less. An answer
      that is not a path ends it (the crash in `weigh`). */
  method PickCheapest(g: Graph, lst: seq<Option<seq<Node>>>) returns (best: Option<nat>)
    requires |lst| > 0
    requires forall k :: 0 <= k < |lst| && lst[k].Some? ==> Linked(g.weights, lst[k].value)
    ensures best.None? <==> !AllFound(lst)
    ensures best.Some? ==> AllFound(lst) && FirstCheapest(g.weights, Values(lst), best.value)
  {
    var w := g.weights;
    if lst[0].None? {
      return None;
    }
    var sum := Weigh(g, lst[0].value);
    var path := lst[0].value;
    var b := 0;
    for k := 0 to |lst|
      invariant forall m :: 0 <= m < k ==> lst[m].Some?
      invariant b < |lst| && lst[b] == Some(path)
      invariant Linked(w, path) && sum == Score(w, path)
      invariant b == 0 || b < k
      invariant forall m :: 0 <= m < k ==> sum <= Score(w, lst[m].value)
      invariant forall m :: 0 <= m < b ==> sum < Score(w, lst[m].value)
    {
      if lst[k].None? {
        return None;
      }
      var s := Weigh(g, lst[k].value);
      if s < sum {
        path := lst[k].value;
        sum := s;
        b := k;
      }
    }
    best := Some(b);
  }

  /** A path between a candidate pair visits only board cells. */
  lemma CandidatePathCells(size: nat, grid: seq<seq<int>>, current: int, w: Weights,
                           c: (Node, Node), path: seq<Node>)
    requires HexGame.IsSquare(size, grid) && Sound(size, grid, current, w)
    requires c in Candidates(size, current) && IsWalk(w, path, c.0, c.1)
    ensures forall k :: 0 <= k < |path| ==>
      DecodeKey(path[k]).Some? && InBounds(size, DecodeKey(path[k]).value.0, DecodeKey(path[k]).value.1)
  {
    CandidatesAreSidePairs(size, current);
    var o, n :| 0 <= o < size && 0 <= n < size && c == Ends(size, current, o, n);
    if current == HexGame.BLUE {
      WalkCells(size, grid, current, w, path, o, 0, c.1);
    } else {
      WalkCells(size, grid, current, w, path, 0, o, c.1);
    }
  }

  /** With every answer a path, every candidate pair is joined. */
  lemma AllReachable(w: Weights, pairs: seq<(Node, Node)>, lst: seq<Option<seq<Node>>>)
    requires Answered(w, pairs, lst) && AllFound(lst)
    ensures forall c :: c in pairs ==> Reachable(w, c.0, c.1)
  {
    forall c | c in pairs
      ensures Reachable(w, c.0, c.1)
    {
      var k :| 0 <= k < |pairs| && pairs[k] == c;
      assert Answers(w, pairs[k], lst[k]);
    }
  }

  /** With an answer that is not a path, some candidate pair is not joined. */
  lemma SomeUnreachable(w: Weights, pairs: seq<(Node, Node)>, lst: seq<Option<seq<Node>>>)
    requires Answered(w, pairs, lst) && !AllFound(lst)
    ensures exists c :: c in pairs && !Reachable(w, c.0, c.1)
  {
    var k :| 0 <= k < |lst| && lst[k].None?;
    assert Answers(w, pairs[k], lst[k]);
    assert pairs[k] in pairs;
  }

  /** The found paths are the cheapest walks for their pairs. */
  lemma FoundShortest(w: Weights, pairs: seq<(Node, Node)>, lst: seq<Option<seq<Node>>>)
    requires Answered(w, pairs, lst) && AllFound(lst)
    ensures forall k :: 0 <= k < |lst| ==> Shortest(w, Values(lst)[k], pairs[k].0, pairs[k].1)
  {
    forall k | 0 <= k < |lst|
      ensures Shortest(w, Values(lst)[k], pairs[k].0, pairs[k].1)
    {
      assert Answers(w, pairs[k], lst[k]);
    }
  }

  /** `find_best(size, graph, current)`: fails when there are no candidate
      pairs or one of them has no route; otherwise answers a cell (decoded
      from its key) of the first cheapest-scoring path, which lies on the
      board. */
  method FindBest(size: nat, g: Graph, current: int, ghost grid: seq<seq<int>>)
    returns (r: Result<(int, int), FindError>, ghost paths: seq<seq<Node>>, ghost best: nat, ghost chosen: Node)
    requires HexGame.IsSquare(size, grid) && g.Valid() && Sound(size, grid, current, g.weights)
    ensures r.Failure? <==>
      size == 0 || exists c :: c in Candidates(size, current) && !Reachable(g.weights, c.0, c.1)
    ensures r.Failure? ==> r.error == if size == 0 then NoCandidates else RouteNotPossible
    ensures r.Success? ==> 0 <= r.value.0 < size && 0 <= r.value.1 < size
    ensures r.Success? ==>
      |paths| == |Candidates(size, current)| &&
      (forall k :: 0 <= k < |paths| ==>
        Shortest(g.weights, paths[k], Candidates(size, current)[k].0, Candidates(size, current)[k].1)) &&
      FirstCheapest(g.weights, paths, best)
    ensures r.Success? ==> chosen in paths[best] && DecodeKey(chosen) == Some(r.value)
  {
    SoundNonNegative(size, grid, current, g.weights);
    ghost var cands := Candidates(size, current);
    var lst := AskAll(size, g, current);
    CandidateCount(size, current, size);
    if |lst| == 0 {
      return Failure(NoCandidates), [], 0, "";
    }
    var picked := PickCheapest(g, lst);
    if picked.None? {
      SomeUnreachable(g.weights, cands, lst);
      return Failure(RouteNotPossible), [], 0, "";
    }
    var b := picked.value;
    best := b;
    paths := Values(lst);
    FoundShortest(g.weights, cands, lst);
    AllReachable(g.weights, cands, lst);
    var path := lst[b].value;
    assert cands[b] in cands;
    CandidatePathCells(size, grid, current, g.weights, cands[b], path);
    var idx :| 0 <= idx < |path|;
    chosen := path[idx];
    r := Success(DecodeKey(path[idx]).value);
  }
}
