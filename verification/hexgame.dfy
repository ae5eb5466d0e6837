/** The Hex board engine: an N×N grid of cells, the static adjacency graph
    used for win detection (cells plus four virtual border nodes), the move
    operation, the depth-first connection search and the `winner/row#row`
    text form of a board. */
module HexGame {
  import opened Wrappers
  import opened PyText

  const EMPTY := 0
  const BLUE := 1
  const RED := 2

  /** The other player, as `play` computes it: RED becomes BLUE, anything else RED. */
  function Other(player: int): int {
    if player == RED then BLUE else RED
  }

  // ---------------------------------------------------------------------------
  // Cell numbering

  /** `_2d_2_1d`: row-major number of cell (i, j). */
  function Index(n: nat, i: nat, j: nat): nat {
    i * n + j
  }

  /** `_1d_2_2d`, first component. */
  function Row(n: nat, v: nat): nat
    requires n > 0
  {
    v / n
  }

  /** `_1d_2_2d`, second component. */
  function Col(n: nat, v: nat): nat
    requires n > 0
  {
    v % n
  }

  predicate IsCell(n: nat, v: nat) {
    0 < n && v < n * n
  }

  /** Numbering a cell and reading its coordinates back is the identity. */
  lemma CoordsOfIndex(n: nat, i: nat, j: nat)
    requires i < n && j < n
    ensures IsCell(n, Index(n, i, j))
    ensures Row(n, Index(n, i, j)) == i && Col(n, Index(n, i, j)) == j
  {
    assert i * n <= (n - 1) * n by { MulMono(i, n - 1, n); }
    DivModOf(n, Index(n, i, j), i, j);
  }

  /** Every node number below N² is a cell whose coordinates number it back. */
  lemma IndexOfCoords(n: nat, v: nat)
    requires IsCell(n, v)
    ensures Row(n, v) < n && Col(n, v) < n
    ensures Index(n, Row(n, v), Col(n, v)) == v
  {
    var q, r := v / n, v % n;
    assert v == q * n + r;
    if q >= n {
      MulMono(n, q, n);
      assert false;
    }
  }

  lemma MulMono(a: nat, b: nat, n: nat)
    requires a <= b
    ensures a * n <= b * n
  {
  }

  lemma DivModOf(n: nat, v: nat, q: nat, r: nat)
    requires 0 < n && r < n && v == q * n + r
    ensures v / n == q && v % n == r
  {
    var q', r' := v / n, v % n;
    assert q' * n + r' == q * n + r;
    if q' < q {
      MulMono(q' + 1, q, n);
      assert false;
    } else if q < q' {
      MulMono(q + 1, q', n);
      assert false;
    }
  }

  // ---------------------------------------------------------------------------
  // The win-detection graph

  /** The virtual border nodes, numbered after the N² cells. */
  function Left(n: nat): nat { n * n }
  function Right(n: nat): nat { n * n + 1 }
  function Top(n: nat): nat { n * n + 2 }
  function Bottom(n: nat): nat { n * n + 3 }

  function NodeCount(n: nat): nat { n * n + 4 }

  predicate IsBorder(n: nat, v: nat) {
    n * n <= v < n * n + 4
  }

  /** The three neighbours that `_create_graph` links from cell c while
      scanning it: the cell below, the cell below-left and the cell to the right. */
  predicate Forward(n: nat, c: nat, d: nat) {
    IsCell(n, c) && IsCell(n, d) &&
    var i, j, i2, j2 := Row(n, c), Col(n, c), Row(n, d), Col(n, d);
    (i2 == i + 1 && j2 == j) || (i2 == i + 1 && j2 + 1 == j) || (i2 == i && j2 == j + 1)
  }

  /** Hex adjacency between two cells: the six directions (±1, 0), (0, ±1),
      (1, -1) and (-1, 1). */
  predicate HexAdjacent(n: nat, u: nat, v: nat) {
    IsCell(n, u) && IsCell(n, v) &&
    var di, dj := Row(n, v) - Row(n, u), Col(n, v) - Col(n, u);
    (di == 1 && dj == 0) || (di == -1 && dj == 0) || (di == 0 && dj == 1) ||
    (di == 0 && dj == -1) || (di == 1 && dj == -1) || (di == -1 && dj == 1)
  }

  /** The arcs of the win-detection graph. Cell–cell arcs go both ways;
      the border arcs go one way only: Left to column 0, column N-1 to Right,
      Top to row 0, row N-1 to Bottom. */
  predicate Edge(n: nat, u: nat, v: nat) {
    HexAdjacent(n, u, v)
    || (u == Left(n) && IsCell(n, v) && Col(n, v) == 0)
    || (IsCell(n, u) && Col(n, u) == n - 1 && v == Right(n))
    || (u == Top(n) && IsCell(n, v) && Row(n, v) == 0)
    || (IsCell(n, u) && Row(n, u) == n - 1 && v == Bottom(n))
  }

  /** `edges` is the adjacency list of the win-detection graph of an N×N board. */
  ghost predicate IsGraph(n: nat, edges: seq<seq<nat>>) {
    |edges| == NodeCount(n) &&
    forall u, v :: 0 <= u < NodeCount(n) ==> (v in edges[u] <==> Edge(n, u, v))
  }

  /** Hex adjacency is the symmetric closure of the three scanned directions. */
  lemma {:induction false} HexAdjacentIsForward(n: nat, u: nat, v: nat)
    ensures HexAdjacent(n, u, v) <==> Forward(n, u, v) || Forward(n, v, u)
  {
  }

  /** Cell–cell adjacency is symmetric. */
  lemma HexAdjacentSymmetric(n: nat, u: nat, v: nat)
    ensures HexAdjacent(n, u, v) <==> HexAdjacent(n, v, u)
  {
  }

  /** Every cell has at most six cell neighbours: they lie among the six
      numbers N and 1 away from it. */
  lemma {:induction false} AtMostSixNeighbours(n: nat, u: nat)
    requires IsCell(n, u)
    ensures forall v :: HexAdjacent(n, u, v) ==> v in {u + n, u - n, u + 1, u - 1, u + n - 1, u - n + 1}
    ensures |set v | 0 <= v < n * n && HexAdjacent(n, u, v)| <= 6
  {
    forall v | HexAdjacent(n, u, v)
      ensures v in {u + n, u - n, u + 1, u - 1, u + n - 1, u - n + 1}
    {
      NeighbourOffset(n, u, v);
    }
    var nb := set v | 0 <= v < n * n && HexAdjacent(n, u, v);
    var six: set<int> := {u + n, u - n, u + 1, u - 1, u + n - 1, u - n + 1};
    assert nb <= six;
    assert |six| <= 6;
    SubsetCard(nb, six);
  }

  /** A neighbour of cell u is one of six offsets from it. */
  lemma NeighbourOffset(n: nat, u: nat, v: nat)
    requires HexAdjacent(n, u, v)
    ensures v in {u + n, u - n, u + 1, u - 1, u + n - 1, u - n + 1}
  {
    IndexOfCoords(n, u);
    IndexOfCoords(n, v);
    var i, j := Row(n, u), Col(n, u);
    var i2, j2 := Row(n, v), Col(n, v);
    assert v == i2 * n + j2 && u == i * n + j;
    if i2 == i + 1 {
      MulSucc(i, n);
    } else if i2 + 1 == i {
      MulSucc(i2, n);
    }
  }

  lemma MulSucc(i: nat, n: nat)
    ensures (i + 1) * n == i * n + n
  {
  }


  lemma SubsetCard<T>(a: set<T>, b: set<T>)
    requires a <= b
    ensures |a| <= |b|
  {
    if a != {} {
      var x :| x in a;
      SubsetCard(a - {x}, b - {x});
    }
  }

  /** No arc enters Left or Top and none leaves Right or Bottom. */
  lemma BorderArcsOneWay(n: nat, v: nat)
    ensures !Edge(n, v, Left(n)) && !Edge(n, v, Top(n))
    ensures !Edge(n, Right(n), v) && !Edge(n, Bottom(n), v)
  {
  }

  /** Every number below N² names an in-range cell. */
  lemma AllCells(n: nat)
    ensures forall v :: IsCell(n, v) ==> Row(n, v) < n && Col(n, v) < n && Index(n, Row(n, v), Col(n, v)) == v
  {
    forall v | IsCell(n, v)
      ensures Row(n, v) < n && Col(n, v) < n && Index(n, Row(n, v), Col(n, v)) == v
    {
      IndexOfCoords(n, v);
    }
  }

  /** Arcs only join nodes of the graph. */
  lemma EdgeInGraph(n: nat, u: nat, v: nat)
    requires Edge(n, u, v)
    ensures u < NodeCount(n) && v < NodeCount(n)
  {
  }

  /** Every node listed after u is a node of the graph joined to u. */
  lemma Successor(n: nat, edges: seq<seq<nat>>, u: nat, idx: nat)
    requires IsGraph(n, edges) && u < NodeCount(n) && idx < |edges[u]|
    ensures edges[u][idx] < NodeCount(n)
    ensures Edge(n, u, edges[u][idx])
  {
    assert edges[u][idx] in edges[u];
    EdgeInGraph(n, u, edges[u][idx]);
  }

  /** The arcs from cell (i, j) that `_create_graph` adds while scanning it. */
  lemma {:induction false} ForwardFrom(n: nat, i: nat, j: nat)
    requires i < n && j < n
    ensures forall d :: Forward(n, Index(n, i, j), d) <==>
      (i < n - 1 && d == Index(n, i + 1, j)) ||
      (i < n - 1 && j > 0 && d == Index(n, i + 1, j - 1)) ||
      (j < n - 1 && d == Index(n, i, j + 1))
  {
    CoordsOfIndex(n, i, j);
    AllCells(n);
    if i < n - 1 {
      CoordsOfIndex(n, i + 1, j);
      if j > 0 {
        CoordsOfIndex(n, i + 1, j - 1);
      }
    }
    if j < n - 1 {
      CoordsOfIndex(n, i, j + 1);
    }
  }

  /** The arcs present once the first k cells (in row-major order) are scanned. */
  ghost predicate Scanned(n: nat, k: nat, u: nat, v: nat) {
    (u < k && Forward(n, u, v)) || (v < k && Forward(n, v, u))
  }

  /** The border arcs of Left and Right present once rows 0..k-1 are scanned. */
  ghost predicate SideArc(n: nat, k: nat, u: nat, v: nat) {
    (u == Left(n) && IsCell(n, v) && Col(n, v) == 0 && Row(n, v) < k) ||
    (IsCell(n, u) && Col(n, u) == n - 1 && Row(n, u) < k && v == Right(n))
  }

  /** The border arcs of Top and Bottom present once columns 0..k-1 are scanned. */
  ghost predicate EndArc(n: nat, k: nat, u: nat, v: nat) {
    (u == Top(n) && IsCell(n, v) && Row(n, v) == 0 && Col(n, v) < k) ||
    (IsCell(n, u) && Row(n, u) == n - 1 && Col(n, u) < k && v == Bottom(n))
  }

  /** `edges[u].append(v)`. */
  function Append(edges: seq<seq<nat>>, u: nat, v: nat): (e: seq<seq<nat>>)
    requires u < |edges|
    ensures |e| == |edges|
    ensures forall a, b :: 0 <= a < |e| ==> (b in e[a] <==> b in edges[a] || (a == u && b == v))
  {
    edges[u := edges[u] + [v]]
  }

  /** `edges[a].append(b)` followed by `edges[b].append(a)`. */
  function Link(edges: seq<seq<nat>>, a: nat, b: nat): (e: seq<seq<nat>>)
    requires a < |edges| && b < |edges|
    ensures |e| == |edges|
    ensures forall x, y :: 0 <= x < |e| ==>
      (y in e[x] <==> y in edges[x] || (x == a && y == b) || (x == b && y == a))
  {
    Append(Append(edges, a, b), b, a)
  }

  function EmptyGrid(n: nat): (g: seq<seq<int>>)
    ensures IsSquare(n, g)
  {
    seq(n, _ => seq(n, _ => EMPTY))
  }

  predicate IsSquare(n: nat, grid: seq<seq<int>>) {
    |grid| == n && forall r :: 0 <= r < n ==> |grid[r]| == n
  }

  // ---------------------------------------------------------------------------
  // Win condition

  /** A node the connection search may step onto: any border node, or a
      cell that the player owns. */
  ghost predicate Passable(n: nat, grid: seq<seq<int>>, player: int, v: nat)
    requires IsSquare(n, grid)
  {
    IsBorder(n, v) ||
    (IsCell(n, v) && (IndexOfCoords(n, v); grid[Row(n, v)][Col(n, v)] == player))
  }

  /** v is a cell holding the player's piece. */
  ghost predicate Owns(n: nat, grid: seq<seq<int>>, player: int, v: nat)
    requires IsSquare(n, grid)
  {
    IsCell(n, v) && (IndexOfCoords(n, v); grid[Row(n, v)][Col(n, v)] == player)
  }

  /** p is a walk along arcs from s to t whose every node after s is passable. */
  ghost predicate IsRoute(n: nat, grid: seq<seq<int>>, player: int, p: seq<nat>, s: nat, t: nat)
    requires IsSquare(n, grid)
  {
    |p| >= 1 && p[0] == s && p[|p| - 1] == t &&
    (forall k :: 0 <= k < |p| - 1 ==> Edge(n, p[k], p[k + 1])) &&
    (forall k :: 1 <= k < |p| ==> Passable(n, grid, player, p[k]))
  }

  ghost predicate Connected(n: nat, grid: seq<seq<int>>, player: int, s: nat, t: nat)
    requires IsSquare(n, grid)
  {
    exists p :: IsRoute(n, grid, player, p, s, t)
  }

  /** `_check_winner` for the player who just moved: BLUE must join Left to
      Right, any other player Top to Bottom, through their own cells. */
  ghost predicate Wins(n: nat, grid: seq<seq<int>>, player: int)
    requires IsSquare(n, grid)
  {
    if player == BLUE then Connected(n, grid, BLUE, Left(n), Right(n))
    else Connected(n, grid, RED, Top(n), Bottom(n))
  }

  /** Every passable successor of a node of M is in M. */
  ghost predicate ClosedUnder(n: nat, grid: seq<seq<int>>, player: int, m: set<nat>)
    requires IsSquare(n, grid)
  {
    forall u, v :: u in m && Edge(n, u, v) && Passable(n, grid, player, v) ==> v in m
  }

  /** Every passable successor of a node added to m0 to make m is in m. */
  ghost predicate ClosedBeyond(n: nat, grid: seq<seq<int>>, player: int, m0: set<nat>, m: set<nat>)
    requires IsSquare(n, grid)
  {
    forall u, v :: u in m && u !in m0 && Edge(n, u, v) && Passable(n, grid, player, v) ==> v in m
  }

  /** A route from a successor of s, preceded by s, is a route from s. */
  lemma RouteCons(n: nat, grid: seq<seq<int>>, player: int, s: nat, p: seq<nat>, t: nat)
    requires IsSquare(n, grid) && |p| >= 1 && IsRoute(n, grid, player, p, p[0], t)
    requires Edge(n, s, p[0]) && Passable(n, grid, player, p[0])
    ensures IsRoute(n, grid, player, [s] + p, s, t)
  {
    var q := [s] + p;
    forall k | 0 <= k < |q| - 1
      ensures Edge(n, q[k], q[k + 1])
    {
      if k > 0 {
        assert q[k] == p[k - 1] && q[k + 1] == p[k];
      }
    }
    forall k | 1 <= k < |q|
      ensures Passable(n, grid, player, q[k])
    {
      assert q[k] == p[k - 1];
    }
  }

  /** What the search from u keeps while it scans u's successors: the set
      m holds m0 and u, stays within the graph and misses the target t, every
      node it added beyond m0 and u has its passable successors in it, and so
      do the first `idx` successors of u that are passable. */
  ghost predicate Searched(n: nat, grid: seq<seq<int>>, player: int, m0: set<nat>, u: nat, t: nat,
                           succ: seq<nat>, idx: int, m: set<nat>)
    requires IsSquare(n, grid)
  {
    0 <= idx <= |succ| && m0 + {u} <= m <= Range(NodeCount(n)) && t !in m &&
    ClosedBeyond(n, grid, player, m0 + {u}, m) &&
    forall k :: 0 <= k < idx && Passable(n, grid, player, succ[k]) ==> succ[k] in m
  }

  /** Handling one more successor: it was already in the set, it is not
      passable, or a search from it grew the set to m2, closed beyond m1. */
  lemma SearchedNext(n: nat, grid: seq<seq<int>>, player: int, m0: set<nat>, u: nat, t: nat,
                     succ: seq<nat>, idx: int, m1: set<nat>, m2: set<nat>)
    requires IsSquare(n, grid) && Searched(n, grid, player, m0, u, t, succ, idx, m1) && idx < |succ|
    requires m1 <= m2 <= Range(NodeCount(n)) && t !in m2 && ClosedBeyond(n, grid, player, m1, m2)
    requires succ[idx] in m2 || !Passable(n, grid, player, succ[idx])
    ensures Searched(n, grid, player, m0, u, t, succ, idx + 1, m2)
  {
  }

  /** Once every passable successor of u is in m, closure beyond m0 + {u}
      is closure beyond m0. */
  lemma ClosedAround(n: nat, grid: seq<seq<int>>, player: int, edges: seq<seq<nat>>,
                     m0: set<nat>, u: nat, t: nat, m: set<nat>)
    requires IsSquare(n, grid) && IsGraph(n, edges) && u < NodeCount(n)
    requires Searched(n, grid, player, m0, u, t, edges[u], |edges[u]|, m)
    ensures m0 <= m <= Range(NodeCount(n)) && u in m && t !in m
    ensures ClosedBeyond(n, grid, player, m0, m)
  {
    forall v | Edge(n, u, v) && Passable(n, grid, player, v)
      ensures v in m
    {
      assert v in edges[u];
    }
  }

  /** A set holding s, closed under passable arcs and missing t, shows that no
      route leads from s to t. */
  lemma {:induction false} NoRouteOut(n: nat, grid: seq<seq<int>>, player: int, m: set<nat>, s: nat, t: nat)
    requires IsSquare(n, grid) && ClosedUnder(n, grid, player, m)
    requires s in m && t !in m
    ensures !Connected(n, grid, player, s, t)
  {
    forall p | IsRoute(n, grid, player, p, s, t)
      ensures false
    {
      var k := 0;
      while k < |p| - 1
        invariant 0 <= k < |p| && p[k] in m
      {
        assert Edge(n, p[k], p[k + 1]) && Passable(n, grid, player, p[k + 1]);
        k := k + 1;
      }
    }
  }

  /** The node numbers 0 .. k-1 as a set. */
  function Range(k: nat): (s: set<nat>)
    ensures forall v: nat :: v in s <==> v < k
    ensures |s| == k
  {
    if k == 0 then {}
    else
      var r := Range(k - 1);
      assert k - 1 !in r;
      r + {k - 1}
  }

  /** A chain of the player's cells, each hex-adjacent to the next. */
  ghost predicate IsChain(n: nat, grid: seq<seq<int>>, player: int, c: seq<nat>)
    requires IsSquare(n, grid)
  {
    |c| >= 1 &&
    (forall k :: 0 <= k < |c| ==> Owns(n, grid, player, c[k])) &&
    (forall k :: 0 <= k < |c| - 1 ==> HexAdjacent(n, c[k], c[k + 1]))
  }

  /** The side a player starts from: column 0 for BLUE, row 0 for RED. */
  predicate OnFirstSide(n: nat, player: int, v: nat)
    requires IsCell(n, v)
  {
    if player == BLUE then Col(n, v) == 0 else Row(n, v) == 0
  }

  /** The side a player must reach: column N-1 for BLUE, row N-1 for RED. */
  predicate OnLastSide(n: nat, player: int, v: nat)
    requires IsCell(n, v)
  {
    if player == BLUE then Col(n, v) == n - 1 else Row(n, v) == n - 1
  }

  /** A node with an arc in and an arc out is a cell: Left and Top have no
      arcs in, Right and Bottom none out. */
  lemma ThroughIsCell(n: nat, u: nat, v: nat, w: nat)
    requires Edge(n, u, v) && Edge(n, v, w)
    ensures IsCell(n, v)
  {
  }

  /** The border node a player starts from, and the one they must reach. */
  function Source(n: nat, player: int): nat {
    if player == BLUE then Left(n) else Top(n)
  }

  function Target(n: nat, player: int): nat {
    if player == BLUE then Right(n) else Bottom(n)
  }

  /** The inner nodes of a winning route form a chain across the board. */
  lemma RouteGivesChain(n: nat, grid: seq<seq<int>>, player: int, p: seq<nat>)
    requires IsSquare(n, grid) && (player == BLUE || player == RED)
    requires IsRoute(n, grid, player, p, Source(n, player), Target(n, player))
    ensures |p| >= 3
    ensures IsChain(n, grid, player, p[1..|p| - 1])
    ensures OnFirstSide(n, player, p[1]) && OnLastSide(n, player, p[|p| - 2])
  {
    var c := p[1..|p| - 1];
    forall k | 0 <= k < |c|
      ensures Owns(n, grid, player, c[k])
    {
      ThroughIsCell(n, p[k], p[k + 1], p[k + 2]);
      assert Passable(n, grid, player, p[k + 1]);
    }
    forall k | 0 <= k < |c| - 1
      ensures HexAdjacent(n, c[k], c[k + 1])
    {
      assert Edge(n, p[k + 1], p[k + 2]);
    }
    assert Edge(n, p[0], p[1]) && Edge(n, p[|p| - 2], p[|p| - 1]);
  }

  /** A chain across the board, between the two border nodes, is a winning route. */
  lemma ChainGivesRoute(n: nat, grid: seq<seq<int>>, player: int, c: seq<nat>)
    requires IsSquare(n, grid) && (player == BLUE || player == RED)
    requires IsChain(n, grid, player, c)
    requires OnFirstSide(n, player, c[0]) && OnLastSide(n, player, c[|c| - 1])
    ensures IsRoute(n, grid, player, [Source(n, player)] + c + [Target(n, player)],
      Source(n, player), Target(n, player))
  {
    var p := [Source(n, player)] + c + [Target(n, player)];
    forall k | 0 <= k < |p| - 1
      ensures Edge(n, p[k], p[k + 1])
    {
      if 0 < k < |p| - 2 {
        assert HexAdjacent(n, c[k - 1], c[k]);
      }
    }
    forall k | 1 <= k < |p|
      ensures Passable(n, grid, player, p[k])
    {
      if k < |p| - 1 {
        assert Owns(n, grid, player, c[k - 1]);
      }
    }
  }

  /** Joining the two sides through the border nodes is the same as a chain of
      the player's cells running from the first side to the last. */
  lemma WinsIffChain(n: nat, grid: seq<seq<int>>, player: int)
    requires IsSquare(n, grid) && (player == BLUE || player == RED)
    ensures Wins(n, grid, player) <==>
      exists c :: IsChain(n, grid, player, c) &&
        OnFirstSide(n, player, c[0]) && OnLastSide(n, player, c[|c| - 1])
  {
    if Wins(n, grid, player) {
      var p :| IsRoute(n, grid, player, p, Source(n, player), Target(n, player));
      RouteGivesChain(n, grid, player, p);
      var c := p[1..|p| - 1];
      assert c[0] == p[1] && c[|c| - 1] == p[|p| - 2];
    }
    if exists c :: IsChain(n, grid, player, c) &&
        OnFirstSide(n, player, c[0]) && OnLastSide(n, player, c[|c| - 1]) {
      var c :| IsChain(n, grid, player, c) &&
        OnFirstSide(n, player, c[0]) && OnLastSide(n, player, c[|c| - 1]);
      ChainGivesRoute(n, grid, player, c);
    }
  }

  /** On a 2×2 board, BLUE holding the whole of column 0 has not won: BLUE
      must reach column 1. */
  lemma BlueColumnIsNoWin()
    ensures !Wins(2, [[BLUE, EMPTY], [BLUE, EMPTY]], BLUE)
  {
    var grid := [[BLUE, EMPTY], [BLUE, EMPTY]];
    WinsIffChain(2, grid, BLUE);
  }

  /** On a 2×2 board, BLUE holding the whole of row 0 has won. */
  lemma BlueRowWins()
    ensures Wins(2, [[BLUE, BLUE], [EMPTY, EMPTY]], BLUE)
  {
    var grid := [[BLUE, BLUE], [EMPTY, EMPTY]];
    WinsIffChain(2, grid, BLUE);
    assert Owns(2, grid, BLUE, 0) && Owns(2, grid, BLUE, 1);
    assert IsChain(2, grid, BLUE, [0, 1]);
  }

  // ---------------------------------------------------------------------------
  // Text form of a board: `winner/row#row#...`, each row `cell-cell-...`

  /** What a board's text carries: the winner and the grid (not the player to move). */
  datatype Snapshot = Snapshot(winner: Option<int>, grid: seq<seq<int>>)

  /** Why `create_from_str` rejects a text: not exactly one '/', a cell or the
      winner that `int()` refuses, or a row count different from the length
      of the first row. */
  datatype DecodeError = NotTwoFields | NotAnInteger | BadDimension

  /** The decimal texts of the cells of a row. */
  function CellTexts(row: seq<int>): seq<string> {
    seq(|row|, k requires 0 <= k < |row| => IntToString(row[k]))
  }

  /** The texts of the rows of a grid. */
  function RowTexts(grid: seq<seq<int>>): seq<string> {
    seq(|grid|, k requires 0 <= k < |grid| => EncodeRow(grid[k]))
  }

  function EncodeRow(row: seq<int>): string {
    Join(CellTexts(row), '-')
  }

  function EncodeGrid(grid: seq<seq<int>>): string {
    Join(RowTexts(grid), '#')
  }

  /** The winner field: empty when there is no winner or the winner is 0
      (Python treats both as false). */
  function WinnerField(winner: Option<int>): (field: string)
    ensures field == "" <==> winner.None? || winner.value == 0
    ensures '/' !in field
    ensures field != "" ==> ParseInt(field) == winner
  {
    if winner.Some? && winner.value != 0 then
      IntRoundTrip(winner.value);
      IntToString(winner.value)
    else ""
  }

  /** `serialize()` on a board with this winner and grid. */
  function Encode(winner: Option<int>, grid: seq<seq<int>>): string {
    WinnerField(winner) + "/" + EncodeGrid(grid)
  }

  /** `[int(x) for x in texts]`. */
  function ParseCells(texts: seq<string>): (r: Option<seq<int>>)
    ensures r.Some? ==> |r.value| == |texts|
  {
    if |texts| == 0 then Some([])
    else
      var head, tail := ParseInt(texts[0]), ParseCells(texts[1..]);
      if head.Some? && tail.Some? then Some([head.value] + tail.value) else None
  }

  /** `[[int(x) for x in row.split('-')] for row in rows]`. */
  function ParseRows(rows: seq<string>): (r: Option<seq<seq<int>>>)
    ensures r.Some? ==> |r.value| == |rows|
    ensures r.Some? ==> forall k :: 0 <= k < |rows| ==>
      ParseCells(Split(rows[k], '-')) == Some(r.value[k])
  {
    if |rows| == 0 then Some([])
    else
      var head, tail := ParseCells(Split(rows[0], '-')), ParseRows(rows[1..]);
      if head.Some? && tail.Some? then Some([head.value] + tail.value) else None
  }

  /** The decoding done by `create_from_str`; a decoded grid always has as
      many rows as its first row has cells, and no empty row. */
  function Decode(text: string): (r: Result<Snapshot, DecodeError>)
    ensures r.Success? ==>
      |r.value.grid| >= 1 && |r.value.grid| == |r.value.grid[0]| &&
      forall k :: 0 <= k < |r.value.grid| ==> |r.value.grid[k]| >= 1
  {
    var fields := Split(text, '/');
    if |fields| != 2 then Failure(NotTwoFields)
    else
      match ParseRows(Split(fields[1], '#'))
      case None => Failure(NotAnInteger)
      case Some(grid) =>
        if |grid| != |grid[0]| then Failure(BadDimension)
        else if fields[0] == "" then Success(Snapshot(None, grid))
        else
          match ParseInt(fields[0])
          case None => Failure(NotAnInteger)
          case Some(w) => Success(Snapshot(Some(w), grid))
  }


  /** A board with no rows serializes to "/", which does not decode: its one
      row "" holds no integer. The round trip needs at least one row. */
  lemma EmptyBoardUnreadable(winner: Option<int>)
    requires winner.None? || winner == Some(0)
    ensures Encode(winner, []) == "/"
    ensures Decode("/") == Failure(NotAnInteger)
  {
    assert "/" == "" + ['/'] + "";
    SplitAt("", "", '/');
    SplitWhole("", '/');
    SplitWhole("", '#');
    SplitWhole("", '-');
    assert ParseInt("") == None;
  }

  /** Cells are never negative in a board: 0, 1 or 2, or other numbers a text supplied. */
  ghost predicate NonNegative(grid: seq<seq<int>>) {
    forall k, l :: 0 <= k < |grid| && 0 <= l < |grid[k]| ==> grid[k][l] >= 0
  }

  lemma NatText(x: int, c: char)
    requires x >= 0 && c in IntToString(x)
    ensures IsDigit(c)
  {
  }

  /** The text of a row of non-negative cells holds only digits and '-'. */
  lemma RowChars(row: seq<int>, c: char)
    requires forall l :: 0 <= l < |row| ==> row[l] >= 0
    requires c in EncodeRow(row)
    ensures IsDigit(c) || c == '-'
  {
    InJoin(CellTexts(row), '-', c);
    if c != '-' {
      var k :| 0 <= k < |row| && c in CellTexts(row)[k];
      NatText(row[k], c);
    }
  }

  /** The text of a grid of non-negative cells holds only digits, '-' and '#'. */
  lemma GridChars(grid: seq<seq<int>>, c: char)
    requires NonNegative(grid)
    requires c in EncodeGrid(grid)
    ensures IsDigit(c) || c == '-' || c == '#'
  {
    InJoin(RowTexts(grid), '#', c);
    if c != '#' {
      var k :| 0 <= k < |grid| && c in RowTexts(grid)[k];
      RowChars(grid[k], c);
    }
  }

  /** One step of `[int(x) for x in texts]`. */
  lemma ParseCellsCons(text: string, x: int, texts: seq<string>, xs: seq<int>)
    requires ParseInt(text) == Some(x) && ParseCells(texts) == Some(xs)
    ensures ParseCells([text] + texts) == Some([x] + xs)
  {
    assert ([text] + texts)[1..] == texts;
  }

  lemma CellTextsCons(row: seq<int>)
    requires |row| > 0
    ensures CellTexts(row) == [IntToString(row[0])] + CellTexts(row[1..])
  {
  }

  lemma {:induction false} ParseCellsOfTexts(row: seq<int>)
    ensures ParseCells(CellTexts(row)) == Some(row)
    decreases |row|
  {
    if |row| > 0 {
      IntRoundTrip(row[0]);
      ParseCellsOfTexts(row[1..]);
      CellTextsCons(row);
      ParseCellsCons(IntToString(row[0]), row[0], CellTexts(row[1..]), row[1..]);
      assert row == [row[0]] + row[1..];
    }
  }

  /** A row of non-negative cells, at least one, reads back from its text. */
  lemma RowRoundTrip(row: seq<int>)
    requires |row| >= 1 && forall l :: 0 <= l < |row| ==> row[l] >= 0
    ensures ParseCells(Split(EncodeRow(row), '-')) == Some(row)
  {
    forall k | 0 <= k < |row|
      ensures '-' !in CellTexts(row)[k]
    {
      if '-' in CellTexts(row)[k] {
        NatText(row[k], '-');
      }
    }
    SplitJoin(CellTexts(row), '-');
    ParseCellsOfTexts(row);
  }

  /** One step of `[[int(x) for x in row.split('-')] for row in rows]`. */
  lemma ParseRowsCons(text: string, row: seq<int>, texts: seq<string>, rows: seq<seq<int>>)
    requires ParseCells(Split(text, '-')) == Some(row) && ParseRows(texts) == Some(rows)
    ensures ParseRows([text] + texts) == Some([row] + rows)
  {
    assert ([text] + texts)[1..] == texts;
  }

  lemma RowTextsCons(grid: seq<seq<int>>)
    requires |grid| > 0
    ensures RowTexts(grid) == [EncodeRow(grid[0])] + RowTexts(grid[1..])
  {
    var rows, tail := RowTexts(grid), RowTexts(grid[1..]);
    forall k | 0 <= k < |rows|
      ensures rows[k] == ([EncodeRow(grid[0])] + tail)[k]
    {
      if k > 0 {
        assert grid[1..][k - 1] == grid[k];
      }
    }
  }

  lemma {:induction false} ParseRowsOfTexts(grid: seq<seq<int>>)
    requires NonNegative(grid)
    requires forall k :: 0 <= k < |grid| ==> |grid[k]| >= 1
    ensures ParseRows(RowTexts(grid)) == Some(grid)
    decreases |grid|
  {
    if |grid| > 0 {
      var rows := RowTexts(grid);
      RowRoundTrip(grid[0]);
      ParseRowsOfTexts(grid[1..]);
      RowTextsCons(grid);
      ParseRowsCons(EncodeRow(grid[0]), grid[0], RowTexts(grid[1..]), grid[1..]);
      assert grid == [grid[0]] + grid[1..];
    }
  }

  /** `create_from_str(serialize())` reads back the grid, and the winner
      except that a winner of 0 reads back as no winner; the grid must be
      square with at least one cell and hold no negative numbers. */
  lemma DecodeEncode(winner: Option<int>, grid: seq<seq<int>>)
    requires |grid| >= 1 && IsSquare(|grid|, grid) && NonNegative(grid)
    ensures Decode(Encode(winner, grid)) ==
      Success(Snapshot(if winner == Some(0) then None else winner, grid))
  {
    var w, g := WinnerField(winner), EncodeGrid(grid);
    forall c | c in g
      ensures c != '/'
    {
      GridChars(grid, c);
    }
    assert Join([w, g], '/') == Encode(winner, grid);
    SplitJoin([w, g], '/');
    forall k | 0 <= k < |grid|
      ensures '#' !in RowTexts(grid)[k]
    {
      if '#' in RowTexts(grid)[k] {
        RowChars(grid[k], '#');
      }
    }
    SplitJoin(RowTexts(grid), '#');
    ParseRowsOfTexts(grid);
    if winner.Some? && winner.value != 0 {
      IntRoundTrip(winner.value);
    }
  }

  /** The parser accepts a ragged grid as long as the row count matches the
      first row: "/0-0#0" reads as two rows of lengths 2 and 1. */
  lemma RaggedAccepted()
    ensures Decode("/0-0#0") == Success(Snapshot(None, [[0, 0], [0]]))
  {
    RaggedFields();
    ZeroRow();
    var none: seq<string>, empty: seq<seq<int>> := [], [];
    ParseRowsCons("0", [0], none, empty);
    assert ["0"] + none == ["0"] && [[0]] + empty == [[0]];
    ParseRowsCons("0-0", [0, 0], ["0"], [[0]]);
    assert ["0-0"] + ["0"] == ["0-0", "0"];
    var grid: seq<seq<int>> := [[0, 0], [0]];
    assert [[0, 0]] + [[0]] == grid;
    assert ParseRows(["0-0", "0"]) == Some(grid);
    var fields: seq<string> := ["", "0-0#0"];
    assert fields[1] == "0-0#0" && fields[0] == "";
  }

  /** How "/0-0#0" splits into its fields and rows. */
  lemma RaggedFields()
    ensures Split("/0-0#0", '/') == ["", "0-0#0"]
    ensures Split("0-0#0", '#') == ["0-0", "0"]
  {
    SplitAt("", "0-0#0", '/');
    assert "" + ['/'] + "0-0#0" == "/0-0#0";
    SplitWhole("0-0#0", '/');
    SplitAt("0-0", "0", '#');
    assert "0-0" + ['#'] + "0" == "0-0#0";
    SplitWhole("0", '#');
  }


  /** A grid whose row count differs from its first row is rejected. */
  lemma ShortGridRejected()
    ensures Decode("/0-0") == Failure(BadDimension)
  {
    SplitAt("", "0-0", '/');
    assert "" + ['/'] + "0-0" == "/0-0";
    SplitWhole("0-0", '/');
    SplitWhole("0-0", '#');
    ZeroRow();
    var rows: seq<string> := ["0-0"];
    assert rows[1..] == [];
  }

  /** The row texts "0" and "0-0" read as [0] and [0, 0]. */
  lemma ZeroRow()
    ensures ParseCells(Split("0", '-')) == Some([0])
    ensures ParseCells(Split("0-0", '-')) == Some([0, 0])
  {
    SplitAt("0", "0", '-');
    assert "0" + ['-'] + "0" == "0-0";
    SplitWhole("0", '-');
    IntRoundTrip(0);
    assert IntToString(0) == "0";
    var texts: seq<string> := ["0", "0"];
    assert texts[1..] == ["0"];
    var one: seq<string> := ["0"];
    assert one[1..] == [];
    var z: seq<int> := [0];
    assert z + [] == z && z + z == [0, 0];
  }

  datatype HexError = InvalidMove(row: nat, col: nat)

  /** An N×N Hex board: the grid, whose turn it is, the winner once known, and
      the adjacency lists of the win-detection graph. */
  class Hex {
    var size: nat
    var grid: seq<seq<int>>
    var winner: Option<int>
    var current: int
    var edges: seq<seq<nat>>

    /** The graph matches the size and the player to move is BLUE or RED. */
    ghost predicate Valid()
      reads this
    {
      IsGraph(size, edges) && (current == BLUE || current == RED)
    }

    /** A fresh board: every cell EMPTY, BLUE to move, no winner. */
    constructor (size: nat)
      ensures Valid() && this.size == size
      ensures grid == EmptyGrid(size) && current == BLUE && winner == None
    {
      this.size := size;
      new;
      Reset();
    }

    /** Starts the game over on an empty grid of the same size. */
    method Reset()
      modifies this
      ensures Valid() && size == old(size)
      ensures grid == EmptyGrid(size) && current == BLUE && winner == None
    {
      grid := EmptyGrid(size);
      CreateGraph();
      current := BLUE;
      winner := None;
    }

    /** Builds the adjacency lists: for each cell in row-major order the arcs to
        the cells below, below-left and right (in both directions), then the
        one-way border arcs. */
    method CreateGraph()
      modifies this`edges
      ensures IsGraph(size, edges)
    {
      var n := size;
      edges := seq(NodeCount(n), _ => []);
      for i := 0 to n
        invariant |edges| == NodeCount(n)
        invariant forall u, v :: 0 <= u < NodeCount(n) ==> (v in edges[u] <==> Scanned(n, i * n, u, v))
      {
        for j := 0 to n
          invariant |edges| == NodeCount(n)
          invariant forall u, v :: 0 <= u < NodeCount(n) ==> (v in edges[u] <==> Scanned(n, i * n + j, u, v))
        {
          LinkCell(i, j);
        }
        assert i * n + n == (i + 1) * n;
      }
      for i := 0 to n
        invariant |edges| == NodeCount(n)
        invariant forall u, v :: 0 <= u < NodeCount(n) ==>
          (v in edges[u] <==> HexAdjacent(n, u, v) || SideArc(n, i, u, v))
      {
        LinkSides(i);
      }
      for j := 0 to n
        invariant |edges| == NodeCount(n)
        invariant forall u, v :: 0 <= u < NodeCount(n) ==>
          (v in edges[u] <==> HexAdjacent(n, u, v) || SideArc(n, n, u, v) || EndArc(n, j, u, v))
      {
        LinkEnds(j);
      }
      AllCells(n);
    }

    /** One pass of the cell scan: links cell (i, j) with the cell below, the
        cell below-left and the cell to the right, when they exist. */
    method LinkCell(i: nat, j: nat)
      requires i < size && j < size && |edges| == NodeCount(size)
      requires forall u, v :: 0 <= u < NodeCount(size) ==> (v in edges[u] <==> Scanned(size, Index(size, i, j), u, v))
      modifies this`edges
      ensures |edges| == NodeCount(size)
      ensures forall u, v :: 0 <= u < NodeCount(size) ==> (v in edges[u] <==> Scanned(size, Index(size, i, j) + 1, u, v))
    {
      var n := size;
      var c := Index(n, i, j);
      CoordsOfIndex(n, i, j);
      ForwardFrom(n, i, j);
      ghost var before := edges;
      if i < n - 1 {
        CoordsOfIndex(n, i + 1, j);
        edges := Link(edges, c, Index(n, i + 1, j));
        if j > 0 {
          CoordsOfIndex(n, i + 1, j - 1);
          edges := Link(edges, c, Index(n, i + 1, j - 1));
        }
      }
      if j < n - 1 {
        CoordsOfIndex(n, i, j + 1);
        edges := Link(edges, c, Index(n, i, j + 1));
      }
      assert forall u, v :: 0 <= u < NodeCount(n) ==>
        (v in edges[u] <==> v in before[u] || (u == c && Forward(n, c, v)) || (v == c && Forward(n, c, u)));
    }

    /** One pass of the row loop: Left to (i, 0) and (i, N-1) to Right. */
    method LinkSides(i: nat)
      requires i < size && |edges| == NodeCount(size)
      requires forall u, v :: 0 <= u < NodeCount(size) ==>
        (v in edges[u] <==> HexAdjacent(size, u, v) || SideArc(size, i, u, v))
      modifies this`edges
      ensures |edges| == NodeCount(size)
      ensures forall u, v :: 0 <= u < NodeCount(size) ==>
        (v in edges[u] <==> HexAdjacent(size, u, v) || SideArc(size, i + 1, u, v))
    {
      var n := size;
      CoordsOfIndex(n, i, 0);
      CoordsOfIndex(n, i, n - 1);
      AllCells(n);
      edges := Append(edges, Left(n), Index(n, i, 0));
      edges := Append(edges, Index(n, i, n - 1), Right(n));
    }

    /** One pass of the column loop: Top to (0, j) and (N-1, j) to Bottom. */
    method LinkEnds(j: nat)
      requires j < size && |edges| == NodeCount(size)
      requires forall u, v :: 0 <= u < NodeCount(size) ==>
        (v in edges[u] <==> HexAdjacent(size, u, v) || SideArc(size, size, u, v) || EndArc(size, j, u, v))
      modifies this`edges
      ensures |edges| == NodeCount(size)
      ensures forall u, v :: 0 <= u < NodeCount(size) ==>
        (v in edges[u] <==> HexAdjacent(size, u, v) || SideArc(size, size, u, v) || EndArc(size, j + 1, u, v))
    {
      var n := size;
      CoordsOfIndex(n, 0, j);
      CoordsOfIndex(n, n - 1, j);
      AllCells(n);
      edges := Append(edges, Top(n), Index(n, 0, j));
      edges := Append(edges, Index(n, n - 1, j), Bottom(n));
    }

    /** The recursive step of `_is_connected(i, j, player, marked)`: depth-first
        from i towards j, stepping onto border nodes and onto the player's
        cells, never onto a node already in `marked`. The set it returns has
        grown; on failure every node it added has all its passable successors
        in it, which is what makes the search complete. */
    method IsConnectedFrom(i: nat, j: nat, player: int, marked: set<nat>)
      returns (found: bool, marked': set<nat>, ghost route: seq<nat>)
      requires Valid() && IsSquare(size, grid)
      requires i < NodeCount(size) && j < NodeCount(size)
      requires marked <= Range(NodeCount(size)) && i !in marked && j !in marked
      ensures marked <= marked' <= Range(NodeCount(size)) && j !in marked'
      ensures found ==> IsRoute(size, grid, player, route, i, j)
      ensures !found ==> i in marked' && ClosedBeyond(size, grid, player, marked, marked')
      decreases NodeCount(size) - |marked|
    {
      if i == j {
        return true, marked, [i];
      }
      var n := size;
      marked' := marked + {i};
      route := [];
      var neighbours := edges[i];
      for idx := 0 to |neighbours|
        invariant Searched(n, grid, player, marked, i, j, neighbours, idx, marked')
      {
        var k := neighbours[idx];
        Successor(n, edges, i, idx);
        ghost var before := marked';
        if k !in marked' {
          var step := Steps(k, player);
          if step {
            SubsetCard(marked + {i}, marked');
            SubsetCard(marked', Range(NodeCount(n)));
            var f, m, r := IsConnectedFrom(k, j, player, marked');
            if f {
              RouteCons(n, grid, player, i, r, j);
              return true, m, [i] + r;
            }
            marked' := m;
          }
        }
        SearchedNext(n, grid, player, marked, i, j, neighbours, idx, before, marked');
      }
      ClosedAround(n, grid, player, edges, marked, i, j, marked');
      found := false;
    }

    /** Whether the search may step onto node k: a border node, or a cell
        holding the player's piece. */
    method Steps(k: nat, player: int) returns (step: bool)
      requires Valid() && IsSquare(size, grid) && k < NodeCount(size)
      ensures step == Passable(size, grid, player, k)
    {
      var n := size;
      if k in {Left(n), Right(n), Top(n), Bottom(n)} {
        step := true;
      } else {
        IndexOfCoords(n, k);
        var i2, j2 := k / n, k % n;
        step := grid[i2][j2] == player;
      }
    }

    /** `_is_connected(s, t, player)` with no `marked` set: true exactly when a
        route leads from s to t through border nodes and the player's cells. */
    method IsConnected(s: nat, t: nat, player: int) returns (b: bool)
      requires Valid() && IsSquare(size, grid)
      requires s < NodeCount(size) && t < NodeCount(size)
      ensures b <==> Connected(size, grid, player, s, t)
    {
      var marked: set<nat>;
      ghost var route: seq<nat>;
      b, marked, route := IsConnectedFrom(s, t, player, {});
      if !b {
        NoRouteOut(size, grid, player, marked, s, t);
      }
    }

    /** `_check_winner`: whether the player to move has joined their two sides. */
    method CheckWinner() returns (w: bool)
      requires Valid() && IsSquare(size, grid)
      ensures w <==> Wins(size, grid, current)
    {
      if current == BLUE {
        w := IsConnected(Left(size), Right(size), BLUE);
      } else {
        w := IsConnected(Top(size), Bottom(size), RED);
      }
    }

    /** `play(i, j)`: on an occupied cell, fails with InvalidMove and changes
        nothing; otherwise gives the cell to the player to move, records that
        player as winner if this joins their sides, and hands the turn over
        (also after a winning move). Returns the winner. */
    method Play(i: nat, j: nat) returns (r: Result<Option<int>, HexError>)
      requires Valid() && IsSquare(size, grid) && i < size && j < size
      modifies this
      ensures Valid() && IsSquare(size, grid)
      ensures size == old(size) && edges == old(edges)
      ensures old(grid[i][j]) != EMPTY ==>
        r == Failure(InvalidMove(i, j)) &&
        grid == old(grid) && current == old(current) && winner == old(winner)
      ensures old(grid[i][j]) == EMPTY ==>
        grid == old(grid)[i := old(grid)[i][j := old(current)]] &&
        winner == (if Wins(size, grid, old(current)) then Some(old(current)) else old(winner)) &&
        current == Other(old(current)) &&
        r == Success(winner)
    {
      if grid[i][j] != EMPTY {
        return Failure(InvalidMove(i, j));
      }
      grid := grid[i := grid[i][j := current]];
      var won := CheckWinner();
      if won {
        winner := Some(current);
      }
      current := if current == RED then BLUE else RED;
      return Success(winner);
    }

    /** `serialize()`: the board's text form. */
    function Serialize(): string
      reads this
    {
      Encode(winner, grid)
    }

    /** `create_from_str(text)`: a board of the decoded size whose grid and
        winner come from the text; the player to move is BLUE, whatever the
        text described. Fails exactly when the text does not decode. */
    static method CreateFromStr(text: string) returns (r: Result<Hex, DecodeError>)
      ensures r.Failure? <==> Decode(text).Failure?
      ensures r.Failure? ==> r.error == Decode(text).error
      ensures r.Success? ==>
        fresh(r.value) && r.value.Valid() &&
        r.value.size == |Decode(text).value.grid| &&
        r.value.grid == Decode(text).value.grid &&
        r.value.winner == Decode(text).value.winner &&
        r.value.current == BLUE
    {
      match Decode(text)
      case Failure(e) =>
        return Failure(e);
      case Success(board) =>
        var hexboard := new Hex(|board.grid|);
        hexboard.grid := board.grid;
        hexboard.winner := board.winner;
        return Success(hexboard);
    }
  }
}
