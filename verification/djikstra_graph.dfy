/** The weighted move graph of the shortest-path client: nodes are the cells'
    "i#j" keys, edges join cells that touch in the 8-neighbourhood, and a
    weight measures how much of the two cells the acting player still has
    to take. */
module DjikstraGraph {
  import opened Wrappers
  import opened PyText
  import HexGame

  type Node = string

  // ---------------------------------------------------------------------------
  // Node keys

  /** The key of cell (i, j): `str(i) + "#" + str(j)`. */
  function Key(i: int, j: int): Node {
    IntToString(i) + "#" + IntToString(j)
  }

  /** Reading a key back as `find_best` does: split at '#' and `int()` the
      first two pieces (further pieces are ignored; fewer is an error). */
  function DecodeKey(k: Node): Option<(int, int)> {
    var tab := Split(k, '#');
    if |tab| < 2 then None
    else
      match (ParseInt(tab[0]), ParseInt(tab[1]))
      case (Some(row), Some(col)) => Some((row, col))
      case _ => None
  }

  lemma NoHashInInt(x: int)
    ensures '#' !in IntToString(x)
  {
  }

  /** A key reads back as the cell it names. */
  lemma KeyRoundTrip(i: int, j: int)
    ensures DecodeKey(Key(i, j)) == Some((i, j))
  {
    NoHashInInt(i);
    NoHashInInt(j);
    SplitAt(IntToString(i), IntToString(j), '#');
    SplitWhole(IntToString(j), '#');
    IntRoundTrip(i);
    IntRoundTrip(j);
  }

  /** Distinct cells have distinct keys. */
  lemma KeyInjective(i: int, j: int, i2: int, j2: int)
    requires Key(i, j) == Key(i2, j2)
    ensures i == i2 && j == j2
  {
    KeyRoundTrip(i, j);
    KeyRoundTrip(i2, j2);
  }

  // ---------------------------------------------------------------------------
  // The edge rule

  /** How far a cell is from being the acting player's: 0 if it is theirs,
      1 if it is empty, 2 otherwise. */
  function Tier(cell: int, current: int): (t: nat)
    ensures t <= 2
    ensures t == 0 <==> cell == current
    ensures t == 1 <==> cell != current && cell == HexGame.EMPTY
  {
    if cell == current then 0 else if cell == HexGame.EMPTY then 1 else 2
  }

  /** Two distinct cells whose rows and columns each differ by at most one. */
  predicate Near(i: int, j: int, i2: int, j2: int) {
    (i, j) != (i2, j2) && -1 <= i2 - i <= 1 && -1 <= j2 - j <= 1
  }

  predicate InBounds(size: nat, i: int, j: int) {
    0 <= i < size && 0 <= j < size
  }

  /** An edge of the move graph between two cells given by coordinates. */
  predicate Joinable(size: nat, grid: seq<seq<int>>, current: int, i: int, j: int, i2: int, j2: int)
    requires HexGame.IsSquare(size, grid)
  {
    InBounds(size, i, j) && InBounds(size, i2, j2) && Near(i, j, i2, j2) &&
    (Tier(grid[i][j], current) < 2 || Tier(grid[i2][j2], current) < 2)
  }

  /** The weight of an edge between two cells. */
  function Cost(size: nat, grid: seq<seq<int>>, current: int, i: int, j: int, i2: int, j2: int): nat
    requires HexGame.IsSquare(size, grid) && InBounds(size, i, j) && InBounds(size, i2, j2)
  {
    Tier(grid[i][j], current) + Tier(grid[i2][j2], current)
  }

  /** The key pair (a, b) with weight w is an edge the rule allows, with the
      weight the rule gives it. */
  ghost predicate RuleEdge(size: nat, grid: seq<seq<int>>, current: int, a: Node, b: Node, w: int)
    requires HexGame.IsSquare(size, grid)
  {
    DecodeKey(a).Some? && DecodeKey(b).Some? &&
    var (i, j) := DecodeKey(a).value;
    var (i2, j2) := DecodeKey(b).value;
    Joinable(size, grid, current, i, j, i2, j2) && w == Cost(size, grid, current, i, j, i2, j2)
  }

  /** Every stored weight is an edge the rule allows, with its weight. */
  ghost predicate Sound(size: nat, grid: seq<seq<int>>, current: int, weights: map<(Node, Node), int>)
    requires HexGame.IsSquare(size, grid)
  {
    forall a, b :: (a, b) in weights ==> RuleEdge(size, grid, current, a, b, weights[(a, b)])
  }

  /** Cell (i, j) comes before cell (ci, cj) in row-major order. */
  predicate Before(i: int, j: int, ci: int, cj: int) {
    i < ci || (i == ci && j < cj)
  }

  /** Every edge the rule allows at a scanned own or empty cell is stored. */
  ghost predicate CompleteUpTo(size: nat, grid: seq<seq<int>>, current: int,
                               weights: map<(Node, Node), int>, ci: int, cj: int)
    requires HexGame.IsSquare(size, grid)
  {
    forall i, j, i2, j2 ::
      Joinable(size, grid, current, i, j, i2, j2) &&
      ((Before(i, j, ci, cj) && Tier(grid[i][j], current) < 2) ||
       (Before(i2, j2, ci, cj) && Tier(grid[i2][j2], current) < 2))
      ==> (Key(i, j), Key(i2, j2)) in weights
  }

  // ---------------------------------------------------------------------------
  // The graph

  /** The adjacency list of a, empty when a has none (`defaultdict(list)`). */
  function AdjOf(edges: map<Node, seq<Node>>, a: Node): seq<Node> {
    if a in edges then edges[a] else []
  }

  /** b is listed after a exactly when the pair (a, b) has a weight. */
  ghost predicate Listed(edges: map<Node, seq<Node>>, weights: map<(Node, Node), int>) {
    forall a, b {:trigger b in AdjOf(edges, a)} :: b in AdjOf(edges, a) <==> (a, b) in weights
  }

  /** Both directions of every edge carry the same weight. */
  ghost predicate Symmetric(weights: map<(Node, Node), int>) {
    forall a, b :: (a, b) in weights ==> (b, a) in weights && weights[(b, a)] == weights[(a, b)]
  }

  /** The maps `add_edge(a, b, w)` leaves behind keep both properties. */
  lemma AddEdgeKeeps(edges: map<Node, seq<Node>>, weights: map<(Node, Node), int>, a: Node, b: Node, w: int)
    requires Listed(edges, weights) && Symmetric(weights)
    ensures var edges' := edges[a := AdjOf(edges, a) + [b]];
      var edges'' := edges'[b := AdjOf(edges', b) + [a]];
      var weights' := weights[(a, b) := w][(b, a) := w];
      Listed(edges'', weights') && Symmetric(weights')
  {
    var edges' := edges[a := AdjOf(edges, a) + [b]];
    var edges'' := edges'[b := AdjOf(edges', b) + [a]];
    var weights' := weights[(a, b) := w][(b, a) := w];
    forall x, y
      ensures y in AdjOf(edges'', x) <==> (x, y) in weights'
    {
      assert y in AdjOf(edges, x) <==> (x, y) in weights;
      AdjAfterAdd(edges, a, b, x);
    }
  }

  /** What adding the edge a–b appends to the list of x. */
  lemma AdjAfterAdd(edges: map<Node, seq<Node>>, a: Node, b: Node, x: Node)
    ensures var edges' := edges[a := AdjOf(edges, a) + [b]];
      AdjOf(edges'[b := AdjOf(edges', b) + [a]], x) ==
        AdjOf(edges, x) + (if x == a then [b] else []) + (if x == b then [a] else [])
  {
  }

  /** An undirected weighted graph: adjacency lists (missing keys read as the
      empty list, as a `defaultdict(list)` does) and a weight per ordered pair. */
  class Graph {
    var edges: map<Node, seq<Node>>
    var weights: map<(Node, Node), int>

    /** Both directions of every edge carry the same weight, and b is listed
        after a exactly when the pair (a, b) has a weight. */
    ghost predicate Valid()
      reads this
    {
      Listed(edges, weights) && Symmetric(weights)
    }

    function Adj(a: Node): seq<Node>
      reads this
    {
      AdjOf(edges, a)
    }

    constructor ()
      ensures Valid() && edges == map[] && weights == map[]
    {
      edges := map[];
      weights := map[];
    }

    /** `add_edge(a, b, w)`: lists each end on the other's adjacency list and
        gives both directions the weight w. */
    method AddEdge(a: Node, b: Node, w: int)
      requires Valid()
      modifies this
      ensures Valid()
      ensures weights == old(weights)[(a, b) := w][(b, a) := w]
      ensures a != b ==> edges == old(edges)[a := old(Adj(a)) + [b]][b := old(Adj(b)) + [a]]
      ensures a == b ==> edges == old(edges)[a := old(Adj(a)) + [a, a]]
    {
      AddEdgeKeeps(edges, weights, a, b, w);
      edges := edges[a := Adj(a) + [b]];
      edges := edges[b := Adj(b) + [a]];
      weights := weights[(a, b) := w][(b, a) := w];
      if a == b {
        assert old(Adj(a)) + [a] + [a] == old(Adj(a)) + [a, a];
      }
    }
  }

  /** Adding a pair the rule allows, both ways, keeps the weights sound. */
  lemma SoundAfterAdd(size: nat, grid: seq<seq<int>>, current: int,
                      weights: map<(Node, Node), int>, f: Node, t: Node, w: int)
    requires HexGame.IsSquare(size, grid) && Sound(size, grid, current, weights)
    requires RuleEdge(size, grid, current, f, t, w) && RuleEdge(size, grid, current, t, f, w)
    ensures Sound(size, grid, current, weights[(f, t) := w][(t, f) := w])
  {
  }

  // ---------------------------------------------------------------------------
  // make_graph

  /** The weight `make_graph` gives the edge into a cell: the tier of the
      cell it leaves plus the tier of this one. */
  method Weight(cell: int, current: int, base: nat) returns (w: nat)
    ensures w == base + Tier(cell, current)
  {
    if cell == current {
      w := base;
    } else if cell == HexGame.EMPTY {
      w := base + 1;
    } else {
      w := base + 2;
    }
  }

  /** An edge between two near cells on the board, the first not held by
      the opponent, at the sum of their tiers, is allowed in both directions. */
  lemma RuleEdges(size: nat, grid: seq<seq<int>>, current: int, i: nat, j: nat, i2: nat, j2: nat, w: int)
    requires HexGame.IsSquare(size, grid) && InBounds(size, i, j) && InBounds(size, i2, j2)
    requires Near(i, j, i2, j2) && Tier(grid[i][j], current) < 2
    requires w == Cost(size, grid, current, i, j, i2, j2)
    ensures RuleEdge(size, grid, current, Key(i, j), Key(i2, j2), w)
    ensures RuleEdge(size, grid, current, Key(i2, j2), Key(i, j), w)
  {
    KeyRoundTrip(i, j);
    KeyRoundTrip(i2, j2);
  }

  /** One neighbour block of `make_graph`: when the bounds test `inside`
      holds, joins (i, j) to (i2, j2) with weight base plus the tier of
      (i2, j2), where base is the tier of (i, j). */
  method LinkTo(g: Graph, size: nat, grid: seq<seq<int>>, current: int,
                i: nat, j: nat, i2: int, j2: int, inside: bool, base: nat)
    requires HexGame.IsSquare(size, grid) && InBounds(size, i, j)
    requires Near(i, j, i2, j2) && (inside <==> InBounds(size, i2, j2))
    requires base == Tier(grid[i][j], current) && base < 2
    requires g.Valid() && Sound(size, grid, current, g.weights)
    modifies g
    ensures g.Valid() && Sound(size, grid, current, g.weights)
    ensures g.weights.Keys >= old(g.weights.Keys)
    ensures inside ==> Joined(g.weights, Key(i, j), Key(i2, j2))
  {
    if inside {
      var f, t := Key(i, j), Key(i2, j2);
      var w := Weight(grid[i2][j2], current, base);
      RuleEdges(size, grid, current, i, j, i2, j2, w);
      SoundAfterAdd(size, grid, current, g.weights, f, t, w);
      g.AddEdge(f, t, w);
    }
  }

  /** The eight neighbour blocks for one own or empty cell, in the source's
      order: up-left, left, down-left, down, up, up-right, right, down-right. */
  method LinkCell(g: Graph, size: nat, grid: seq<seq<int>>, current: int, i: nat, j: nat, base: nat)
    requires HexGame.IsSquare(size, grid) && InBounds(size, i, j)
    requires base == Tier(grid[i][j], current) && base < 2
    requires g.Valid() && Sound(size, grid, current, g.weights)
    modifies g
    ensures g.Valid() && Sound(size, grid, current, g.weights)
    ensures g.weights.Keys >= old(g.weights.Keys)
    ensures forall i2, j2 :: Joinable(size, grid, current, i, j, i2, j2) ==>
      (Key(i, j), Key(i2, j2)) in g.weights && (Key(i2, j2), Key(i, j)) in g.weights
  {
    LinkTwo(g, size, grid, current, i, j, base, i - 1, j - 1, i > 0 && j > 0, i, j - 1, j > 0);
    LinkTwo(g, size, grid, current, i, j, base, i + 1, j - 1, j > 0 && i < size - 1, i + 1, j, i < size - 1);
    LinkTwo(g, size, grid, current, i, j, base, i - 1, j, i > 0, i - 1, j + 1, i > 0 && j < size - 1);
    LinkTwo(g, size, grid, current, i, j, base, i, j + 1, j < size - 1, i + 1, j + 1, i < size - 1 && j < size - 1);
    AllNear(size, grid, current, g.weights, i, j);
  }

  /** Two consecutive neighbour blocks of `make_graph`. */
  method LinkTwo(g: Graph, size: nat, grid: seq<seq<int>>, current: int, i: nat, j: nat, base: nat,
                 i2: int, j2: int, inside2: bool, i3: int, j3: int, inside3: bool)
    requires HexGame.IsSquare(size, grid) && InBounds(size, i, j)
    requires Near(i, j, i2, j2) && (inside2 <==> InBounds(size, i2, j2))
    requires Near(i, j, i3, j3) && (inside3 <==> InBounds(size, i3, j3))
    requires base == Tier(grid[i][j], current) && base < 2
    requires g.Valid() && Sound(size, grid, current, g.weights)
    modifies g
    ensures g.Valid() && Sound(size, grid, current, g.weights)
    ensures g.weights.Keys >= old(g.weights.Keys)
    ensures inside2 ==> Joined(g.weights, Key(i, j), Key(i2, j2))
    ensures inside3 ==> Joined(g.weights, Key(i, j), Key(i3, j3))
  {
    LinkTo(g, size, grid, current, i, j, i2, j2, inside2, base);
    LinkTo(g, size, grid, current, i, j, i3, j3, inside3, base);
  }

  /** With (i, j) joined to each of its eight neighbours on the board, every
      pair at (i, j) the rule allows is stored. */
  lemma AllNear(size: nat, grid: seq<seq<int>>, current: int, w: map<(Node, Node), int>, i: nat, j: nat)
    requires HexGame.IsSquare(size, grid)
    requires i > 0 && j > 0 ==> Joined(w, Key(i, j), Key(i - 1, j - 1))
    requires j > 0 ==> Joined(w, Key(i, j), Key(i, j - 1))
    requires j > 0 && i < size - 1 ==> Joined(w, Key(i, j), Key(i + 1, j - 1))
    requires i < size - 1 ==> Joined(w, Key(i, j), Key(i + 1, j))
    requires i > 0 ==> Joined(w, Key(i, j), Key(i - 1, j))
    requires i > 0 && j < size - 1 ==> Joined(w, Key(i, j), Key(i - 1, j + 1))
    requires j < size - 1 ==> Joined(w, Key(i, j), Key(i, j + 1))
    requires i < size - 1 && j < size - 1 ==> Joined(w, Key(i, j), Key(i + 1, j + 1))
    ensures forall i2, j2 :: Joinable(size, grid, current, i, j, i2, j2) ==>
      (Key(i, j), Key(i2, j2)) in w && (Key(i2, j2), Key(i, j)) in w
  {
    forall i2, j2 | Joinable(size, grid, current, i, j, i2, j2)
      ensures (Key(i, j), Key(i2, j2)) in w && (Key(i2, j2), Key(i, j)) in w
    {
      assert i2 == i - 1 || i2 == i || i2 == i + 1;
      assert j2 == j - 1 || j2 == j || j2 == j + 1;
    }
  }

  /** Both directions of the pair (a, b) are stored. */
  predicate Joined(w: map<(Node, Node), int>, a: Node, b: Node) {
    (a, b) in w && (b, a) in w
  }

  /** Scanning cell (i, j), whose own or empty links are now stored, moves
      the scan on by one cell. */
  lemma CompleteStep(size: nat, grid: seq<seq<int>>, current: int,
                     w0: map<(Node, Node), int>, w1: map<(Node, Node), int>, i: int, j: int)
    requires HexGame.IsSquare(size, grid) && InBounds(size, i, j)
    requires CompleteUpTo(size, grid, current, w0, i, j) && w1.Keys >= w0.Keys
    requires Tier(grid[i][j], current) < 2 ==>
      forall i2, j2 :: Joinable(size, grid, current, i, j, i2, j2) ==>
        (Key(i, j), Key(i2, j2)) in w1 && (Key(i2, j2), Key(i, j)) in w1
    ensures CompleteUpTo(size, grid, current, w1, i, j + 1)
  {
    forall x, y, x2, y2 |
      Joinable(size, grid, current, x, y, x2, y2) &&
      ((Before(x, y, i, j + 1) && Tier(grid[x][y], current) < 2) ||
       (Before(x2, y2, i, j + 1) && Tier(grid[x2][y2], current) < 2))
      ensures (Key(x, y), Key(x2, y2)) in w1
    {
      if (Before(x, y, i, j) && Tier(grid[x][y], current) < 2) ||
         (Before(x2, y2, i, j) && Tier(grid[x2][y2], current) < 2) {
        assert (Key(x, y), Key(x2, y2)) in w0;
      } else if x == i && y == j && Tier(grid[x][y], current) < 2 {
        assert Joinable(size, grid, current, i, j, x2, y2);
      } else {
        assert x2 == i && y2 == j && Tier(grid[x2][y2], current) < 2;
        assert Joinable(size, grid, current, i, j, x, y);
      }
    }
  }

  /** The end of a row is the start of the next. */
  lemma RowDone(size: nat, grid: seq<seq<int>>, current: int, w: map<(Node, Node), int>, i: int)
    requires HexGame.IsSquare(size, grid)
    requires CompleteUpTo(size, grid, current, w, i, size)
    ensures CompleteUpTo(size, grid, current, w, i + 1, 0)
  {
    forall x, y, x2, y2 |
      Joinable(size, grid, current, x, y, x2, y2) &&
      ((Before(x, y, i + 1, 0) && Tier(grid[x][y], current) < 2) ||
       (Before(x2, y2, i + 1, 0) && Tier(grid[x2][y2], current) < 2))
      ensures (Key(x, y), Key(x2, y2)) in w
    {
      assert (Before(x, y, i, size) && Tier(grid[x][y], current) < 2) ||
             (Before(x2, y2, i, size) && Tier(grid[x2][y2], current) < 2);
    }
  }

  /** `make_graph(size, grid, current)`: the move graph seen by `current`.
      The edges are exactly the pairs of touching cells (8-neighbourhood) not
      both held by someone else, both ways, each weighted by the sum of the
      two cells' tiers. */
  method MakeGraph(size: nat, grid: seq<seq<int>>, current: int) returns (g: Graph)
    requires HexGame.IsSquare(size, grid)
    ensures fresh(g) && g.Valid()
    ensures Sound(size, grid, current, g.weights)
    ensures forall i, j, i2, j2 :: Joinable(size, grid, current, i, j, i2, j2) ==>
      (Key(i, j), Key(i2, j2)) in g.weights
  {
    g := new Graph();
    for i := 0 to size
      invariant g.Valid() && Sound(size, grid, current, g.weights)
      invariant CompleteUpTo(size, grid, current, g.weights, i, 0)
    {
      for j := 0 to size
        invariant g.Valid() && Sound(size, grid, current, g.weights)
        invariant CompleteUpTo(size, grid, current, g.weights, i, j)
      {
        ghost var before := g.weights;
        if grid[i][j] == current {
          LinkCell(g, size, grid, current, i, j, 0);
        } else if grid[i][j] == HexGame.EMPTY {
          LinkCell(g, size, grid, current, i, j, 1);
        }
        CompleteStep(size, grid, current, before, g.weights, i, j);
      }
      RowDone(size, grid, current, g.weights, i);
    }
    forall i, j, i2, j2 | Joinable(size, grid, current, i, j, i2, j2)
      ensures (Key(i, j), Key(i2, j2)) in g.weights
    {
      assert Before(i, j, size, 0) && Before(i2, j2, size, 0);
    }
  }

  /** A stored weight is 0 to 3, and it is 2 or more unless one of the cells
      is the player's own. */
  lemma WeightRange(size: nat, grid: seq<seq<int>>, current: int, weights: map<(Node, Node), int>, a: Node, b: Node)
    requires HexGame.IsSquare(size, grid) && Sound(size, grid, current, weights)
    requires (a, b) in weights
    ensures 0 <= weights[(a, b)] <= 3
    ensures weights[(a, b)] < 2 ==>
      var (i, j) := DecodeKey(a).value;
      var (i2, j2) := DecodeKey(b).value;
      grid[i][j] == current || grid[i2][j2] == current
  {
    assert RuleEdge(size, grid, current, a, b, weights[(a, b)]);
  }

  /** When the player owns no cell, every weight is 2 or 3. */
  lemma NoOwnCellsWeights(size: nat, grid: seq<seq<int>>, current: int, weights: map<(Node, Node), int>)
    requires HexGame.IsSquare(size, grid) && Sound(size, grid, current, weights)
    requires forall i, j :: 0 <= i < size && 0 <= j < size ==> grid[i][j] != current
    ensures forall a, b :: (a, b) in weights ==> 2 <= weights[(a, b)] <= 3
  {
    forall a, b | (a, b) in weights
      ensures 2 <= weights[(a, b)] <= 3
    {
      assert RuleEdge(size, grid, current, a, b, weights[(a, b)]);
    }
  }

  /** The rule is symmetric, so adding a pair from the other side writes the
      same weight again. */
  lemma RuleSymmetric(size: nat, grid: seq<seq<int>>, current: int, i: int, j: int, i2: int, j2: int)
    requires HexGame.IsSquare(size, grid)
    requires Joinable(size, grid, current, i, j, i2, j2)
    ensures Joinable(size, grid, current, i2, j2, i, j)
    ensures Cost(size, grid, current, i, j, i2, j2) == Cost(size, grid, current, i2, j2, i, j)
  {
  }
}
