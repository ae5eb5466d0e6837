/** The shortest-path client: on its turn it builds the move graph of the
    board it was sent and plays the cell `find_best` picks. The board comes
    from `create_from_str`, so the client always plans as BLUE. */
module DjikstraClient {
  import opened Wrappers
  import opened ClientProtocol
  import HexGame
  import DjikstraGraph
  import DjikstraSearch
  import DjikstraChoice

  /** The first `size` cells of the first `size` rows: all that
      `make_graph` reads of the board. */
  function Clip(size: nat, grid: seq<seq<int>>): (square: seq<seq<int>>)
    requires Wide(size, grid)
    ensures HexGame.IsSquare(size, square)
    ensures forall i, j :: 0 <= i < size && 0 <= j < size ==> square[i][j] == grid[i][j]
  {
    seq(size, i requires 0 <= i < size => grid[i][..size])
  }

  /** w is the move graph `make_graph` builds from the board: the edges the
      rules give, each with its rule weight, and every pair of neighbours the
      rules join. */
  ghost predicate Graphed(board: Board, w: DjikstraSearch.Weights)
    requires Wide(board.size, board.grid)
  {
    var grid := Clip(board.size, board.grid);
    DjikstraGraph.Sound(board.size, grid, board.current, w) &&
    forall i, j, i2, j2 :: DjikstraGraph.Joinable(board.size, grid, board.current, i, j, i2, j2) ==>
      (DjikstraGraph.Key(i, j), DjikstraGraph.Key(i2, j2)) in w
  }

  /** `find_best` finds no move in the graph w: the board is empty of cells,
      or some pair of candidate border cells has no route between them. */
  ghost predicate Blocked(board: Board, w: DjikstraSearch.Weights) {
    board.size == 0 ||
    exists c :: c in DjikstraChoice.Candidates(board.size, board.current) && !DjikstraSearch.Reachable(w, c.0, c.1)
  }

  /** The move `find_best` picks in the graph w: the cell named by a node
      `chosen` of the path of index `best`, the first of least weighted score
      among the cheapest walks `paths` between the candidate pairs. */
  ghost predicate Picks(board: Board, w: DjikstraSearch.Weights, paths: seq<seq<DjikstraGraph.Node>>, best: nat,
                        chosen: DjikstraGraph.Node, move: (int, int))
  {
    var cands := DjikstraChoice.Candidates(board.size, board.current);
    |paths| == |cands| &&
    (forall k :: 0 <= k < |paths| ==> DjikstraChoice.Shortest(w, paths[k], cands[k].0, cands[k].1)) &&
    DjikstraChoice.FirstCheapest(w, paths, best) &&
    chosen in paths[best] && DjikstraGraph.DecodeKey(chosen) == Some(move) &&
    0 <= move.0 < board.size && 0 <= move.1 < board.size
  }

  /** The move is one `make_graph` then `find_best` can give on the board. */
  ghost predicate Planned(board: Board, move: (int, int)) {
    Wide(board.size, board.grid) &&
    exists w, paths, best, chosen :: Graphed(board, w) && Picks(board, w, paths, best, chosen, move)
  }

  /** Why planning gives up on a board: a row shorter than the board, no
      candidate cell, or a candidate pair with no route. */
  ghost predicate Stuck(board: Board, o: Outcome) {
    o.Crashed? &&
    if !Wide(board.size, board.grid) then o.crash == ShortRow
    else
      o.crash == (if board.size == 0 then NoCandidate else NoRoute) &&
      exists w :: Graphed(board, w) && Blocked(board, w)
  }

  /** The PLAYING branch of the loop: `make_graph(size, grid, current)` then
      `find_best(size, graph, current)`. A row shorter than the board ends
      the client (`grid[i][j]` fails); so does a candidate pair with no
      route, or no candidate at all. Otherwise the move is the cell
      `find_best` picks in the move graph w of the board. */
  method PlanTurn(board: Board)
    returns (r: Result<(int, int), Crash>, ghost w: DjikstraSearch.Weights, ghost paths: seq<seq<DjikstraGraph.Node>>,
             ghost best: nat, ghost chosen: DjikstraGraph.Node)
    requires board.size == |board.grid|
    ensures !Wide(board.size, board.grid) ==> r == Failure(ShortRow)
    ensures Wide(board.size, board.grid) ==> Graphed(board, w) && (r.Failure? <==> Blocked(board, w))
    ensures Wide(board.size, board.grid) && r.Failure? ==>
      r.error == if board.size == 0 then NoCandidate else NoRoute
    ensures r.Success? ==> Wide(board.size, board.grid) && Picks(board, w, paths, best, chosen, r.value)
  {
    if !Wide(board.size, board.grid) {
      return Failure(ShortRow), map[], [], 0, "";
    }
    var grid := Clip(board.size, board.grid);
    var graph := DjikstraGraph.MakeGraph(board.size, grid, board.current);
    w := graph.weights;
    var found;
    found, paths, best, chosen := DjikstraChoice.FindBest(board.size, graph, board.current, grid);
    match found
    case Success(cell) =>
      r := Success(cell);
    case Failure(e) =>
      r := Failure(if e == DjikstraChoice.NoCandidates then NoCandidate else NoRoute);
  }

  /** Each sent line names its move, and each move is one planning gives on
      the board the client held when it chose it. */
  ghost predicate SentPlanned(sent: seq<string>, moves: seq<(int, int)>, boards: seq<Board>) {
    |sent| == |moves| == |boards| &&
    forall k :: 0 <= k < |sent| ==> sent[k] == MoveLine(moves[k].0, moves[k].1) && Planned(boards[k], moves[k])
  }

  /** Sending one more planned move keeps every sent move planned. */
  lemma SentOneMore(sent: seq<string>, moves: seq<(int, int)>, boards: seq<Board>, move: (int, int), board: Board)
    requires SentPlanned(sent, moves, boards) && Planned(board, move)
    ensures SentPlanned(sent + [MoveLine(move.0, move.1)], moves + [move], boards + [board])
  {
  }

  /** One pass of the loop of `game_client`, as in the random client, with
      the move planned by `PlanTurn`. */
  method Round(inbox: seq<string>, consumed: nat, phase: Phase, board: Option<Board>)
    returns (s: Step, next: nat, move: Option<((int, int), Board)>)
    requires consumed <= |inbox| && Track(inbox[..consumed]) == Go(phase, board) && !Terminal(phase)
    requires Unfinished(inbox, consumed)
    ensures consumed <= next <= |inbox| && Unfinished(inbox, next)
    ensures s.Go? ==>
      consumed < next && s == Track(inbox[..next]) && Moved(inbox[..next]) == Moved(inbox[..consumed]) + BoardOf(move)
    ensures s.Halt? ==>
      ReadHalt(inbox, next, s.outcome, Moved(inbox[..consumed]) + BoardOf(move)) ||
      (move.None? && ToPlay(inbox, next, Moved(inbox[..consumed])) && Stuck(Track(inbox[..next]).board.value, s.outcome))
    ensures move.Some? ==> Planned(move.value.1, move.value.0)
  {
    next, move := consumed, None;
    s, next := Await(inbox, consumed, phase, board);
    if s.Halt? {
      return;
    }
    s, next, move := Respond(inbox, next, s.phase, s.board);
  }

  /** The rest of a pass of the client loop: the PLAYING move, then the
      WAITING_FOR_ACK read, each when the state calls for it. */
  method Respond(inbox: seq<string>, consumed: nat, phase: Phase, board: Option<Board>)
    returns (s: Step, next: nat, move: Option<((int, int), Board)>)
    requires consumed <= |inbox| && Track(inbox[..consumed]) == Go(phase, board)
    requires Unfinished(inbox, consumed)
    ensures consumed <= next <= |inbox| && Unfinished(inbox, next)
    ensures s.Go? ==> s == Track(inbox[..next]) && Moved(inbox[..next]) == Moved(inbox[..consumed]) + BoardOf(move)
    ensures s.Go? && (phase == Playing || phase == WaitingForAck) ==> consumed < next
    ensures s.Halt? ==>
      ReadHalt(inbox, next, s.outcome, Moved(inbox[..consumed]) + BoardOf(move)) ||
      (move.None? && ToPlay(inbox, next, Moved(inbox[..consumed])) && Stuck(Track(inbox[..next]).board.value, s.outcome))
    ensures move.Some? ==> phase == Playing && board == Some(move.value.1) && Planned(move.value.1, move.value.0)
  {
    next, move := consumed, None;
    if phase == Playing {
      TrackGo(inbox[..consumed]);
      var chosen, w, paths, best, node := PlanTurn(board.value);
      if chosen.Failure? {
        return Halt(Crashed(chosen.error)), next, None;
      }
      move := Some((chosen.value, board.value));
    }
    if phase == Playing || phase == WaitingForAck {
      s, next := ReadNext(inbox, consumed, phase, board);
      return;
    }
    s := Go(phase, board);
  }

  /** `game_client` of the shortest-path client over the lines `inbox`: the
      same course of states as the random client, one move sent each time
      it is in PLAYING, and each move the one planning gives, as BLUE, on the
      board it then held. */
  method Run(inbox: seq<string>)
    returns (outcome: Outcome, consumed: nat, sent: seq<string>, ghost moves: seq<(int, int)>, ghost boards: seq<Board>)
    ensures consumed <= |inbox| && Unfinished(inbox, consumed)
    ensures outcome.Finished? ==>
      Terminal(outcome.phase) && Track(inbox[..consumed]).Go? && outcome.phase == Track(inbox[..consumed]).phase &&
      outcome.phase == Feed(Init, inbox[..consumed]) && boards == Moved(inbox[..consumed])
    ensures !outcome.Finished? ==>
      ReadHalt(inbox, consumed, outcome, boards) ||
      (ToPlay(inbox, consumed, boards) && Stuck(Track(inbox[..consumed]).board.value, outcome))
    ensures outcome.OutOfInput? ==> outcome.phase == Settle(Feed(Init, inbox))
    ensures SentPlanned(sent, moves, boards)
    ensures forall k :: 0 <= k < |boards| ==> boards[k].current == HexGame.BLUE
  {
    var phase := Init;
    var board: Option<Board> := None;
    consumed, sent, moves, boards := 0, [], [], [];
    while !Terminal(phase)
      invariant consumed <= |inbox| && Track(inbox[..consumed]) == Go(phase, board)
      invariant Unfinished(inbox, consumed) && boards == Moved(inbox[..consumed])
      invariant SentPlanned(sent, moves, boards)
      decreases |inbox| - consumed
    {
      var s, next, move := Round(inbox, consumed, phase, board);
      if move.Some? {
        SentOneMore(sent, moves, boards, move.value.0, move.value.1);
        sent, moves, boards := sent + [MoveLine(move.value.0.0, move.value.0.1)],
          moves + [move.value.0], boards + [move.value.1];
      }
      assert boards == Moved(inbox[..consumed]) + BoardOf(move);
      consumed := next;
      if s.Halt? {
        if s.outcome.OutOfInput? {
          TrackGo(inbox);
        }
        PlaysRebuilt(inbox[..consumed]);
        PlaysRebuilt(inbox);
        return s.outcome, consumed, sent, moves, boards;
      }
      phase, board := s.phase, s.board;
    }
    TrackGo(inbox[..consumed]);
    PlaysRebuilt(inbox[..consumed]);
    outcome := Finished(phase);
  }
}
