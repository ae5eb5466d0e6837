/** The random client: on its turn it lists the empty cells of the board it
    was sent, row by row, and plays one of them chosen at random. */
module RandomClient {
  import opened Wrappers
  import opened ClientProtocol
  import HexGame

  /** Cell a comes before cell b when reading the board row by row. */
  predicate RowMajor(a: (nat, nat), b: (nat, nat)) {
    a.0 < b.0 || (a.0 == b.0 && a.1 < b.1)
  }

  /** Cell c is on the board and empty (`not grid[i][j]`). */
  predicate EmptyCell(size: nat, grid: seq<seq<int>>, c: (nat, nat))
    requires Wide(size, grid)
  {
    c.0 < size && c.1 < size && grid[c.0][c.1] == HexGame.EMPTY
  }

  /** The enumeration of `_list`: for each row, for each column, append the
      cell when it is empty. The result holds exactly the empty cells, in
      row-major order, each once. */
  method EmptyCells(size: nat, grid: seq<seq<int>>) returns (cells: seq<(nat, nat)>)
    requires Wide(size, grid)
    ensures forall c: (nat, nat) :: c in cells <==> EmptyCell(size, grid, c)
    ensures forall k, l :: 0 <= k < l < |cells| ==> RowMajor(cells[k], cells[l])
  {
    cells := [];
    var i: nat := 0;
    while i < size
      invariant i <= size
      invariant forall c: (nat, nat) :: c in cells <==> EmptyCell(size, grid, c) && c.0 < i
      invariant forall k, l :: 0 <= k < l < |cells| ==> RowMajor(cells[k], cells[l])
      invariant forall k :: 0 <= k < |cells| ==> cells[k].0 < i
    {
      var j: nat := 0;
      while j < size
        invariant j <= size
        invariant forall c: (nat, nat) :: c in cells <==> EmptyCell(size, grid, c) && RowMajor(c, (i, j))
        invariant forall k, l :: 0 <= k < l < |cells| ==> RowMajor(cells[k], cells[l])
        invariant forall k :: 0 <= k < |cells| ==> RowMajor(cells[k], (i, j))
      {
        if grid[i][j] == HexGame.EMPTY {
          cells := cells + [(i, j)];
        }
        j := j + 1;
      }
      i := i + 1;
    }
  }

  /** No cell is listed twice. */
  lemma EmptyCellsDistinct(cells: seq<(nat, nat)>)
    requires forall k, l :: 0 <= k < l < |cells| ==> RowMajor(cells[k], cells[l])
    ensures forall k, l :: 0 <= k < l < |cells| ==> cells[k] != cells[l]
  {
  }

  /** The move sent on a board: an empty cell of that board. */
  predicate EmptyOn(board: Board, move: (nat, nat)) {
    Wide(board.size, board.grid) && EmptyCell(board.size, board.grid, move)
  }

  /** Each sent line names its move, and each move was an empty cell of the
      board the client held when it chose it. */
  ghost predicate SentEmpty(sent: seq<string>, moves: seq<(nat, nat)>, boards: seq<Board>) {
    |sent| == |moves| == |boards| &&
    forall k :: 0 <= k < |sent| ==> sent[k] == MoveLine(moves[k].0, moves[k].1) && EmptyOn(boards[k], moves[k])
  }

  /** Sending one more move on an empty cell keeps every sent move on an
      empty cell of its board. */
  lemma SentOneMore(sent: seq<string>, moves: seq<(nat, nat)>, boards: seq<Board>, move: (nat, nat), board: Board)
    requires SentEmpty(sent, moves, boards) && EmptyOn(board, move)
    ensures SentEmpty(sent + [MoveLine(move.0, move.1)], moves + [move], boards + [board])
  {
  }

  /** The PLAYING branch of the loop: list the empty cells, pick one at
      random and send it. A row shorter than the board, or a board with no
      empty cell, ends the client. */
  method PlayTurn(board: Board) returns (r: Result<(nat, nat), Crash>)
    requires board.size == |board.grid|
    ensures r.Failure? <==>
      (!Wide(board.size, board.grid) || forall c :: !EmptyCell(board.size, board.grid, c))
    ensures r.Failure? ==> r.error == if !Wide(board.size, board.grid) then ShortRow else NoEmptyCell
    ensures r.Success? ==> EmptyOn(board, r.value)
  {
    if !Wide(board.size, board.grid) {
      return Failure(ShortRow);
    }
    var cells := EmptyCells(board.size, board.grid);
    if |cells| == 0 {
      return Failure(NoEmptyCell);
    }
    var k :| 0 <= k < |cells|;
    assert cells[k] in cells;
    return Success(cells[k]);
  }

  /** Why `PlayTurn` gives up on a board: a row shorter than the board, or
      no empty cell to choose from. */
  ghost predicate Stuck(board: Board, o: Outcome) {
    o.Crashed? &&
    if !Wide(board.size, board.grid) then o.crash == ShortRow
    else o.crash == NoEmptyCell && forall c :: !EmptyCell(board.size, board.grid, c)
  }

  /** The rest of a pass of the client loop: the PLAYING move, then the
      WAITING_FOR_ACK read, each when the state calls for it. */
  method Respond(inbox: seq<string>, consumed: nat, phase: Phase, board: Option<Board>)
    returns (s: Step, next: nat, move: Option<((nat, nat), Board)>)
    requires consumed <= |inbox| && Track(inbox[..consumed]) == Go(phase, board)
    requires Unfinished(inbox, consumed)
    ensures consumed <= next <= |inbox| && Unfinished(inbox, next)
    ensures s.Go? ==> s == Track(inbox[..next]) && Moved(inbox[..next]) == Moved(inbox[..consumed]) + BoardOf(move)
    ensures s.Go? && (phase == Playing || phase == WaitingForAck) ==> consumed < next
    ensures s.Halt? ==>
      ReadHalt(inbox, next, s.outcome, Moved(inbox[..consumed]) + BoardOf(move)) ||
      (move.None? && ToPlay(inbox, next, Moved(inbox[..consumed])) && Stuck(Track(inbox[..next]).board.value, s.outcome))
    ensures move.Some? ==> phase == Playing && board == Some(move.value.1) && EmptyOn(move.value.1, move.value.0)
  {
    next, move := consumed, None;
    if phase == Playing {
      TrackGo(inbox[..consumed]);
      var chosen := PlayTurn(board.value);
      if chosen.Failure? {
        return Halt(Crashed(chosen.error)), next, None;
      }
      move := Some((chosen.value, board.value));
    }
    if phase == Playing || phase == WaitingForAck {
      s, next := ReadNext(inbox, consumed, phase, board);
      return;
    }
    s := Go(phase, board);
  }

  /** One pass of the loop of `game_client`: the INIT read, the START /
      WAITING_FOR_ADVERSARY_MOVE read, the PLAYING move, the WAITING_FOR_ACK
      read, each when the state then calls for it. It reads at least one
      line unless it stops; `move` is the move sent, with the board it was
      chosen on. */
  method Round(inbox: seq<string>, consumed: nat, phase: Phase, board: Option<Board>)
    returns (s: Step, next: nat, move: Option<((nat, nat), Board)>)
    requires consumed <= |inbox| && Track(inbox[..consumed]) == Go(phase, board) && !Terminal(phase)
    requires Unfinished(inbox, consumed)
    ensures consumed <= next <= |inbox| && Unfinished(inbox, next)
    ensures s.Go? ==>
      consumed < next && s == Track(inbox[..next]) && Moved(inbox[..next]) == Moved(inbox[..consumed]) + BoardOf(move)
    ensures s.Halt? ==>
      ReadHalt(inbox, next, s.outcome, Moved(inbox[..consumed]) + BoardOf(move)) ||
      (move.None? && ToPlay(inbox, next, Moved(inbox[..consumed])) && Stuck(Track(inbox[..next]).board.value, s.outcome))
    ensures move.Some? ==> EmptyOn(move.value.1, move.value.0)
  {
    next, move := consumed, None;
    s, next := Await(inbox, consumed, phase, board);
    if s.Halt? {
      return;
    }
    s, next, move := Respond(inbox, next, s.phase, s.board);
  }

  /** `game_client`: the loop of the random client over the lines `inbox`
      it receives, in order. It stops in END_STATE or CONNECTION_REFUSED
      (`Finished`), when it would wait for a line that never comes
      (`OutOfInput`), on a board that does not decode, or when it cannot
      choose a move. Its state follows `Track` over the lines it has read, it
      stops at the first final state, it sends one move each time it is in
      PLAYING, and each move is an empty cell of the board it then held. */
  method Run(inbox: seq<string>)
    returns (outcome: Outcome, consumed: nat, sent: seq<string>, ghost moves: seq<(nat, nat)>, ghost boards: seq<Board>)
    ensures consumed <= |inbox| && Unfinished(inbox, consumed)
    ensures outcome.Finished? ==>
      Terminal(outcome.phase) && Track(inbox[..consumed]).Go? && outcome.phase == Track(inbox[..consumed]).phase &&
      outcome.phase == Feed(Init, inbox[..consumed]) && boards == Moved(inbox[..consumed])
    ensures !outcome.Finished? ==>
      ReadHalt(inbox, consumed, outcome, boards) ||
      (ToPlay(inbox, consumed, boards) && Stuck(Track(inbox[..consumed]).board.value, outcome))
    ensures outcome.OutOfInput? ==> outcome.phase == Settle(Feed(Init, inbox))
    ensures SentEmpty(sent, moves, boards)
  {
    var phase := Init;
    var board: Option<Board> := None;
    consumed, sent, moves, boards := 0, [], [], [];
    while !Terminal(phase)
      invariant consumed <= |inbox| && Track(inbox[..consumed]) == Go(phase, board)
      invariant Unfinished(inbox, consumed) && boards == Moved(inbox[..consumed])
      invariant SentEmpty(sent, moves, boards)
      decreases |inbox| - consumed
    {
      var s, next, move := Round(inbox, consumed, phase, board);
      if move.Some? {
        SentOneMore(sent, moves, boards, move.value.0, move.value.1);
        sent, moves, boards := sent + [MoveLine(move.value.0.0, move.value.0.1)],
          moves + [move.value.0], boards + [move.value.1];
      }
      assert boards == Moved(inbox[..consumed]) + BoardOf(move);
      consumed := next;
      if s.Halt? {
        if s.outcome.OutOfInput? {
          TrackGo(inbox);
        }
        return s.outcome, consumed, sent, moves, boards;
      }
      phase, board := s.phase, s.board;
    }
    TrackGo(inbox[..consumed]);
    outcome := Finished(phase);
  }
}
