/** The state machine that drives both game clients (`game_client` in the
    random and in the shortest-path client): which server message moves the
    client from which state to which, when it sends its move, and which
    message carries a board it reads. */
module ClientProtocol {
  import opened Wrappers
  import PyText
  import HexGame

  /** INIT_STATE, START, PLAYING, WAITING_FOR_ACK,
      WAITING_FOR_ADVERSARY_MOVE, END_STATE, CONNECTION_REFUSED. */
  datatype Phase = Init | Start | Playing | WaitingForAck | WaitingForAdversaryMove | EndState | ConnectionRefused

  /** The client's loop stops in these two states. */
  predicate Terminal(p: Phase) {
    p == EndState || p == ConnectionRefused
  }

  /** `message.startswith(prefix)`. */
  predicate StartsWith(message: string, prefix: string) {
    |prefix| <= |message| && message[..|prefix|] == prefix
  }

  /** `message[n:]`: empty when the message is shorter than n. */
  function After(message: string, n: nat): (rest: string)
    ensures n <= |message| ==> message == message[..n] + rest
    ensures n > |message| ==> rest == ""
  {
    if n <= |message| then message[n..] else ""
  }

  /** The state a received message leads to, and the text of the board the
      client decodes from it, if any. */
  datatype Reaction = Reaction(phase: Phase, board: Option<string>)

  /** What the client does with one received message in state p: in INIT,
      "Start" (board after 6 characters) and "TooManyPlayers"; in START and
      WAITING_FOR_ADVERSARY_MOVE, "Play" (board after 5) and "End" (board
      after 4); in WAITING_FOR_ACK, "Ack" (board after 4) and
      "InvalidMove". Any other message leaves the state as it is. */
  function Receive(p: Phase, message: string): (r: Reaction)
    ensures r.phase == WaitingForAck ==> p == WaitingForAck
    ensures Terminal(p) ==> r == Reaction(p, None)
    ensures r.board.Some? ==> r.phase != p
  {
    match p
    case Init =>
      if StartsWith(message, "Start") then Reaction(Start, Some(After(message, 6)))
      else if StartsWith(message, "TooManyPlayers") then Reaction(ConnectionRefused, None)
      else Reaction(p, None)
    case Start | WaitingForAdversaryMove =>
      if StartsWith(message, "Play") then Reaction(Playing, Some(After(message, 5)))
      else if StartsWith(message, "End") then Reaction(EndState, Some(After(message, 4)))
      else Reaction(p, None)
    case WaitingForAck =>
      if StartsWith(message, "Ack") then Reaction(WaitingForAdversaryMove, Some(After(message, 4)))
      else if StartsWith(message, "InvalidMove") then
        Reaction(Playing, None)
      else Reaction(p, None)
    case _ => Reaction(p, None)
  }

  /** `send_message_callback`, run whenever the state is PLAYING: the move is
      sent and the state becomes WAITING_FOR_ACK. */
  function Settle(p: Phase): (q: Phase)
    ensures q != Playing
    ensures p != Playing ==> q == p
  {
    if p == Playing then WaitingForAck else p
  }

  /** The state after the client has read the messages ms starting from p,
      sending its move first whenever it is to play. */
  function Feed(p: Phase, ms: seq<string>): Phase
    decreases |ms|
  {
    if |ms| == 0 then p else Receive(Settle(Feed(p, ms[..|ms| - 1])), ms[|ms| - 1]).phase
  }

  // ---------------------------------------------------------------------------
  // Properties of the state machine

  /** A message starts with the first character of each of its prefixes. */
  lemma FirstChar(m: string, prefix: string)
    requires StartsWith(m, prefix) && |prefix| > 0
    ensures |m| > 0 && m[0] == prefix[0]
  {
    assert m[..|prefix|][0] == m[0];
  }

  /** A tag followed by any text starts with that tag. */
  lemma Tagged(tag: string, rest: string)
    ensures StartsWith(tag + rest, tag)
  {
    assert (tag + rest)[..|tag|] == tag;
  }

  /** The transitions, state by state. */
  lemma Transitions(m: string)
    ensures StartsWith(m, "Start") ==> Receive(Init, m) == Reaction(Start, Some(After(m, 6)))
    ensures StartsWith(m, "TooManyPlayers") ==> Receive(Init, m) == Reaction(ConnectionRefused, None)
    ensures StartsWith(m, "Play") ==>
      Receive(Start, m) == Reaction(Playing, Some(After(m, 5))) &&
      Receive(WaitingForAdversaryMove, m) == Reaction(Playing, Some(After(m, 5)))
    ensures StartsWith(m, "End") ==>
      Receive(Start, m) == Reaction(EndState, Some(After(m, 4))) &&
      Receive(WaitingForAdversaryMove, m) == Reaction(EndState, Some(After(m, 4)))
    ensures StartsWith(m, "Ack") ==> Receive(WaitingForAck, m) == Reaction(WaitingForAdversaryMove, Some(After(m, 4)))
    ensures StartsWith(m, "InvalidMove") ==> Receive(WaitingForAck, m) == Reaction(Playing, None)
    ensures Settle(Playing) == WaitingForAck
  {
    if StartsWith(m, "TooManyPlayers") {
      FirstChar(m, "TooManyPlayers");
      if StartsWith(m, "Start") {
        FirstChar(m, "Start");
      }
    }
    if StartsWith(m, "End") {
      FirstChar(m, "End");
      if StartsWith(m, "Play") {
        FirstChar(m, "Play");
      }
    }
    if StartsWith(m, "InvalidMove") {
      FirstChar(m, "InvalidMove");
      if StartsWith(m, "Ack") {
        FirstChar(m, "Ack");
      }
    }
  }

  /** A message with none of the six tags changes nothing and carries no board. */
  lemma OtherTagsIgnored(p: Phase, m: string)
    requires !StartsWith(m, "Start") && !StartsWith(m, "TooManyPlayers") && !StartsWith(m, "Play")
    requires !StartsWith(m, "End") && !StartsWith(m, "Ack") && !StartsWith(m, "InvalidMove")
    ensures Receive(p, m) == Reaction(p, None)
  {
  }

  /** In WAITING_FOR_ACK the client does not look for "End": the game-over
      message leaves it waiting. */
  lemma EndIgnoredWhileAwaitingAck(m: string)
    requires StartsWith(m, "End")
    ensures Receive(WaitingForAck, m) == Reaction(WaitingForAck, None)
  {
    FirstChar(m, "End");
    if StartsWith(m, "Ack") {
      FirstChar(m, "Ack");
    }
    if StartsWith(m, "InvalidMove") {
      FirstChar(m, "InvalidMove");
    }
  }

  /** Once in END_STATE or CONNECTION_REFUSED, no message changes the state. */
  lemma {:induction false} TerminalAbsorbing(p: Phase, ms: seq<string>)
    requires Terminal(p)
    ensures Feed(p, ms) == p
    decreases |ms|
  {
    if |ms| > 0 {
      TerminalAbsorbing(p, ms[..|ms| - 1]);
    }
  }

  /** Reading one more message: send first if to play, then react. */
  lemma FeedOneMore(p: Phase, ms: seq<string>, m: string)
    ensures Feed(p, ms + [m]) == Receive(Settle(Feed(p, ms)), m).phase
  {
    assert (ms + [m])[..|ms|] == ms;
  }

  /** A game seen by a client: start, its turn, its move accepted, then the
      game over; it ends in END_STATE. */
  lemma PlainGame(board: string)
    ensures Feed(Init, ["Start " + board, "Play " + board, "Ack " + board, "End " + board]) == EndState
  {
    Tagged("Start", " " + board);
    Tagged("Play", " " + board);
    Tagged("Ack", " " + board);
    Tagged("End", " " + board);
    assert "Start " + board == "Start" + (" " + board);
    assert "Play " + board == "Play" + (" " + board);
    assert "Ack " + board == "Ack" + (" " + board);
    assert "End " + board == "End" + (" " + board);
    Transitions("Start " + board);
    Transitions("Play " + board);
    Transitions("Ack " + board);
    Transitions("End " + board);
    var a, b, c, d := "Start " + board, "Play " + board, "Ack " + board, "End " + board;
    FeedOneMore(Init, [], a);
    FeedOneMore(Init, [a], b);
    FeedOneMore(Init, [a, b], c);
    FeedOneMore(Init, [a, b, c], d);
    assert [] + [a] == [a] && [a] + [b] == [a, b] && [a, b] + [c] == [a, b, c] && [a, b, c] + [d] == [a, b, c, d];
  }

  /** A third connection is refused. */
  lemma Refused()
    ensures Feed(Init, ["TooManyPlayers"]) == ConnectionRefused
  {
    Tagged("TooManyPlayers", "");
    assert "TooManyPlayers" + "" == "TooManyPlayers";
    Transitions("TooManyPlayers");
    FeedOneMore(Init, [], "TooManyPlayers");
    assert [] + ["TooManyPlayers"] == ["TooManyPlayers"];
  }

  /** Fed "Start", "Play", "Ack", "Play", "End", the client sends a move
      after the second "Play" and then ignores "End": it is left waiting for
      an acknowledgement instead of finishing. */
  lemma SecondPlayThenEnd(board: string)
    ensures Feed(Init, ["Start " + board, "Play " + board, "Ack " + board, "Play " + board, "End " + board])
      == WaitingForAck
  {
    Tagged("Start", " " + board);
    Tagged("Play", " " + board);
    Tagged("Ack", " " + board);
    Tagged("End", " " + board);
    assert "Start " + board == "Start" + (" " + board);
    assert "Play " + board == "Play" + (" " + board);
    assert "Ack " + board == "Ack" + (" " + board);
    assert "End " + board == "End" + (" " + board);
    Transitions("Start " + board);
    Transitions("Play " + board);
    Transitions("Ack " + board);
    EndIgnoredWhileAwaitingAck("End " + board);
    var a, b, c, d := "Start " + board, "Play " + board, "Ack " + board, "End " + board;
    FeedOneMore(Init, [], a);
    FeedOneMore(Init, [a], b);
    FeedOneMore(Init, [a, b], c);
    FeedOneMore(Init, [a, b, c], b);
    FeedOneMore(Init, [a, b, c, b], d);
    assert [] + [a] == [a] && [a] + [b] == [a, b] && [a, b] + [c] == [a, b, c];
    assert [a, b, c] + [b] == [a, b, c, b] && [a, b, c, b] + [d] == [a, b, c, b, d];
  }

  // ---------------------------------------------------------------------------
  // Sending a move

  /** The line `send_message_callback` writes: `"{}#{}\n".format(row, col)`. */
  function MoveLine(row: int, col: int): string {
    PyText.IntToString(row) + "#" + PyText.IntToString(col) + "\n"
  }

  /** Split at '#', a move line gives the row's digits and the column's
      digits followed by the newline. */
  lemma MoveLineSplits(row: int, col: int)
    ensures PyText.Split(MoveLine(row, col), '#') == [PyText.IntToString(row), PyText.IntToString(col) + "\n"]
  {
    var r, c := PyText.IntToString(row), PyText.IntToString(col);
    PyText.SplitAt(r, c + "\n", '#');
    PyText.SplitWhole(c + "\n", '#');
    assert r + "#" + c + "\n" == r + ['#'] + (c + "\n");
  }

  // ---------------------------------------------------------------------------
  // Reading a message

  /** The board a client holds: what `create_from_str` builds. */
  datatype Board = Board(size: nat, grid: seq<seq<int>>, winner: Option<int>, current: int)

  /** Why a client's coroutine dies. */
  datatype Crash =
    | BadBoard(error: HexGame.DecodeError)   // create_from_str raises
    | ShortRow                               // grid[i][j] past the end of a row
    | NoEmptyCell                            // random.choice of an empty list
    | NoCandidate                            // lst[0] of an empty list
    | NoRoute                                // weigh of "Route Not Possible"

  /** How a run of the client loop ends: the loop stopped in a final state,
      the messages ran out while it was waiting to read one, or it crashed. */
  datatype Outcome = Finished(phase: Phase) | OutOfInput(phase: Phase) | Crashed(crash: Crash)

  /** One read of the client loop: react to the message and, when the
      message carries a board, rebuild the board from it. */
  method Read(p: Phase, message: string, board: Option<Board>) returns (r: Result<(Phase, Option<Board>), Crash>)
    ensures var text := Receive(p, message).board;
      r.Failure? <==> text.Some? && HexGame.Decode(text.value).Failure?
    ensures r.Failure? ==> r.error == BadBoard(HexGame.Decode(Receive(p, message).board.value).error)
    ensures r.Success? ==> r.value.0 == Receive(p, message).phase
    ensures r.Success? && Receive(p, message).board.None? ==> r.value.1 == board
    ensures r.Success? && Receive(p, message).board.Some? ==>
      var decoded := HexGame.Decode(Receive(p, message).board.value).value;
      r.value.1 == Some(Board(|decoded.grid|, decoded.grid, decoded.winner, HexGame.BLUE))
  {
    var reaction := Receive(p, message);
    if reaction.board.None? {
      return Success((reaction.phase, board));
    }
    var created := HexGame.Hex.CreateFromStr(reaction.board.value);
    if created.Failure? {
      return Failure(BadBoard(created.error));
    }
    var hexboard := created.value;
    return Success((reaction.phase, Some(Board(hexboard.size, hexboard.grid, hexboard.winner, hexboard.current))));
  }

  /** Every row below `size` has at least `size` cells: a client reading
      cells (i, j) with i, j < size never reads past the end of a row. */
  predicate Wide(size: nat, grid: seq<seq<int>>) {
    |grid| >= size && forall i :: 0 <= i < size ==> |grid[i]| >= size
  }

  /** The board is there once the game has started, its size is its number
      of rows, and, being rebuilt by `create_from_str`, it has BLUE to move. */
  predicate Holding(p: Phase, board: Option<Board>) {
    (p != Init && !Terminal(p) ==> board.Some?) &&
    (board.Some? ==> board.value.size == |board.value.grid| && board.value.current == HexGame.BLUE)
  }

  /** No prefix of the first n lines read left the client in a final state:
      it kept reading. */
  ghost predicate Unfinished(inbox: seq<string>, n: nat) {
    forall k :: 0 <= k < n && k <= |inbox| ==> !Terminal(Feed(Init, inbox[..k]))
  }

  /** What a read of the client loop leads to: go on in a state with a
      board, or stop. */
  datatype Step = Go(phase: Phase, board: Option<Board>) | Halt(outcome: Outcome)

  /** One read as a step, what `Read` computes: the state the message leads
      to with the board it carries, if any, rebuilt; or the crash when that
      board does not decode. */
  function Absorb(p: Phase, message: string, board: Option<Board>): Step {
    var reaction := Receive(p, message);
    if reaction.board.None? then Go(reaction.phase, board)
    else match HexGame.Decode(reaction.board.value)
      case Failure(e) => Halt(Crashed(BadBoard(e)))
      case Success(decoded) => Go(reaction.phase, Some(Board(|decoded.grid|, decoded.grid, decoded.winner, HexGame.BLUE)))
  }

  /** Where the client loop is once it has read the lines ms, sending its move
      whenever it is to play: its state and the board it last rebuilt, or the
      crash on a board that did not decode. */
  function Track(ms: seq<string>): Step
    decreases |ms|
  {
    if |ms| == 0 then Go(Init, None)
    else match Track(ms[..|ms| - 1])
      case Halt(o) => Halt(o)
      case Go(p, b) => Absorb(Settle(p), ms[|ms| - 1], b)
  }

  /** The board the client moves on at this step: the one it holds when the
      step leaves it in PLAYING. */
  function PlayAt(s: Step): seq<Board> {
    if s.Go? && s.phase == Playing && s.board.Some? then [s.board.value] else []
  }

  /** The boards the client sent a move on while reading the lines ms, in
      order: one for each line before which it was in PLAYING. */
  function Moved(ms: seq<string>): seq<Board>
    decreases |ms|
  {
    if |ms| == 0 then [] else Moved(ms[..|ms| - 1]) + PlayAt(Track(ms[..|ms| - 1]))
  }

  /** The boards moved on once ms is read and the client has answered it,
      which it does at once when ms leaves it in PLAYING. */
  function Plays(ms: seq<string>): seq<Board> {
    Moved(ms) + PlayAt(Track(ms))
  }

  /** Reading one more line. */
  lemma TrackOneMore(ms: seq<string>, m: string)
    ensures Track(ms + [m]) == match Track(ms)
      case Halt(o) => Halt(o)
      case Go(p, b) => Absorb(Settle(p), m, b)
    ensures Moved(ms + [m]) == Plays(ms)
  {
    assert (ms + [m])[..|ms|] == ms;
  }

  /** While the client reads on, its state is the one `Feed` gives, and it
      holds a board from the START line on. */
  lemma {:induction false} TrackGo(ms: seq<string>)
    requires Track(ms).Go?
    ensures Track(ms).phase == Feed(Init, ms) && Holding(Track(ms).phase, Track(ms).board)
    decreases |ms|
  {
    if |ms| > 0 {
      var before := ms[..|ms| - 1];
      assert Track(before).Go?;
      TrackGo(before);
    }
  }

  /** Every board the client moves on was rebuilt by `create_from_str`: its
      size is its number of rows and BLUE is to move. */
  lemma {:induction false} PlaysRebuilt(ms: seq<string>)
    ensures forall b :: b in Plays(ms) ==> b.size == |b.grid| && b.current == HexGame.BLUE
    ensures forall b :: b in Moved(ms) ==> b.size == |b.grid| && b.current == HexGame.BLUE
    decreases |ms|
  {
    if Track(ms).Go? {
      TrackGo(ms);
    }
    if |ms| > 0 {
      PlaysRebuilt(ms[..|ms| - 1]);
    }
  }

  /** Line k of ms, read in the state the earlier lines led to, carries a
      board that does not decode, with error e. */
  ghost predicate BadLine(ms: seq<string>, k: nat, e: HexGame.DecodeError)
    requires k < |ms|
  {
    var s := Track(ms[..k]);
    s.Go? &&
    var text := Receive(Settle(s.phase), ms[k]).board;
    text.Some? && HexGame.Decode(text.value) == Failure(e)
  }

  /** The reads stop only on a line whose board does not decode. */
  lemma {:induction false} TrackHalts(ms: seq<string>)
    requires Track(ms).Halt?
    ensures Track(ms).outcome.Crashed? && Track(ms).outcome.crash.BadBoard?
    ensures exists k :: 0 <= k < |ms| && BadLine(ms, k, Track(ms).outcome.crash.error)
    decreases |ms|
  {
    var before := ms[..|ms| - 1];
    if Track(before).Halt? {
      TrackHalts(before);
      var k :| 0 <= k < |before| && BadLine(before, k, Track(before).outcome.crash.error);
      assert before[..k] == ms[..k];
      assert BadLine(ms, k, Track(ms).outcome.crash.error);
    } else {
      assert before == ms[..|ms| - 1];
      assert BadLine(ms, |ms| - 1, Track(ms).outcome.crash.error);
    }
  }

  /** How a run that is not stuck choosing a move can stop after the first n
      lines, having moved on `boards`: with every line read and the client
      waiting for another; or on line n - 1, whose board does not decode. */
  ghost predicate ReadHalt(inbox: seq<string>, n: nat, o: Outcome, boards: seq<Board>) {
    n <= |inbox| &&
    match o
    case OutOfInput(p) =>
      n == |inbox| && Track(inbox).Go? && !Terminal(Track(inbox).phase) &&
      p == Settle(Track(inbox).phase) && boards == Plays(inbox)
    case Crashed(crash) =>
      crash.BadBoard? && 0 < n && Track(inbox[..n - 1]).Go? && Track(inbox[..n]) == Halt(o) &&
      boards == Moved(inbox[..n])
    case Finished(_) => false
  }

  /** After the first n lines the client is in PLAYING with a board, having
      moved on `boards` before. */
  ghost predicate ToPlay(inbox: seq<string>, n: nat, boards: seq<Board>) {
    n <= |inbox| && Track(inbox[..n]).Go? && Track(inbox[..n]).phase == Playing &&
    Track(inbox[..n]).board.Some? && boards == Moved(inbox[..n])
  }

  /** The board a sent move was chosen on, if a move was sent. */
  function BoardOf<M>(move: Option<(M, Board)>): seq<Board> {
    if move.Some? then [move.value.1] else []
  }

  /** Reading line n of the inbox: the step `Absorb` takes, and how the run
      stops if it does not decode. */
  lemma ReadOneMore(inbox: seq<string>, n: nat)
    requires n < |inbox| && Track(inbox[..n]).Go?
    ensures Track(inbox[..n + 1]) == Absorb(Settle(Track(inbox[..n]).phase), inbox[n], Track(inbox[..n]).board)
    ensures Moved(inbox[..n + 1]) == Plays(inbox[..n])
    ensures Track(inbox[..n + 1]).Halt? ==>
      ReadHalt(inbox, n + 1, Track(inbox[..n + 1]).outcome, Plays(inbox[..n])) &&
      Track(inbox[..n + 1]).outcome.Crashed? && Track(inbox[..n + 1]).outcome.crash.BadBoard? &&
      BadLine(inbox, n, Track(inbox[..n + 1]).outcome.crash.error)
  {
    TrackOneMore(inbox[..n], inbox[n]);
    assert inbox[..n + 1] == inbox[..n] + [inbox[n]];
    assert inbox[..n + 1][..n] == inbox[..n];
  }

  /** A read of the client loop at line `consumed` of the lines `inbox`,
      the loop having reached state q: the client reads in q, or in
      WAITING_FOR_ACK once it has moved in PLAYING. Out of input when every
      line is read; otherwise the step `Track` takes on that line. */
  method ReadNext(inbox: seq<string>, consumed: nat, q: Phase, board: Option<Board>) returns (s: Step, next: nat)
    requires consumed <= |inbox| && Track(inbox[..consumed]) == Go(q, board) && !Terminal(q)
    requires Unfinished(inbox, consumed)
    ensures consumed == |inbox| ==> s == Halt(OutOfInput(Settle(q))) && next == consumed
    ensures consumed < |inbox| ==> next == consumed + 1 && s == Track(inbox[..next])
    ensures s.Go? ==> Moved(inbox[..next]) == Plays(inbox[..consumed])
    ensures s.Halt? ==> ReadHalt(inbox, next, s.outcome, Plays(inbox[..consumed]))
    ensures consumed < |inbox| && s.Halt? ==>
      s.outcome.Crashed? && s.outcome.crash.BadBoard? && BadLine(inbox, consumed, s.outcome.crash.error)
    ensures Unfinished(inbox, next)
  {
    if consumed == |inbox| {
      assert inbox[..consumed] == inbox;
      return Halt(OutOfInput(Settle(q))), consumed;
    }
    var r := Read(Settle(q), inbox[consumed], board);
    ReadOneMore(inbox, consumed);
    TrackGo(inbox[..consumed]);
    next := consumed + 1;
    if r.Failure? {
      return Halt(Crashed(r.error)), next;
    }
    return Go(r.value.0, r.value.1), next;
  }

  /** The reads a pass of the client loop makes before it may have to move:
      the INIT read, then the START / WAITING_FOR_ADVERSARY_MOVE read, each
      when the state calls for it. When it reads nothing the state is one that
      needs no read here. No move is sent in these states. */
  method Await(inbox: seq<string>, consumed: nat, phase: Phase, board: Option<Board>)
    returns (s: Step, next: nat)
    requires consumed <= |inbox| && Track(inbox[..consumed]) == Go(phase, board) && !Terminal(phase)
    requires Unfinished(inbox, consumed)
    ensures consumed <= next <= |inbox| && Unfinished(inbox, next)
    ensures s.Go? ==> s == Track(inbox[..next]) && Moved(inbox[..next]) == Moved(inbox[..consumed])
    ensures s.Go? && next == consumed ==> phase == Playing || phase == WaitingForAck
    ensures s.Halt? ==> ReadHalt(inbox, next, s.outcome, Moved(inbox[..consumed]))
  {
    var p, b := phase, board;
    next := consumed;
    if p == Init {
      s, next := ReadNext(inbox, next, p, b);
      if s.Halt? {
        return;
      }
      p, b := s.phase, s.board;
    }
    if p == Start || p == WaitingForAdversaryMove {
      s, next := ReadNext(inbox, next, p, b);
      if s.Halt? {
        return;
      }
      p, b := s.phase, s.board;
    }
    s := Go(p, b);
  }
}
