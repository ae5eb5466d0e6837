/** The game server: it admits two players, gives each a colour, and runs
    the turns, prompting the player to move, applying the move it sends
    back and acknowledging it, until someone has won. Connections are
    numbered by arrival; a message sent is a pair (connection, text). */
module HexGameServer {
  import opened Wrappers
  import opened PyText
  import opened HexGame
  import ClientProtocol

  // ---------------------------------------------------------------------------
  // Admission

  /** What `waiting_for_players` does with a connection: refuse it, or
      register it, the game starting when it is the second one. */
  datatype Admission = Refused | Registered(starts: bool)

  /** The decision for a connection arriving when `registered` players are
      already in. */
  function Admit(registered: nat): (a: Admission)
    ensures a.Refused? <==> registered >= 2
    ensures a.Registered? ==> (a.starts <==> registered == 1)
  {
    if registered >= 2 then Refused else Registered(registered + 1 == 2)
  }

  /** The number of registered players after `arrivals` connections. */
  function Registrations(arrivals: nat): (registered: nat)
    ensures registered <= arrivals
  {
    if arrivals == 0 then 0
    else
      var before := Registrations(arrivals - 1);
      if Admit(before).Refused? then before else before + 1
  }

  /** Never more than two players: the first two connections are registered,
      the game starts on the second and only then, and every later
      connection is refused. */
  lemma {:induction false} SecondArrivalStarts(arrivals: nat)
    ensures Registrations(arrivals) == if arrivals < 2 then arrivals else 2
    ensures Admit(Registrations(arrivals)) ==
      if arrivals == 0 then Registered(false)
      else if arrivals == 1 then Registered(true)
      else Refused
  {
    if arrivals > 0 {
      SecondArrivalStarts(arrivals - 1);
    }
  }

  /** The server's list of player connections (`writers`; `readers` grows
      alongside it and is not modelled separately). */
  class Lobby {
    var writers: seq<nat>

    ghost predicate Valid()
      reads this
    {
      |writers| <= 2
    }

    constructor ()
      ensures Valid() && writers == []
    {
      writers := [];
    }

    /** `waiting_for_players` for a new connection `conn`: with two players
        in, it answers "TooManyPlayers" and keeps the list; otherwise it
        appends the connection, and the game starts when that makes two. */
    method Connect(conn: nat) returns (reply: Option<string>, start: bool)
      requires Valid()
      modifies this
      ensures Valid()
      ensures Admit(|old(writers)|).Refused? ==>
        reply == Some("TooManyPlayers") && !start && writers == old(writers)
      ensures Admit(|old(writers)|).Registered? ==>
        reply == None && writers == old(writers) + [conn] &&
        start == Admit(|old(writers)|).starts && (start <==> |writers| == 2)
    {
      if |writers| >= 2 {
        return Some("TooManyPlayers"), false;
      }
      writers := writers + [conn];
      reply, start := None, |writers| == 2;
    }
  }

  // ---------------------------------------------------------------------------
  // Colours and seats

  /** `players`: BLUE sits at connection `rb`, RED at the other one. */
  function Players(rb: nat): (players: map<int, nat>)
    requires rb < 2
    ensures players.Keys == {BLUE, RED}
    ensures {players[BLUE], players[RED]} == {0, 1}
    ensures players[BLUE] <= 1 && players[RED] <= 1
  {
    map[BLUE := rb, RED := 1 - rb]
  }

  // ---------------------------------------------------------------------------
  // Reading a move

  /** What ends the game coroutine while it reads a move:
      `int()` fails (ValueError), the line does not hold exactly two numbers
      (`play(*move)` raises TypeError), or an index is off the board
      (`grid[i][j]` raises IndexError). */
  datatype MoveError = NotANumber | NotTwoNumbers | OffBoard

  /** Python's list indexing on a list of `size` items: a negative index
      counts from the end; anything beyond either end is an IndexError. */
  function Wrap(size: nat, x: int): (r: Option<nat>)
    ensures r.Some? <==> -(size as int) <= x < size
    ensures r.Some? ==> r.value < size && (if x < 0 then r.value == x + size else r.value == x)
  {
    if 0 <= x < size then Some(x)
    else if -(size as int) <= x < 0 then Some(x + size)
    else None
  }

  /** `[int(i) for i in data.split('#')]` followed by `play(*move)` on a
      board of `size`: the cell the line names. */
  function ParseMove(size: nat, line: string): (r: Result<(nat, nat), MoveError>)
    ensures r.Success? ==> r.value.0 < size && r.value.1 < size
    ensures r.Failure? && r.error == NotTwoNumbers ==>
      ParseCells(Split(line, '#')).Some? && |Split(line, '#')| != 2
  {
    var values := ParseCells(Split(line, '#'));
    if values.None? then Failure(NotANumber)
    else if |values.value| != 2 then Failure(NotTwoNumbers)
    else
      match (Wrap(size, values.value[0]), Wrap(size, values.value[1]))
      case (Some(i), Some(j)) => Success((i, j))
      case _ => Failure(OffBoard)
  }

  /** `int()` ignores the newline that ends the column. */
  lemma NumberBeforeNewline(x: int)
    ensures ParseInt(IntToString(x) + "\n") == Some(x)
  {
    var s := IntToString(x);
    assert !IsSpace(s[0]) && !IsSpace(s[|s| - 1]);
    assert TrimLeft(s + "\n") == s + "\n";
    assert (s + "\n")[..|s + "\n"| - 1] == s;
    StripOfNumber(s);
    assert Strip(s + "\n") == Strip(s);
    IntRoundTrip(x);
  }

  /** A line made of two numbers around a '#' reads as those two numbers. */
  lemma TwoNumbers(line: string, a: string, b: string, x: int, y: int)
    requires Split(line, '#') == [a, b] && ParseInt(a) == Some(x) && ParseInt(b) == Some(y)
    ensures ParseCells(Split(line, '#')) == Some([x, y])
  {
    var texts := [a, b];
    assert texts[1..] == [b] && texts[1..][1..] == [];
    assert ParseCells(texts[1..][1..]) == Some([]);
    assert [y] + [] == [y] && [x] + [y] == [x, y];
    assert ParseCells(texts[1..]) == Some([y]);
  }

  /** A line of two numbers on the board, around a '#', names the cell they
      index. */
  lemma ReadsCell(size: nat, line: string, a: string, b: string, x: int, y: int)
    requires Split(line, '#') == [a, b] && ParseInt(a) == Some(x) && ParseInt(b) == Some(y)
    requires Wrap(size, x).Some? && Wrap(size, y).Some?
    ensures ParseMove(size, line) == Success((Wrap(size, x).value, Wrap(size, y).value))
  {
    TwoNumbers(line, a, b, x, y);
  }

  /** The line a client sends for a cell of the board is read back as that
      cell. */
  lemma ClientMoveRead(size: nat, row: nat, col: nat)
    requires row < size && col < size
    ensures ParseMove(size, ClientProtocol.MoveLine(row, col)) == Success((row, col))
  {
    ClientProtocol.MoveLineSplits(row, col);
    IntRoundTrip(row);
    NumberBeforeNewline(col);
    ReadsCell(size, ClientProtocol.MoveLine(row, col), IntToString(row), IntToString(col) + "\n", row, col);
  }

  /** Two pieces without a '#', joined by one, split back into the two. */
  lemma SplitPair(a: string, b: string)
    requires '#' !in a && '#' !in b
    ensures Split(a + "#" + b, '#') == [a, b]
  {
    SplitAt(a, b, '#');
    SplitWhole(b, '#');
    assert a + "#" + b == a + ['#'] + b;
  }

  /** `str(x)` holds no '#'. */
  lemma NoHash(x: int)
    ensures '#' !in IntToString(x)
  {
  }

  /** Two numbers written around a '#' name the cell they index. */
  lemma ReadsNumbers(size: nat, x: int, y: int)
    requires Wrap(size, x).Some? && Wrap(size, y).Some?
    ensures ParseMove(size, IntToString(x) + "#" + IntToString(y)) == Success((Wrap(size, x).value, Wrap(size, y).value))
  {
    var r, c := IntToString(x), IntToString(y);
    NoHash(x);
    NoHash(y);
    SplitPair(r, c);
    IntRoundTrip(x);
    IntRoundTrip(y);
    ReadsCell(size, r + "#" + c, r, c, x, y);
  }

  /** A negative index names the cell that many places from the end. */
  lemma NegativeIndices(size: nat, row: nat, col: nat)
    requires row < size && col < size
    ensures ParseMove(size, IntToString(row - size) + "#" + IntToString(col - size))
      == Success((row, col))
  {
    ReadsNumbers(size, row - size, col - size);
  }

  // ---------------------------------------------------------------------------
  // The turns, as a specification

  /** The state of `hexboard` the turn loop works on. */
  datatype Game = Game(grid: seq<seq<int>>, winner: Option<int>, current: int)

  /** `hexboard.winner` taken as a condition: set and not 0. */
  predicate Decided(winner: Option<int>) {
    winner.Some? && winner.value != EMPTY
  }

  /** The board a game on `size` runs on: square, a player to move, and a
      winner only ever BLUE or RED. */
  predicate Sound(size: nat, g: Game) {
    IsSquare(size, g.grid) && (g.current == BLUE || g.current == RED) &&
    (g.winner.Some? ==> g.winner.value == BLUE || g.winner.value == RED)
  }

  /** What the server reads while waiting for a move: a line, or nothing in
      time. */
  datatype Event = Line(text: string) | TimedOut

  /** A message `tag` followed by the board and a newline. */
  function BoardLine(tag: string, g: Game): string {
    tag + " " + Encode(g.winner, g.grid) + "\n"
  }

  /** `play(i, j)` on an empty cell: the cell goes to the player to move,
      that player wins if this joins their sides, and the turn passes. */
  ghost function Played(size: nat, g: Game, i: nat, j: nat): (after: Game)
    requires Sound(size, g) && i < size && j < size
    ensures Sound(size, after)
  {
    var grid := g.grid[i := g.grid[i][j := g.current]];
    Game(grid, if Wins(size, grid, g.current) then Some(g.current) else g.winner, Other(g.current))
  }

  /** The "Play" prompt the turn starts with. */
  function Prompt(rb: nat, g: Game): (sent: seq<(nat, string)>)
    requires rb < 2 && (g.current == BLUE || g.current == RED)
    ensures |sent| == 1 && ClientProtocol.StartsWith(sent[0].1, "Play")
  {
    ClientProtocol.Tagged("Play", " " + Encode(g.winner, g.grid) + "\n");
    [(Players(rb)[g.current], BoardLine("Play", g))]
  }

  /** A timeout: the opponent of the player to move becomes the winner. */
  function Forfeit(g: Game): (h: Game)
    ensures h.grid == g.grid && h.current == g.current
    ensures Decided(h.winner) && h.winner.value != g.current
  {
    g.(winner := Some(if g.current == BLUE then RED else BLUE))
  }

  /** `play(i, j)` and its answer: an occupied cell changes nothing and
      earns "InvalidMove" to the player to move; an empty one is played and
      "Ack" with the new board goes to the player who moved. */
  ghost function Placed(size: nat, rb: nat, g: Game, i: nat, j: nat): (r: (Game, seq<(nat, string)>))
    requires rb < 2 && Sound(size, g) && i < size && j < size
    ensures Sound(size, r.0)
  {
    if g.grid[i][j] != EMPTY then
      (g, [(Players(rb)[g.current], "InvalidMove\n")])
    else
      var after := Played(size, g, i, j);
      (after, [(1 - Players(rb)[after.current], BoardLine("Ack", after))])
  }

  /** The turn for a line read: the cell it names is played, or refused as
      occupied, or the line ends the coroutine. */
  ghost function Reply(size: nat, rb: nat, g: Game, text: string): (r: Result<(Game, seq<(nat, string)>), MoveError>)
    requires rb < 2 && Sound(size, g)
    ensures r.Success? ==> Sound(size, r.value.0)
  {
    match ParseMove(size, text)
    case Failure(err) => Failure(err)
    case Success(cell) => Success(Placed(size, rb, g, cell.0, cell.1))
  }

  /** The rest of one turn once the prompt is out: the new board and what is
      sent, or the error that ends the coroutine. */
  ghost function Answer(size: nat, rb: nat, g: Game, e: Event): (r: Result<(Game, seq<(nat, string)>), MoveError>)
    requires rb < 2 && Sound(size, g)
    ensures r.Success? ==> Sound(size, r.value.0)
  {
    match e
    case TimedOut => Success((Forfeit(g), []))
    case Line(text) => Reply(size, rb, g, text)
  }

  /** How the turn loop ends: someone won; the server waits for a move that
      never comes; or reading a move failed. */
  datatype Ending = Won(winner: int) | Stalled | Crashed(error: MoveError)

  /** The turn loop from `g` over the events `events`: what it ends with and
      everything it sends, the "End" lines to both players included. */
  ghost function Session(size: nat, rb: nat, g: Game, events: seq<Event>): (r: (Ending, seq<(nat, string)>))
    requires rb < 2 && Sound(size, g)
    decreases |events|
  {
    if Decided(g.winner) then
      (Won(g.winner.value), [(0, BoardLine("End", g)), (1, BoardLine("End", g))])
    else if |events| == 0 then (Stalled, Prompt(rb, g))
    else
      match Answer(size, rb, g, events[0])
      case Failure(err) => (Crashed(err), Prompt(rb, g))
      case Success(turn) =>
        var rest := Session(size, rb, turn.0, events[1..]);
        (rest.0, Prompt(rb, g) + turn.1 + rest.1)
  }

  /** The game the turn loop from `g` over the events `events` leaves on the
      board: the first decided one, or the one it stalled or crashed on. */
  ghost function LastGame(size: nat, rb: nat, g: Game, events: seq<Event>): Game
    requires rb < 2 && Sound(size, g)
    decreases |events|
  {
    if Decided(g.winner) || |events| == 0 then g
    else
      match Answer(size, rb, g, events[0])
      case Failure(_) => g
      case Success(turn) => LastGame(size, rb, turn.0, events[1..])
  }

  /** The session is won exactly when the game it leaves is decided, and by
      that game's winner. */
  lemma {:induction false} WonIffDecided(size: nat, rb: nat, g: Game, events: seq<Event>)
    requires rb < 2 && Sound(size, g)
    ensures Session(size, rb, g, events).0.Won? <==> Decided(LastGame(size, rb, g, events).winner)
    ensures Session(size, rb, g, events).0.Won? ==>
      Session(size, rb, g, events).0.winner == LastGame(size, rb, g, events).winner.value
    decreases |events|
  {
    if !Decided(g.winner) && |events| > 0 {
      match Answer(size, rb, g, events[0])
      case Failure(_) =>
      case Success(turn) =>
        WonIffDecided(size, rb, turn.0, events[1..]);
    }
  }

  /** The game `Hex(hexsize)` starts from. */
  function Opening(size: nat): (g: Game)
    ensures Sound(size, g) && !Decided(g.winner)
  {
    Game(EmptyGrid(size), None, BLUE)
  }

  // ---------------------------------------------------------------------------
  // Properties of one turn

  /** After a valid move the "Ack" goes back to the player who was prompted
      and moved: `1 - players[current]` once the turn has passed. The cell
      now holds that player's colour and the other player is to move. */
  lemma AckToMover(size: nat, rb: nat, g: Game, i: nat, j: nat)
    requires rb < 2 && Sound(size, g) && i < size && j < size && g.grid[i][j] == EMPTY
    ensures var (after, sent) := Placed(size, rb, g, i, j);
      after.grid[i][j] == g.current && after.current == Other(g.current) &&
      sent == [(Prompt(rb, g)[0].0, BoardLine("Ack", after))]
  {
  }

  /** An occupied cell changes nothing on the board and sends "InvalidMove"
      to the player who was prompted, who is then prompted again. */
  lemma InvalidMoveRetries(size: nat, rb: nat, g: Game, i: nat, j: nat)
    requires rb < 2 && Sound(size, g) && i < size && j < size && g.grid[i][j] != EMPTY
    ensures var (after, sent) := Placed(size, rb, g, i, j);
      after == g && sent == [(Prompt(rb, g)[0].0, "InvalidMove\n")]
  {
  }

  /** A timeout makes the other player the winner and leaves the grid and the
      player to move alone. */
  lemma TimeoutLoses(size: nat, rb: nat, g: Game)
    requires rb < 2 && Sound(size, g)
    ensures var after := Answer(size, rb, g, TimedOut).value.0;
      after.grid == g.grid && after.current == g.current &&
      after.winner == Some(Other(g.current)) && Decided(after.winner)
  {
  }

  /** A turn never changes an occupied cell; it fills at most one empty cell,
      with the colour of the player to move. */
  lemma StonesStay(size: nat, rb: nat, g: Game, e: Event, i: nat, j: nat)
    requires rb < 2 && Sound(size, g) && i < size && j < size
    requires Answer(size, rb, g, e).Success?
    ensures var after := Answer(size, rb, g, e).value.0;
      (g.grid[i][j] != EMPTY ==> after.grid[i][j] == g.grid[i][j]) &&
      (after.grid[i][j] != g.grid[i][j] ==>
         (after.grid[i][j] == g.current && e.Line? && ParseMove(size, e.text) == Success((i, j))))
  {
  }

  // ---------------------------------------------------------------------------
  // Stones on the board

  function CountRow(row: seq<int>, player: int): nat {
    if |row| == 0 then 0 else (if row[0] == player then 1 else 0) + CountRow(row[1..], player)
  }

  /** The number of cells holding `player`. */
  function Count(grid: seq<seq<int>>, player: int): nat {
    if |grid| == 0 then 0 else CountRow(grid[0], player) + Count(grid[1..], player)
  }

  lemma {:induction false} CountRowSet(row: seq<int>, j: nat, player: int, stone: int)
    requires j < |row| && row[j] == EMPTY && player != EMPTY
    ensures CountRow(row[j := stone], player) == CountRow(row, player) + if stone == player then 1 else 0
    decreases j
  {
    if j > 0 {
      assert row[j := stone][1..] == row[1..][j - 1 := stone];
      CountRowSet(row[1..], j - 1, player, stone);
    } else {
      assert row[j := stone][1..] == row[1..];
    }
  }

  /** Putting a stone on an empty cell adds one to its colour's count and
      nothing to the others'. */
  lemma {:induction false} CountSet(grid: seq<seq<int>>, i: nat, j: nat, player: int, stone: int)
    requires i < |grid| && j < |grid[i]| && grid[i][j] == EMPTY && player != EMPTY
    ensures Count(grid[i := grid[i][j := stone]], player) == Count(grid, player) + if stone == player then 1 else 0
    decreases i
  {
    var after := grid[i := grid[i][j := stone]];
    if i > 0 {
      assert after[1..] == grid[1..][i - 1 := grid[1..][i - 1][j := stone]];
      CountSet(grid[1..], i - 1, j, player, stone);
    } else {
      assert after[1..] == grid[1..];
      CountRowSet(grid[0], j, player, stone);
    }
  }

  lemma {:induction false} EmptyCounts(n: nat, rows: nat, player: int)
    requires rows <= n && player != EMPTY
    ensures Count(EmptyGrid(n)[..rows], player) == 0
  {
    if rows > 0 {
      EmptyCounts(n, rows - 1, player);
      var g := EmptyGrid(n)[..rows];
      assert g[1..] == EmptyGrid(n)[1..rows];
      EmptyRowCount(seq(n, _ => EMPTY), player);
      EmptyTail(n, 1, rows, player);
    }
  }

  lemma {:induction false} EmptyRowCount(row: seq<int>, player: int)
    requires player != EMPTY && forall k :: 0 <= k < |row| ==> row[k] == EMPTY
    ensures CountRow(row, player) == 0
  {
    if |row| > 0 {
      EmptyRowCount(row[1..], player);
    }
  }

  lemma {:induction false} EmptyTail(n: nat, from: nat, to: nat, player: int)
    requires from <= to <= n && player != EMPTY
    ensures Count(EmptyGrid(n)[from..to], player) == 0
    decreases (to as int) - (from as int)
  {
    if from < to {
      var g := EmptyGrid(n)[from..to];
      assert g[1..] == EmptyGrid(n)[from + 1..to];
      EmptyRowCount(g[0], player);
      EmptyTail(n, from + 1, to, player);
    }
  }

  /** BLUE moves first and the players alternate, so BLUE has as many
      stones as RED, or one more when it is RED's turn. */
  predicate Balanced(g: Game) {
    Count(g.grid, BLUE) == Count(g.grid, RED) + if g.current == RED then 1 else 0
  }

  lemma OpeningBalanced(size: nat)
    ensures Balanced(Opening(size))
  {
    EmptyTail(size, 0, size, BLUE);
    EmptyTail(size, 0, size, RED);
    assert EmptyGrid(size)[0..size] == EmptyGrid(size);
  }

  /** Every turn keeps the stones balanced. */
  lemma BalanceKept(size: nat, rb: nat, g: Game, e: Event)
    requires rb < 2 && Sound(size, g) && Balanced(g)
    requires Answer(size, rb, g, e).Success?
    ensures Balanced(Answer(size, rb, g, e).value.0)
  {
    if e.Line? {
      var cell := ParseMove(size, e.text).value;
      if g.grid[cell.0][cell.1] == EMPTY {
        CountSet(g.grid, cell.0, cell.1, BLUE, g.current);
        CountSet(g.grid, cell.0, cell.1, RED, g.current);
      }
    }
  }

  // ---------------------------------------------------------------------------
  // Properties of the whole loop

  /** The first turn of `Session` when it is not the last. */
  lemma SessionStep(size: nat, rb: nat, g: Game, events: seq<Event>)
    requires rb < 2 && Sound(size, g) && !Decided(g.winner) && |events| > 0
    requires Answer(size, rb, g, events[0]).Success?
    ensures var (after, out) := Answer(size, rb, g, events[0]).value;
      var rest := Session(size, rb, after, events[1..]);
      Session(size, rb, g, events) == (rest.0, Prompt(rb, g) + out + rest.1)
  {
  }

  /** The last two messages are the same "End" line, to connection 0 and to
      connection 1. */
  predicate EndsWithEnd(sent: seq<(nat, string)>) {
    |sent| >= 2 && sent[|sent| - 2].0 == 0 && sent[|sent| - 1].0 == 1 &&
    ClientProtocol.StartsWith(sent[|sent| - 2].1, "End") && sent[|sent| - 2].1 == sent[|sent| - 1].1
  }

  lemma EndsKept(a: seq<(nat, string)>, b: seq<(nat, string)>)
    requires EndsWithEnd(b)
    ensures EndsWithEnd(a + b)
  {
    assert (a + b)[|a + b| - 1] == b[|b| - 1] && (a + b)[|a + b| - 2] == b[|b| - 2];
  }

  /** A finished game ends with the final board sent to both connections,
      and its winner is BLUE or RED. */
  lemma {:induction false} WonEndsWithEnd(size: nat, rb: nat, g: Game, events: seq<Event>)
    requires rb < 2 && Sound(size, g)
    ensures var (ending, sent) := Session(size, rb, g, events);
      ending.Won? ==> (ending.winner == BLUE || ending.winner == RED) && EndsWithEnd(sent)
    decreases |events|
  {
    if Decided(g.winner) {
      ClientProtocol.Tagged("End", " " + Encode(g.winner, g.grid) + "\n");
    } else if |events| > 0 && Answer(size, rb, g, events[0]).Success? {
      var (after, out) := Answer(size, rb, g, events[0]).value;
      SessionStep(size, rb, g, events);
      WonEndsWithEnd(size, rb, after, events[1..]);
      var rest := Session(size, rb, after, events[1..]);
      if rest.0.Won? {
        EndsKept(Prompt(rb, g) + out, rest.1);
      }
    }
  }

  /** Every message goes to one of the two players. */
  predicate Addressed(sent: seq<(nat, string)>) {
    forall k :: 0 <= k < |sent| ==> sent[k].0 < 2
  }

  /** No message is an "End". */
  predicate NoEnd(sent: seq<(nat, string)>) {
    forall k :: 0 <= k < |sent| ==> !ClientProtocol.StartsWith(sent[k].1, "End")
  }

  lemma Concatenated(a: seq<(nat, string)>, b: seq<(nat, string)>)
    ensures Addressed(a) && Addressed(b) ==> Addressed(a + b)
    ensures NoEnd(a) && NoEnd(b) ==> NoEnd(a + b)
  {
  }

  /** The prompt goes to a player and is no "End". */
  lemma PromptMessages(rb: nat, g: Game)
    requires rb < 2 && (g.current == BLUE || g.current == RED)
    ensures Addressed(Prompt(rb, g)) && NoEnd(Prompt(rb, g))
  {
    NotEnd(BoardLine("Play", g));
  }

  /** The answer to a line that can be read is an "InvalidMove" or an "Ack",
      to a player. */
  lemma ReplyMessages(size: nat, rb: nat, g: Game, text: string)
    requires rb < 2 && Sound(size, g) && Reply(size, rb, g, text).Success?
    ensures Addressed(Reply(size, rb, g, text).value.1) && NoEnd(Reply(size, rb, g, text).value.1)
  {
    var cell := ParseMove(size, text).value;
    if g.grid[cell.0][cell.1] != EMPTY {
      var m := "InvalidMove\n";
      if ClientProtocol.StartsWith(m, "End") {
        ClientProtocol.FirstChar(m, "End");
      }
    } else {
      NotEnd(BoardLine("Ack", Played(size, g, cell.0, cell.1)));
    }
  }

  /** A turn that does not end the game sends, to the players, only "Play",
      "Ack" and "InvalidMove". */
  lemma TurnMessages(size: nat, rb: nat, g: Game, e: Event)
    requires rb < 2 && Sound(size, g)
    ensures Addressed(Prompt(rb, g)) && NoEnd(Prompt(rb, g))
    ensures Answer(size, rb, g, e).Success? ==>
      Addressed(Answer(size, rb, g, e).value.1) && NoEnd(Answer(size, rb, g, e).value.1)
  {
    PromptMessages(rb, g);
    if e.Line? && Reply(size, rb, g, e.text).Success? {
      ReplyMessages(size, rb, g, e.text);
    }
  }

  /** Every message goes to a player, and while nobody has won none of them
      is an "End": the game goes on. */
  lemma {:induction false} NoEndBeforeWin(size: nat, rb: nat, g: Game, events: seq<Event>)
    requires rb < 2 && Sound(size, g)
    ensures Addressed(Session(size, rb, g, events).1)
    ensures !Session(size, rb, g, events).0.Won? ==> NoEnd(Session(size, rb, g, events).1)
    decreases |events|
  {
    if !Decided(g.winner) && |events| > 0 {
      TurnMessages(size, rb, g, events[0]);
      var a := Answer(size, rb, g, events[0]);
      if a.Success? {
        NoEndBeforeWin(size, rb, a.value.0, events[1..]);
        var rest := Session(size, rb, a.value.0, events[1..]);
        Concatenated(Prompt(rb, g), a.value.1);
        Concatenated(Prompt(rb, g) + a.value.1, rest.1);
      }
    } else if !Decided(g.winner) {
      TurnMessages(size, rb, g, TimedOut);
    }
  }

  /** "Play" and "Ack" lines are not "End" lines. */
  lemma NotEnd(m: string)
    requires |m| > 0 && (m[0] == 'P' || m[0] == 'A')
    ensures !ClientProtocol.StartsWith(m, "End")
  {
    if ClientProtocol.StartsWith(m, "End") {
      ClientProtocol.FirstChar(m, "End");
    }
  }

  // ---------------------------------------------------------------------------
  // The coroutine

  /** The board `hexboard` holds. */
  ghost function State(hexboard: Hex): Game
    reads hexboard
  {
    Game(hexboard.grid, hexboard.winner, hexboard.current)
  }

  /** A turn as a method reports it, seen as the result of `Answer`: the
      error, or the board it left and what it sent. */
  function Observed(r: Result<seq<(nat, string)>, MoveError>, g: Game): Result<(Game, seq<(nat, string)>), MoveError> {
    match r
    case Failure(err) => Failure(err)
    case Success(sent) => Success((g, sent))
  }

  /** `hexboard.play(i, j)` and the message that answers it. */
  method Place(hexboard: Hex, rb: nat, i: nat, j: nat) returns (out: seq<(nat, string)>)
    requires rb < 2 && hexboard.Valid() && Sound(hexboard.size, State(hexboard))
    requires i < hexboard.size && j < hexboard.size
    modifies hexboard
    ensures hexboard.Valid() && hexboard.size == old(hexboard.size)
    ensures (State(hexboard), out) == Placed(hexboard.size, rb, old(State(hexboard)), i, j)
  {
    var players := Players(rb);
    var played := hexboard.Play(i, j);
    if played.Failure? {
      return [(players[hexboard.current], "InvalidMove\n")];
    }
    assert hexboard.current == BLUE || hexboard.current == RED;
    assert "Ack" + " " == "Ack ";
    return [(1 - players[hexboard.current], "Ack " + hexboard.Serialize() + "\n")];
  }

  /** The line branch of the loop body: `[int(i) for i in ...]`, `play`,
      then "Ack" to the mover or "InvalidMove" to the same player. */
  method Move(hexboard: Hex, rb: nat, text: string) returns (r: Result<seq<(nat, string)>, MoveError>)
    requires rb < 2 && hexboard.Valid() && Sound(hexboard.size, State(hexboard))
    modifies hexboard
    ensures hexboard.Valid() && hexboard.size == old(hexboard.size)
    ensures r.Failure? ==> State(hexboard) == old(State(hexboard))
    ensures Observed(r, State(hexboard)) == Reply(hexboard.size, rb, old(State(hexboard)), text)
  {
    var move := ParseMove(hexboard.size, text);
    if move.Failure? {
      return Failure(move.error);
    }
    var out := Place(hexboard, rb, move.value.0, move.value.1);
    return Success(out);
  }

  /** One pass of the `while not hexboard.winner` loop after the prompt:
      the event read, applied to `hexboard` as `Answer` says. */
  method Turn(hexboard: Hex, rb: nat, e: Event) returns (r: Result<seq<(nat, string)>, MoveError>)
    requires rb < 2 && hexboard.Valid() && Sound(hexboard.size, State(hexboard))
    modifies hexboard
    ensures hexboard.Valid() && hexboard.size == old(hexboard.size)
    ensures r.Failure? ==> State(hexboard) == old(State(hexboard))
    ensures Observed(r, State(hexboard)) == Answer(hexboard.size, rb, old(State(hexboard)), e)
  {
    match e
    case TimedOut =>
      hexboard.winner := Some(if hexboard.current == BLUE then RED else BLUE);
      return Success([]);
    case Line(text) =>
      r := Move(hexboard, rb, text);
  }

  /** What has been sent, followed by what `Session` still sends from `g`
      over the events left, is the whole transcript `total`, and `Session`
      from `g` ends the way the whole game does. */
  ghost predicate OnCourse(size: nat, rb: nat, g: Game, rest: seq<Event>, sent: seq<(nat, string)>,
                           total: (Ending, seq<(nat, string)>))
    requires rb < 2 && Sound(size, g)
  {
    sent + Session(size, rb, g, rest).1 == total.1 && Session(size, rb, g, rest).0 == total.0
  }

  /** A turn that goes on keeps the loop on course. */
  lemma OnCourseStep(size: nat, rb: nat, g: Game, rest: seq<Event>, sent: seq<(nat, string)>,
                     total: (Ending, seq<(nat, string)>))
    requires rb < 2 && Sound(size, g) && !Decided(g.winner) && |rest| > 0
    requires OnCourse(size, rb, g, rest, sent, total) && Answer(size, rb, g, rest[0]).Success?
    ensures var (after, out) := Answer(size, rb, g, rest[0]).value;
      OnCourse(size, rb, after, rest[1..], sent + Prompt(rb, g) + out, total)
  {
    SessionStep(size, rb, g, rest);
    var turn := Answer(size, rb, g, rest[0]).value;
    var later := Session(size, rb, turn.0, rest[1..]);
    assert Session(size, rb, g, rest) == (later.0, Prompt(rb, g) + turn.1 + later.1);
    assert sent + (Prompt(rb, g) + turn.1 + later.1) == sent + Prompt(rb, g) + turn.1 + later.1;
  }

  /** A turn that stops the loop: no event left, or a line that cannot be
      read; the prompt is the last thing sent. */
  lemma OnCourseStop(size: nat, rb: nat, g: Game, rest: seq<Event>, sent: seq<(nat, string)>,
                     total: (Ending, seq<(nat, string)>))
    requires rb < 2 && Sound(size, g) && !Decided(g.winner)
    requires |rest| == 0 || Answer(size, rb, g, rest[0]).Failure?
    requires OnCourse(size, rb, g, rest, sent, total)
    ensures sent + Prompt(rb, g) == total.1
    ensures total.0 == if |rest| == 0 then Stalled else Crashed(Answer(size, rb, g, rest[0]).error)
  {
  }

  /** Once someone has won, the two "End" lines are all that is left. */
  lemma OnCourseWon(size: nat, rb: nat, g: Game, rest: seq<Event>, sent: seq<(nat, string)>,
                    total: (Ending, seq<(nat, string)>))
    requires rb < 2 && Sound(size, g) && Decided(g.winner)
    requires OnCourse(size, rb, g, rest, sent, total)
    ensures sent + [(0, BoardLine("End", g)), (1, BoardLine("End", g))] == total.1
    ensures total.0 == Won(g.winner.value)
  {
  }

  /** The `while not hexboard.winner` loop and the "End" lines after it,
      over the events read: what `Session` ends with and sends from the
      board `hexboard` holds. */
  method Turns(hexboard: Hex, rb: nat, events: seq<Event>) returns (ending: Ending, sent: seq<(nat, string)>)
    requires rb < 2 && hexboard.Valid() && Sound(hexboard.size, State(hexboard))
    modifies hexboard
    ensures hexboard.Valid() && hexboard.size == old(hexboard.size)
    ensures (ending, sent) == Session(hexboard.size, rb, old(State(hexboard)), events)
    ensures State(hexboard) == LastGame(hexboard.size, rb, old(State(hexboard)), events)
  {
    var players := Players(rb);
    ghost var size := hexboard.size;
    ghost var total := Session(size, rb, State(hexboard), events);
    ghost var last := LastGame(size, rb, State(hexboard), events);
    sent := [];
    var k := 0;
    assert events[k..] == events;
    while !Decided(hexboard.winner)
      invariant hexboard.Valid() && hexboard.size == size && k <= |events|
      invariant Sound(size, State(hexboard))
      invariant OnCourse(size, rb, State(hexboard), events[k..], sent, total)
      invariant LastGame(size, rb, State(hexboard), events[k..]) == last
      decreases |events| - k
    {
      ghost var g, before := State(hexboard), sent;
      var prompt := [(players[hexboard.current], "Play " + hexboard.Serialize() + "\n")];
      assert "Play" + " " == "Play ";
      assert prompt == Prompt(rb, g);
      sent := sent + prompt;
      if k == |events| {
        OnCourseStop(size, rb, g, events[k..], before, total);
        return Stalled, sent;
      }
      var r := Turn(hexboard, rb, events[k]);
      assert events[k..][0] == events[k] && events[k..][1..] == events[k + 1..];
      if r.Failure? {
        OnCourseStop(size, rb, g, events[k..], before, total);
        return Crashed(r.error), sent;
      }
      OnCourseStep(size, rb, g, events[k..], before, total);
      sent := sent + r.value;
      k := k + 1;
    }
    var end := "End " + hexboard.Serialize() + "\n";
    assert "End" + " " == "End ";
    assert end == BoardLine("End", State(hexboard));
    OnCourseWon(size, rb, State(hexboard), events[k..], sent, total);
    sent := sent + [(0, end), (1, end)];
    ending := Won(hexboard.winner.value);
  }

  /** `handle_game`: "Start" with the empty board to both connections, then
      the turns over the events read, then "End" to both. What it ends with
      and what it sends are those of `Session` from the opening board. */
  method HandleGame(hexsize: nat, rb: nat, events: seq<Event>) returns (ending: Ending, sent: seq<(nat, string)>)
    requires rb < 2
    ensures var start := BoardLine("Start", Opening(hexsize));
      ending == Session(hexsize, rb, Opening(hexsize), events).0 &&
      sent == [(0, start), (1, start)] + Session(hexsize, rb, Opening(hexsize), events).1
  {
    var hexboard := new Hex(hexsize);
    var start := "Start " + hexboard.Serialize() + "\n";
    assert "Start" + " " == "Start ";
    assert State(hexboard) == Opening(hexsize);
    var rest;
    ending, rest := Turns(hexboard, rb, events);
    sent := [(0, start), (1, start)] + rest;
  }
}
