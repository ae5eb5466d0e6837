# Hex game: engine, move selectors, clients and server in Dafny

This project models the Python Hex game of `hexgame.py`, `djikstra.py`,
`random_client.py` and `hexgame_server.py`, and proves properties of the
model:

- **HexGame** (`hexgame.dfy`) is the board engine, class `Hex`:
  - an N×N grid of EMPTY=0, BLUE=1 and RED=2;
  - the adjacency graph with the four one-way border nodes Left, Right, Top
    and Bottom;
  - `play`, and the winner test by the depth-first `_is_connected` search;
  - the text form `winner/row#row` with cells split by `-`.
- **PyText** (`pytext.dfy`) models the Python text operations the program
  relies on: `str()` of an integer, `int()` of a string, `split` and `join`.
- **DjikstraGraph**, **DjikstraSearch**, **DjikstraChoice** and
  **DjikstraClient** are the shortest-path client:
  - `Graph.add_edge` and `make_graph`, over `"i#j"` keys;
  - `djikstra`, proved to return a cheapest walk or to report that none
    exists;
  - `weigh` and `find_best`;
  - that client's `game_client` loop.
- **ClientProtocol** (`client_protocol.dfy`) holds the two clients' shared
  state machine: INIT, START, PLAYING, WAITING_FOR_ACK,
  WAITING_FOR_ADVERSARY_MOVE, END_STATE and CONNECTION_REFUSED.
  - `Feed` gives the state after a sequence of received lines.
  - `Track` gives the state and the board held after them, or the crash on a
    board that does not decode.
  - `Moved` lists the boards the client moved on while reading them, one for
    each time it was in PLAYING. The two clients' loops are proved to follow
    `Track` and to send exactly one move per board of `Moved`.
- **RandomClient** (`random_client.py`'s model) enumerates the empty cells and
  picks one.
- **HexGameServer** covers:
  - the admission of players by `waiting_for_players`;
  - the `handle_game` turn loop, over the events it reads (a line or a
    timeout), producing the messages it sends as (connection, text) pairs.

Randomness becomes a parameter or a nondeterministic choice:

- the first-player draw is a parameter `rb`;
- `random.choice` is a `:|` choice of any element.

Reading from and writing to sockets becomes input and output sequences.

## Model

| member | source | states |
|---|---|---|
| HexGame.CoordsOfIndex | hexgame.py:47-51 | `_1d_2_2d(_2d_2_1d(i, j)) == (i, j)` for in-range i, j, and the index is a cell below size² |
| HexGame.IndexOfCoords | hexgame.py:47-51 | `_2d_2_1d(_1d_2_2d(v)) == v` for every cell index v, with both coordinates below size |
| HexGame.AllCells | hexgame.py:47-51 | every cell index decodes to in-range coordinates that encode back to it |
| HexGame.Hex.constructor | hexgame.py:25-28 | a new board of the given size has an empty grid, BLUE to move, no winner and a well-formed graph |
| HexGame.EmptyGrid | hexgame.py:55-56 | the grid built by `reset` is size×size |
| HexGame.Hex.Reset | hexgame.py:53-59 | after `reset` every cell is EMPTY, BLUE is to move, there is no winner, and the graph is rebuilt |
| HexGame.Hex.CreateGraph | hexgame.py:73-98 | `_create_graph` leaves exactly the arcs of the hex rule: cell arcs both ways, and one-way border arcs |
| HexGame.Hex.LinkCell | hexgame.py:76-91 | one step of the nested loop adds exactly the arcs between cell (i, j) and its forward neighbours, in both directions |
| HexGame.Hex.LinkSides | hexgame.py:93-95 | adds exactly Left→(i,0) and (i,N-1)→Right |
| HexGame.Hex.LinkEnds | hexgame.py:96-98 | adds exactly Top→(0,j) and (N-1,j)→Bottom |
| HexGame.ForwardFrom | hexgame.py:77-91 | the forward neighbours of (i, j) are exactly (i+1, j), (i+1, j-1) and (i, j+1) when on the board |
| HexGame.Append | hexgame.py:78-98 | appending v to u's list adds the arc u→v and nothing else |
| HexGame.Link | hexgame.py:78-91 | linking a and b adds the arcs a→b and b→a and nothing else |
| HexGame.HexAdjacentIsForward | hexgame.py:77-91 | two cells are adjacent exactly when one is a forward neighbour of the other |
| HexGame.HexAdjacentSymmetric | hexgame.py:77-91 | cell adjacency is symmetric |
| HexGame.AtMostSixNeighbours | hexgame.py:77-91 | every neighbour of a cell is at offset ±1, ±N or ±(N-1), so a cell has at most six cell neighbours |
| HexGame.NeighbourOffset | hexgame.py:77-91 | a neighbour of a cell lies at one of the six index offsets |
| HexGame.BorderArcsOneWay | hexgame.py:93-98 | no arc enters Left or Top, and no arc leaves Right or Bottom |
| HexGame.EdgeInGraph | hexgame.py:74 | every arc joins two of the size²+4 nodes |
| HexGame.Successor | hexgame.py:131 | every entry of `edges[u]` is a node, and an arc of the hex rule |
| HexGame.Hex.Play | hexgame.py:100-118 | an occupied cell fails with `InvalidMove(i, j)` and changes nothing; otherwise only cell (i, j) becomes the mover's colour, the winner is the mover exactly when the mover now joins their sides (else unchanged), the turn passes even after a win, and the winner is returned |
| HexGame.Hex.CheckWinner | hexgame.py:120-123 | true exactly when the player to move joins their sides: Left–Right for BLUE, Top–Bottom for RED |
| HexGame.Hex.IsConnected | hexgame.py:125-129 | `_is_connected(s, t, p)` from an empty `marked` is true exactly when t is reachable from s through border nodes and p's cells |
| HexGame.Hex.IsConnectedFrom | hexgame.py:125-142 | the recursive search terminates because `marked` grows; a true answer comes with a route, and a false one leaves a marked set that no route leaves |
| HexGame.Hex.Steps | hexgame.py:133-139 | the search may step onto k exactly when k is a border node or a cell of the player |
| HexGame.RouteCons | hexgame.py:135-141 | a route from a successor, prefixed with the current node, is a route from the current node |
| HexGame.ClosedAround | hexgame.py:131-142 | after all successors are scanned without success, the marked set is closed under steps and excludes the target |
| HexGame.NoRouteOut | hexgame.py:142 | a marked set closed under steps that holds s and not t proves that t is unreachable from s |
| HexGame.Range | hexgame.py:74 | the node numbers below k, with exactly k of them |
| HexGame.RouteGivesChain | hexgame.py:120-123 | a winning route crosses a chain of the player's adjacent cells from their first side to their last |
| HexGame.ChainGivesRoute | hexgame.py:120-123 | a chain of the player's adjacent cells from first side to last gives a winning route |
| HexGame.WinsIffChain | hexgame.py:120-123 | a win is exactly a chain of the player's cells joining their two sides |
| HexGame.BlueColumnIsNoWin | hexgame.py:93-95 | on a 2×2 board, BLUE holding column 0 has not won, because BLUE joins column 0 to column N-1 |
| HexGame.BlueRowWins | hexgame.py:93-95 | on a 2×2 board, BLUE holding row 0 has won |
| HexGame.ParseCells | hexgame.py:39 | a successful parse of a row has one integer per field |
| HexGame.ParseRows | hexgame.py:39-40 | a successful parse has one row per `#` field, each being the parse of its fields |
| HexGame.Decode | hexgame.py:38-44 | a decoded board has at least one row, as many rows as its first row has cells, and no empty row |
| HexGame.Hex.CreateFromStr | hexgame.py:31-45 | fails exactly when the text does not decode, with that error; otherwise a fresh board of the decoded size, grid and winner, with BLUE to move |
| HexGame.DecodeEncode | hexgame.py:144-148 | `create_from_str(serialize())` restores a non-empty square non-negative grid and the winner, except that a winner of 0 reads back as none |
| HexGame.EmptyBoardUnreadable | hexgame.py:144-148 | a board with no rows serializes to `/`, which `create_from_str` rejects because its one row holds no integer |
| HexGame.WinnerField | hexgame.py:147 | the winner field is empty exactly when the winner is none or 0, holds no `/`, and otherwise reads back as the winner |
| HexGame.RowRoundTrip | hexgame.py:39 | one row written with `-` reads back as itself |
| HexGame.ParseCellsOfTexts | hexgame.py:39 | the `str()` texts of a row's cells parse back to the row |
| HexGame.ParseRowsOfTexts | hexgame.py:39-40 | the row texts of a grid parse back to the grid |
| HexGame.GridChars | hexgame.py:148 | the text of a non-negative grid holds only digits, `-` and `#`, so it never contains `/` |
| HexGame.RowChars | hexgame.py:148 | the text of a non-negative row holds only digits and `-` |
| HexGame.NatText | hexgame.py:148 | `str()` of a non-negative integer is made of digits |
| HexGame.RaggedAccepted | hexgame.py:41 | only the first row's length is checked: `"/0-0#0"` is accepted as a ragged board |
| HexGame.ShortGridRejected | hexgame.py:41 | `"/0-0"` (one row of two cells) is rejected as a bad dimension |
| PyText.IntRoundTrip | hexgame.py:39 | `int(str(x)) == x` for every integer |
| PyText.IntToStringInjective | hexgame.py:148 | different integers have different `str()` texts |
| PyText.SplitJoin | hexgame.py:39-40 | splitting a join of separator-free parts gives back the parts |
| PyText.JoinSplit | hexgame.py:38-40 | joining the parts of a split gives back the text |
| PyText.DigitsValueOfNat | hexgame.py:148 | the digits of `str(n)` denote n |
| PyText.NatToString | hexgame.py:148 | `str()` of a natural is a non-empty digit string |
| PyText.IntToString | hexgame.py:148 | `str()` of an integer is digits with an optional leading `-`, ending in a digit |
| PyText.Split | hexgame.py:38 | `split` gives at least one part, none holding the separator |
| DjikstraGraph.Graph.constructor | djikstra.py:26-28 | a new graph has no adjacency lists and no weights |
| DjikstraGraph.Graph.AddEdge | djikstra.py:30-35 | each end gets the other appended to its list, and both directed pairs get the weight |
| DjikstraGraph.AddEdgeKeeps | djikstra.py:30-35 | `add_edge` keeps the adjacency lists matching the weight keys, and keeps the weights symmetric |
| DjikstraGraph.AdjAfterAdd | djikstra.py:32 | appending b to a's list adds only the pair (a, b) to what is listed |
| DjikstraGraph.KeyRoundTrip | djikstra.py:326-328 | splitting an `"i#j"` key at `#` and parsing both halves gives back (i, j) |
| DjikstraGraph.KeyInjective | djikstra.py:110-111 | different cells have different keys |
| DjikstraGraph.NoHashInInt | djikstra.py:110 | `str()` of an integer contains no `#` |
| DjikstraGraph.Tier | djikstra.py:108-271 | a cell's tier is 0 for the acting player, 1 for empty and 2 for the opponent |
| DjikstraGraph.Weight | djikstra.py:113-119 | the nested `if` choosing a weight adds the neighbour's tier to the base |
| DjikstraGraph.RuleEdges | djikstra.py:108-271 | an edge added from a non-opponent cell weighs tier(a)+tier(b), read either way |
| DjikstraGraph.LinkTo | djikstra.py:111-119 | one neighbour test: the edge is added exactly when the neighbour is on the board, with the rule's weight |
| DjikstraGraph.LinkTwo | djikstra.py:111-189 | two consecutive neighbour tests of the source |
| DjikstraGraph.LinkCell | djikstra.py:108-271 | after one cell, it is joined to every on-board 8-neighbour, with rule weights |
| DjikstraGraph.AllNear | djikstra.py:112-189 | the eight guards of the source together cover exactly the on-board 8-neighbours |
| DjikstraGraph.SoundAfterAdd | djikstra.py:30-35 | writing a rule weight both ways keeps every weight a rule weight |
| DjikstraGraph.CompleteStep | djikstra.py:106-108 | after cell (i, j), every cell before it in row-major order is fully joined |
| DjikstraGraph.RowDone | djikstra.py:106-107 | a finished row carries over to the start of the next one |
| DjikstraGraph.MakeGraph | djikstra.py:104-272 | the graph joins exactly distinct on-board 8-neighbours, not both of them opponent cells, with weight tier(a)+tier(b); the lists match the weights |
| DjikstraGraph.WeightRange | djikstra.py:108-271 | every weight lies between 0 and 3, and a weight below 2 touches one of the player's cells |
| DjikstraGraph.NoOwnCellsWeights | djikstra.py:190-271 | when the acting player owns no cells, every weight is 2 or 3 |
| DjikstraGraph.RuleSymmetric | djikstra.py:108-271 | re-adding a pair from the other end writes the same weight |
| DjikstraSearch.PathCostNonNegative | djikstra.py:285 | with non-negative weights, a walk costs at least 0 |
| DjikstraSearch.PrefixCost | djikstra.py:285 | a prefix of a walk costs no more than the walk |
| DjikstraSearch.PathCostCons | djikstra.py:285 | extending a walk at the front by an edge adds that edge's weight |
| DjikstraSearch.CurrentSettled | djikstra.py:296 | the cheapest unvisited entry is the true distance: no walk to it is cheaper |
| DjikstraSearch.Exit | djikstra.py:293-296 | a walk from inside a set to outside it has a step that leaves the set |
| DjikstraSearch.ExitCost | djikstra.py:293-296 | the cost up to the exit step bounds the whole walk's cost from below |
| DjikstraSearch.NoWayOut | djikstra.py:293-295 | an empty frontier with the end unvisited means the end is unreachable |
| DjikstraSearch.TreeAfterUpdate | djikstra.py:286-291 | recording `(current, weight)` keeps every entry the cost of a predecessor walk |
| DjikstraSearch.MinExists | djikstra.py:296 | a non-empty frontier has an entry of least distance |
| DjikstraSearch.ListedBoth | djikstra.py:281-285 | a node is in `graph.edges[a]` exactly when `(a, b)` has a weight |
| DjikstraSearch.RelaxEdge | djikstra.py:285-291 | `next` gains a record, no other record changes, a new node is recorded at the new distance, and a known one is replaced only by a strictly shorter distance from `current` |
| DjikstraSearch.RelaxNeighbour | djikstra.py:284-291 | one pass of the inner loop keeps the relaxation invariant |
| DjikstraSearch.RelaxStep | djikstra.py:284-291 | the relaxation invariant survives one destination |
| DjikstraSearch.RelaxStart | djikstra.py:284 | the relaxation invariant holds before the first destination |
| DjikstraSearch.RelaxDone | djikstra.py:284-291 | after all destinations, every neighbour's entry is at most the current distance plus the edge weight |
| DjikstraSearch.ImproveBounds | djikstra.py:287-291 | an update keeps visited entries and keeps every unvisited distance at least the current one |
| DjikstraSearch.ImproveDone | djikstra.py:287-291 | an update keeps earlier neighbours relaxed and relaxes the new one |
| DjikstraSearch.ImproveKeeps | djikstra.py:284-291 | the update of one neighbour keeps the whole relaxation invariant |
| DjikstraSearch.Relax | djikstra.py:281-291 | the inner loop keeps visited entries, only lowers distances, keeps predecessor walks, and leaves every neighbour relaxed |
| DjikstraSearch.RankedAfter | djikstra.py:299-302 | visiting a node keeps every predecessor visited before its successor, so the predecessor chain ends |
| DjikstraSearch.RelaxedAfter | djikstra.py:280-291 | after visiting, every visited node's edges are relaxed |
| DjikstraSearch.Visit | djikstra.py:279-296 | one outer iteration either proves the end unreachable or picks the next node with the search invariant kept |
| DjikstraSearch.SearchStart | djikstra.py:275-277 | `{initial: (None, 0)}` with nothing visited satisfies the search invariant |
| DjikstraSearch.Shrinks | djikstra.py:279-280 | each visit reduces the unvisited part of the finite node set, so the loop ends |
| DjikstraSearch.Explore | djikstra.py:274-296 | the outer loop either proves the end unreachable or settles the end at its true distance |
| DjikstraSearch.Reconstruct | djikstra.py:298-303 | following predecessors back and reversing gives a walk from initial to end whose cost is the end's distance |
| DjikstraSearch.Djikstra | djikstra.py:274-304 | "Route Not Possible" exactly when the end is unreachable; otherwise a walk from initial to end, no costlier than any other such walk |
| DjikstraChoice.Weigh | djikstra.py:331-335 | `weigh` sums the weights of all consecutive pairs except the last |
| DjikstraChoice.ScoreAndCost | djikstra.py:331-335 | the score is 0 for walks of length at most 2, and the full cost minus the last edge otherwise |
| DjikstraChoice.ScoreAtMostCost | djikstra.py:331-335 | with non-negative weights, 0 ≤ score ≤ cost |
| DjikstraChoice.CandidateRowPairs | djikstra.py:309-316 | one row of the nested loop asks exactly the pairs of that start node |
| DjikstraChoice.CandidateRowsPairs | djikstra.py:308-316 | the first m rows ask exactly the side pairs with start index below m |
| DjikstraChoice.CandidatesAreSidePairs | djikstra.py:308-316 | `find_best` asks exactly every (first side, opposite side) pair, size² of them: column 0 to column N-1 for BLUE, row 0 to row N-1 otherwise |
| DjikstraChoice.CandidateCount | djikstra.py:308-316 | m rows make m·size candidates |
| DjikstraChoice.RowCount | djikstra.py:310-311 | one row makes size candidates |
| DjikstraChoice.SoundNonNegative | djikstra.py:108-271 | a graph of rule weights has no negative weight |
| DjikstraChoice.WalkCells | djikstra.py:326-328 | every node of a walk from a cell key is the key of an on-board cell |
| DjikstraChoice.AnsweredAppend | djikstra.py:311 | appending an answer keeps each answer matched to its pair |
| DjikstraChoice.AskAll | djikstra.py:307-316 | `lst` holds, pair by pair, a shortest walk or "Route Not Possible" exactly when there is none |
| DjikstraChoice.Values | djikstra.py:318-324 | the walks of an all-found list, in order |
| DjikstraChoice.PickCheapest | djikstra.py:318-324 | the selected index has the least score, and none before it scores the same |
| DjikstraChoice.CandidatePathCells | djikstra.py:326-328 | every node of a candidate's walk decodes to an on-board cell |
| DjikstraChoice.AllReachable | djikstra.py:311-316 | an all-found list means every pair is reachable |
| DjikstraChoice.SomeUnreachable | djikstra.py:311-316 | a "Route Not Possible" in the list means some pair is unreachable |
| DjikstraChoice.FoundShortest | djikstra.py:311-316 | each found walk is a shortest walk for its pair |
| DjikstraChoice.FindBest | djikstra.py:306-329 | fails exactly when the board is empty or some side pair is unreachable; otherwise it returns the on-board cell of a node of the first cheapest shortest walk |
| DjikstraClient.Clip | djikstra.py:82 | the square part of the received grid the graph is built from, with the same cells |
| DjikstraClient.PlanTurn | djikstra.py:81-84 | builds the move graph of the board (every allowed edge, each with its rule weight); fails exactly when a row is short, the board is empty or some side pair is unreachable, with the matching crash; otherwise the move is the cell named by a node of the first cheapest-scoring shortest walk `find_best` ranks |
| DjikstraClient.Respond | djikstra.py:81-96 | in PLAYING it moves on the held board, then reads in WAITING_FOR_ACK; the step is the one `Track` takes over the lines read, the board moved on is recorded, and a halt is the end of input, a line whose board does not decode, or a board planning gives up on |
| DjikstraClient.Round | djikstra.py:53-97 | one pass of the loop reads at least one line unless it stops; it ends where `Track` over the lines read ends, records the board moved on, and halts only out of input, on an undecodable board, or on a board planning gives up on |
| DjikstraClient.Run | djikstra.py:46-101 | the loop stops in END_STATE or CONNECTION_REFUSED at the first line that leads there, runs out of input, crashes on the first undecodable board, or crashes in PLAYING on a board planning gives up on; it sends one move each time it is in PLAYING, each the planned cell of the board then held, with BLUE to move |
| ClientProtocol.After | random_client.py:41 | `message[n:]` is the rest of the message after its first n characters, or empty |
| ClientProtocol.Receive | random_client.py:36-86 | only WAITING_FOR_ACK stays in WAITING_FOR_ACK, final states ignore every line, and a board is read only on a change of state |
| ClientProtocol.Transitions | djikstra.py:53-96 | INIT+Start→START, INIT+TooManyPlayers→CONNECTION_REFUSED, START/WAITING+Play→PLAYING, +End→END_STATE, WAITING_FOR_ACK+Ack→WAITING_FOR_ADVERSARY_MOVE, +InvalidMove→PLAYING, and PLAYING→WAITING_FOR_ACK after sending |
| ClientProtocol.OtherTagsIgnored | djikstra.py:53-96 | any other line leaves the state unchanged |
| ClientProtocol.EndIgnoredWhileAwaitingAck | random_client.py:75-86 | "End" is ignored in WAITING_FOR_ACK |
| ClientProtocol.TerminalAbsorbing | random_client.py:35 | END_STATE and CONNECTION_REFUSED are never left |
| ClientProtocol.FeedOneMore | random_client.py:35-86 | the state after one more line is the transition from the settled state |
| ClientProtocol.Settle | random_client.py:23-27 | after sending its move the client is never in PLAYING; any other state is kept |
| ClientProtocol.TrackOneMore | random_client.py:35-86 | one more line: the step from the state and board the earlier lines led to, and the board moved on before it is recorded |
| ClientProtocol.TrackGo | random_client.py:35-86 | while the client reads on, its state is the one the transitions give, and it holds a board from START on, rebuilt with BLUE to move |
| ClientProtocol.TrackHalts | random_client.py:41-80 | the reads stop only with a `BadBoard` crash on a line whose board does not decode |
| ClientProtocol.ReadOneMore | random_client.py:37-86 | reading line n is the step `Absorb` takes; a stop there is a `BadBoard` crash on that line |
| ClientProtocol.PlaysRebuilt | hexgame.py:38-45 | every board the client moves on has as many rows as its size and BLUE to move |
| ClientProtocol.PlainGame | random_client.py:35-86 | Start, Play, Ack, End ends the client in END_STATE |
| ClientProtocol.Refused | random_client.py:45-47 | "TooManyPlayers" ends the client in CONNECTION_REFUSED |
| ClientProtocol.SecondPlayThenEnd | random_client.py:48-86 | Start, Play, Ack, Play, End leaves the client waiting for an ack, not in END_STATE |
| ClientProtocol.FirstChar | random_client.py:39 | a message with a non-empty prefix starts with that prefix's first character |
| ClientProtocol.Tagged | random_client.py:39 | a tag followed by anything starts with that tag |
| ClientProtocol.MoveLineSplits | random_client.py:25 | the line `"row#col\n"` splits at `#` into `str(row)` and `str(col)` + newline |
| ClientProtocol.Read | random_client.py:37-62 | a read gives the transition's state, and decodes the board it carries or keeps the held one; a bad board crashes with its decoding error |
| ClientProtocol.ReadNext | random_client.py:37-86 | reads the next line in the state reached, or in WAITING_FOR_ACK once the move is sent, and takes the step `Track` takes; stops out of input when no line is left, and crashes only on a line whose board does not decode |
| ClientProtocol.Await | random_client.py:36-62 | the INIT and START/WAITING reads: the step `Track` takes over the lines read, no move sent; a halt is the end of input or an undecodable board; when nothing is read the state is PLAYING or WAITING_FOR_ACK |
| RandomClient.EmptyCells | random_client.py:66-70 | the list holds exactly the EMPTY cells, in row-major order |
| RandomClient.EmptyCellsDistinct | random_client.py:66-70 | no cell is listed twice |
| RandomClient.PlayTurn | random_client.py:63-74 | the chosen move is an empty cell of the board; it fails exactly when a row is short or no cell is empty |
| RandomClient.Respond | random_client.py:63-86 | in PLAYING it moves on the held board, then reads in WAITING_FOR_ACK; the step is the one `Track` takes over the lines read, the board moved on is recorded, and a halt is the end of input, an undecodable board, or a board with a short row or no empty cell |
| RandomClient.Round | random_client.py:35-86 | one pass of the loop reads at least one line unless it stops; it ends where `Track` over the lines read ends, records the board moved on, halts only out of input, on an undecodable board or on a board with a short row or no empty cell, and a move sent is an empty cell |
| RandomClient.Run | random_client.py:29-90 | the loop stops in END_STATE or CONNECTION_REFUSED at the first line that leads there, runs out of input, crashes on the first undecodable board, or crashes in PLAYING on a board with a short row or no empty cell; it sends one `"row#col\n"` each time it is in PLAYING, an empty cell of the board then held |
| HexGameServer.Registrations | hexgame_server.py:25-32 | at most as many players are registered as have arrived |
| HexGameServer.Admit | hexgame_server.py:25-36 | a connection is refused exactly when two players are in, and the second one admitted starts the game |
| HexGameServer.SecondArrivalStarts | hexgame_server.py:25-36 | at most two players register; the second arrival starts the game and later ones are refused |
| HexGameServer.Lobby.constructor | hexgame_server.py:99 | the server starts with no connections |
| HexGameServer.Lobby.Connect | hexgame_server.py:25-36 | with two players in, "TooManyPlayers" and nothing changes; otherwise the connection is appended, and the game starts exactly when it makes two |
| HexGameServer.Players | hexgame_server.py:43-44 | BLUE and RED sit at distinct connections 0 and 1 |
| HexGameServer.Wrap | hexgame_server.py:71 | a Python list index from -size to size-1 names a row or column, negative ones counting from the end |
| HexGameServer.ParseMove | hexgame_server.py:67-71 | a parsed move is an on-board cell; a wrong field count is reported as such |
| HexGameServer.ClientMoveRead | hexgame_server.py:67 | the line a client sends for (row, col) is read back as (row, col) |
| HexGameServer.ReadsNumbers | hexgame_server.py:67-71 | `"x#y"` is read as the wrapped cell (x, y) |
| HexGameServer.NegativeIndices | hexgame_server.py:71 | `"(row-size)#(col-size)"` names cell (row, col) |
| HexGameServer.NumberBeforeNewline | hexgame_server.py:67 | `int()` ignores the trailing newline |
| HexGameServer.TwoNumbers | hexgame_server.py:67 | two numeric fields parse to two integers |
| HexGameServer.ReadsCell | hexgame_server.py:67-71 | two in-range numbers read as their wrapped cell |
| HexGameServer.SplitPair | hexgame_server.py:67 | `a#b` splits into a and b when neither holds `#` |
| HexGameServer.NoHash | hexgame_server.py:67 | `str()` of an integer holds no `#` |
| HexGameServer.Played | hexgame.py:114-117 | `play` on an empty cell keeps the board well-formed |
| HexGameServer.Prompt | hexgame_server.py:54-56 | the turn starts with one "Play" line, to the player to move |
| HexGameServer.Placed | hexgame_server.py:70-78 | a move keeps the board well-formed |
| HexGameServer.Reply | hexgame_server.py:66-78 | a read line leaves a well-formed board when it does not end the coroutine |
| HexGameServer.Answer | hexgame_server.py:57-78 | a turn's answer to a line or a timeout leaves a well-formed board |
| HexGameServer.AckToMover | hexgame_server.py:70-74 | a valid move fills the cell with the mover's colour, passes the turn, and "Ack" goes to the player who was prompted |
| HexGameServer.InvalidMoveRetries | hexgame_server.py:75-78 | an occupied cell leaves the board unchanged and sends "InvalidMove" to the player who was prompted |
| HexGameServer.TimeoutLoses | hexgame_server.py:60-65 | a timeout makes the opponent the winner and leaves grid and turn unchanged |
| HexGameServer.Forfeit | hexgame_server.py:60-65 | after a timeout the winner is decided and is not the player to move; grid and turn are unchanged |
| HexGameServer.StonesStay | hexgame_server.py:57-78 | a turn never changes a filled cell and fills at most the cell it read, with the mover's colour |
| HexGameServer.CountRowSet | hexgame_server.py:71 | filling an empty cell adds one to that colour's count in the row and nothing to others |
| HexGameServer.CountSet | hexgame_server.py:71 | filling an empty cell adds one to that colour's count on the board |
| HexGameServer.EmptyCounts | hexgame_server.py:49 | the opening board has no stones |
| HexGameServer.EmptyRowCount | hexgame_server.py:49 | an empty row has no stones |
| HexGameServer.EmptyTail | hexgame_server.py:49 | any run of rows of the opening board has no stones |
| HexGameServer.Opening | hexgame_server.py:49 | the game starts from a well-formed board with no winner |
| HexGameServer.OpeningBalanced | hexgame_server.py:49 | the opening board has BLUE to move and equal stone counts |
| HexGameServer.BalanceKept | hexgame_server.py:53-78 | every turn keeps BLUE's stone count equal to RED's, or one more when RED is to move |
| HexGameServer.SessionStep | hexgame_server.py:53-78 | the loop is the prompt, then the answer, then the rest of the loop |
| HexGameServer.EndsKept | hexgame_server.py:80-83 | anything followed by the End lines still ends with them |
| HexGameServer.WonEndsWithEnd | hexgame_server.py:53-83 | a won game has a BLUE or RED winner and ends by sending "End" to both connections |
| HexGameServer.Concatenated | hexgame_server.py:53-78 | well-addressed, End-free message runs stay so when joined |
| HexGameServer.PromptMessages | hexgame_server.py:54-56 | the prompt goes to connection 0 or 1 and is not "End" |
| HexGameServer.ReplyMessages | hexgame_server.py:70-78 | "Ack" and "InvalidMove" go to connection 0 or 1 and are not "End" |
| HexGameServer.TurnMessages | hexgame_server.py:54-78 | a whole turn sends only addressed, non-"End" lines |
| HexGameServer.NoEndBeforeWin | hexgame_server.py:53-83 | every line goes to connection 0 or 1, and "End" is sent only once the game is won |
| HexGameServer.NotEnd | hexgame_server.py:54-74 | "Play …" and "Ack …" lines do not start with "End" |
| HexGameServer.Place | hexgame_server.py:70-78 | `play` on the board object, and the reply, agree with `Placed` |
| HexGameServer.Move | hexgame_server.py:66-78 | the turn for a read line on the board object agrees with `Reply`, and an ending error leaves the board alone |
| HexGameServer.Turn | hexgame_server.py:57-78 | the turn for an event on the board object agrees with `Answer` |
| HexGameServer.OnCourseStep | hexgame_server.py:53-78 | after one more turn the loop's output is still a prefix of the session's |
| HexGameServer.OnCourseStop | hexgame_server.py:53-78 | when the events run out or a line ends the coroutine, what was sent is the whole session |
| HexGameServer.OnCourseWon | hexgame_server.py:53-83 | once the winner is set, the End lines complete the session |
| HexGameServer.Turns | hexgame_server.py:53-83 | the `while not hexboard.winner` loop on the board object sends exactly what `Session` describes, keeps the board valid, and leaves on it the game `LastGame` gives |
| HexGameServer.WonIffDecided | hexgame_server.py:53-83 | the session ends won exactly when the game it leaves has a winner, and it is that winner |
| HexGameServer.HandleGame | hexgame_server.py:40-88 | "Start" with the empty board to both connections, then the session from the opening board |

## Left out

- All asyncio plumbing:
  - `open_connection`, `start_server`, `readline`, `drain`, `close` and the event loop;
  - prints and flushes;
  - the `main` functions and command-line arguments.

  Received lines are input sequences, and sent lines are output sequences.
  `hexsize` is a natural number; a negative `int(sys.argv[1])` is not modelled.
- hexgui.py, the drawing of the board, and runner.py are not part of this model.
- `asyncio.wait_for` timeouts are an event `TimedOut` in the server's input. With `TIMEOUT = None` they never occur in the source.
- A client waiting at the end of its input is stopped with the outcome
  `OutOfInput`. The source would wait on, or spin on empty reads once the
  connection closes.
- The server's `readers` list grows with `writers` and is not modelled separately.
- Integers are unbounded, as in Python.
- Text is modelled as ASCII characters. `int()` accepts surrounding ASCII
  whitespace, an optional sign and ASCII digits. It does not accept
  underscores or non-ASCII digits.
- HexGame.Hex.Play: requires in-range `i` and `j`. Python's negative
  indices and `IndexError` are not modelled here. The server's move parsing
  does model the wrap of negative indices, in HexGameServer.Wrap.
- DjikstraSearch.Djikstra: requires the graph's lists to match its weights
  and its weights to be non-negative. `make_graph` ensures both.
- DjikstraSearch.Djikstra: `min` over the frontier breaks ties by dict
  insertion order. The model allows any closest frontier node, so which
  shortest walk is returned is not pinned down.
- DjikstraChoice.FindBest: proved for a graph built by `make_graph`, with
  the grid as a ghost parameter.
  - When some pair is unreachable, the source passes "Route Not Possible" to
    `weigh` and crashes. The model returns `RouteNotPossible` instead.
  - An empty board, where `lst[0]` fails, gives `NoCandidates`.
- DjikstraChoice.Weigh: modelled as written, skipping the last edge of the
  path, so `find_best` compares scores that leave out the final step.
- A client whose board row is shorter than the board size crashes with
  `ShortRow`. This is how Python's `IndexError` is modelled.
- `random.choice` of a path node can pick any node of the walk, including
  an occupied cell. This is modelled as written.

The model follows the code in these behaviours, which differ from the usual rules of Hex or from what one might expect:

- The engine joins Left to column 0 and column N-1 to Right for BLUE. On a
  2×2 board, BLUE holding (0,0) and (1,0) has not won
  (HexGame.BlueColumnIsNoWin).
- The client ignores "End" while waiting for an ack, so Start, Play, Ack,
  Play, End does not end in END_STATE
  (ClientProtocol.SecondPlayThenEnd).
- The move graph of `make_graph` uses the 8-neighbourhood, not the engine's
  six hex directions.
- `find_best` returns any node of the chosen path, not necessarily an empty
  cell.
- `create_from_str` builds a fresh board, so the djikstra client always
  plans with BLUE to move (DjikstraClient.Run).
