# Morpion client session model

A Dafny model of the client side of a two-player tic-tac-toe ("morpion") game. The client
`MorpionClient` keeps the session in five fields: the phase (CONNECTION, GAME, END), the local
player number, a fixed array of nine recorded moves, the index of the next free slot, and the
end-of-game text. It updates them from packets decoded off its socket. The view `MorpionView`
reads these fields every frame. In the GAME phase it shows the board as a 10-character text and
offers a "Send" button when the move count's parity equals the local player number.

Files:

- `protocol.dfy` (module `Protocol`): decoded packets (`GameInitPacket`, `MovePacket`,
  `EndPacket`, `UnknownPacket`), end types, socket receive statuses, and the first status that
  ends a Partial-retry loop.
- `session.dfy` (module `Session`): the session as a value (`SessionState`), the effect of one
  packet (`Receive`), a run of packets (`Run`, which yields `None` where the C++ client would write
  past the array), and lemmas about runs.
- `client.dfy` (module `Client`): class `MorpionClient`. Its fields are updated in place and
  `moves` is an `array` of nine slots. `ReceivePacket` and `Update` are proved against
  `Session.Receive`.
- `view.dfy` (module `View`): the board text as a function (`BoardText`), the loop that builds it
  (`MorpionView.GameBoard`), lemmas on what each cell shows, and the Send gate.

The model follows the code where it differs from the protocol's stated intent:

- A GAME_INIT packet is applied in every phase. A second one overwrites the player number, and
  one received in END puts the session back into GAME.
- An END packet with an unrecognised end type still moves the phase to END, keeping the old text.
- The client does not check the phase before sending a move; only the view's phase switch keeps
  the Send button out of CONNECTION and END.
- A MOVE received in GAME when all nine slots are used writes past the array. This is the
  precondition `Session.Admissible` of `ReceivePacket`. `Session.Run` returns `None` when a
  packet sequence would reach that write, and `MoveOverflowIsRejected` shows that more moves
  than free slots always do.

## Model

| member | source | states |
|---|---|---|
| Protocol.FirstNonPartial | src/morpion_client.cpp:105-108 | the do-while receive loop stops at the first status that is not Partial: every status before it is Partial, and it exists whenever some non-Partial status is reported |
| Session.EndMessage | src/morpion_client.cpp:74-89 | STALEMATE gives "Stalemate", ERROR gives "Error"; WIN_P1 gives "You won" iff the local player is 0, else "You lost"; WIN_P2 gives "You won" iff the local player is 1, else "You lost"; an unrecognised end type keeps the previous text |
| Session.Receive | src/morpion_client.cpp:36-96 | GAME_INIT sets the player number and phase GAME in any phase, nothing else; MOVE or END outside GAME, and any unknown packet type, change nothing; MOVE in GAME writes position and player into slot moveIndex, increments moveIndex by one, leaves every other slot, the phase, player and text unchanged; END in GAME sets phase END and the end text for the local player; the move index stays within the nine slots |
| Session.Run | src/morpion_client.cpp:60-63 | receiving packets one after another keeps the session well formed (nine slots, index at most nine) whenever no MOVE hits a full array |
| Session.MovesAppendInArrivalOrder | src/morpion_client.cpp:52-64 | N moves received in GAME with N free slots are all taken: the index grows by N, slot moveIndex+i holds the i-th move, all other slots, the phase, player and text are unchanged |
| Session.MoveOverflowIsRejected | src/morpion_client.cpp:60 | in GAME, more moves than free slots always reach a MOVE that would write past the nine-slot array |
| Session.MovesFitIffRoomRemains | src/morpion_client.cpp:52-64 | in GAME, a run of moves can be received exactly when it fits in the free slots |
| Session.OutsideGameOnlyGameInitActs | src/morpion_client.cpp:52-95 | in CONNECTION or END, any sequence of packets without GAME_INIT leaves the session unchanged |
| Session.HistoryIsAppendOnly | src/morpion_client.cpp:60-63 | over any run, the move index never decreases, grows by at most one per packet, and already recorded slots are never overwritten |
| Session.WinIsSeenOppositely | src/morpion_client.cpp:79-84 | a win is reported as "You won" to one seat exactly when it is "You lost" to the other; a stalemate reads the same to both |
| Client.MorpionClient.GetPhase | src/morpion_client.cpp:22-25 | returns the session phase |
| Client.MorpionClient.GetPlayerNumber | src/morpion_client.cpp:127-130 | returns the local player number |
| Client.MorpionClient.GetMoves | src/morpion_client.cpp:147-150 | returns all nine slots of the move array |
| Client.MorpionClient.GetMoveIndex | src/morpion_client.cpp:152-155 | returns the number of recorded moves, which is at most nine |
| Client.MorpionClient.GetEndMessage | src/morpion_client.cpp:157-160 | returns the end-of-game text |
| Client.MorpionClient.ReceivePacket | src/morpion_client.cpp:36-96 | the fields after the call are `Receive` of the fields before it, under the precondition that a MOVE in GAME finds a free slot; the connection is untouched |
| Client.MorpionClient.Update | src/morpion_client.cpp:98-121 | when not connected nothing changes and no status is read; when connected, statuses are read up to and including the first non-Partial one; Done hands its packet to ReceivePacket, Disconnected closes the connection and leaves the session unchanged, any other status changes nothing |
| Client.MorpionClient.IsConnected | src/morpion_client.cpp:27-30 | true exactly when the socket has a local port |
| Client.MorpionClient.SendNewMove | src/morpion_client.cpp:134-137 | builds a MOVE packet carrying the given position and the local player number, and changes no field |
| View.Cell | src/morpion_client.cpp:222 | a position in [0,2]x[0,2] maps to cell y*3+x, one of the nine cells |
| View.Mark | src/morpion_client.cpp:222 | the mark is never blank, and is 'O' exactly for player 0 ('X' for any other number) |
| View.EmptyBoard | src/morpion_client.cpp:215-217 | nine blank cells followed by the NUL terminator |
| View.BoardText | src/morpion_client.cpp:215-223 | the board text is always ten characters with the NUL terminator at index 9 |
| View.BlankIffUntouched | src/morpion_client.cpp:216-223 | a cell is blank iff none of the first moveIndex moves is on it |
| View.LastMoveOnCellShows | src/morpion_client.cpp:219-223 | a cell shows the mark of the last of the first moveIndex moves that is on it, so later moves overwrite earlier ones |
| View.EachMoveShowsItsMark | src/morpion_client.cpp:219-223 | when the recorded moves are on distinct cells, each one's cell shows its player's mark |
| View.TurnOwner | src/morpion_client.cpp:228 | the seat to play is the move count's parity, 0 or 1 |
| View.SendOffered | src/morpion_client.cpp:228 | Send is offered exactly when the local player number equals the parity of the move count |
| View.TurnsAlternate | src/morpion_client.cpp:228 | at every move count exactly one of seats 0 and 1 is offered Send, the seats alternate, and a player number outside {0, 1} is never offered it |
| View.MorpionView.constructor | src/morpion_client.cpp:162-164 | the view holds the client it was given |
| View.MorpionView.GameBoard | src/morpion_client.cpp:215-224 | the for loop over the first moveIndex moves builds exactly `BoardText` of the client's moves, under the condition that every recorded position lies in [0,2]x[0,2] |
| View.MorpionView.GameSendGate | src/morpion_client.cpp:168-237 | Send is offered exactly when the phase is GAME (the only case of the phase switch that draws it) and SendOffered holds of the client's move count and player number; so never in CONNECTION or END |

## Left out

- Socket I/O (`connect`, `setBlocking`, `receive`, `send`, `disconnect`, `getLocalPort`): the socket's statuses are a parameter of `Update`, and `connected` stands for a nonzero local port. `Connect` and the status-reporting switch around it in `DrawImGui` only call the socket and log, so they are not modelled.
- Client.MorpionClient.Update: requires that some non-Partial status eventually arrives when connected; the C++ client would retry forever otherwise.
- Client.MorpionClient.SendNewMove: the send retry loop on Partial is I/O and is not modelled; only the packet construction is.
- The binary (de)serialisation of packets: `morpion_packet.h` is not part of this model. Packets are decoded values, so an undersized or garbled buffer is not represented.
- Integer widths: the field types are declared in `morpion_client.h` and `morpion_packet.h`, which are not part of this model. Player numbers and positions are unbounded integers. The move index cannot wrap, since it stays at most nine.
- Initial field values are also in `morpion_client.h`. The constructor assumes phase CONNECTION, index 0, an empty end text and zeroed move slots.
- View.MorpionView.GameBoard: requires every recorded position to lie in [0,2]x[0,2]; the C++ client computes y*3+x unchecked, and other positions would write other or out-of-range cells.
- Console and error logging, the ImGui widgets (text, input fields, buttons) and the END and CONNECTION windows of `DrawImGui`: user interface and diagnostics.
- `MorpionView::Draw`, `DrawBoard`, `DrawMove`, `DrawCircle`, `DrawCross`, `OnEvent`, `Resize`: rendering and window geometry in floating point.
- `Init` and `Destroy`: their bodies are empty.
