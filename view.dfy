/** What MorpionView's GAME window derives from the client: the 3x3 board as a 10-character
    text (nine cells row by row and a terminating NUL) and whether the Send button is offered. */
module View {
  import opened Protocol
  import opened Session
  import opened Client

  predicate OnBoard(p: Vector2i)
  {
    0 <= p.x <= 2 && 0 <= p.y <= 2
  }

  /** The board cell of a position, row y and column x. */
  function Cell(p: Vector2i): (c: nat)
    requires OnBoard(p)
    ensures c < BoardCapacity
  {
    p.y * 3 + p.x
  }

  /** The mark drawn for a player: 'X' for any nonzero player number, 'O' for player 0. */
  function Mark(playerNumber: int): (m: char)
    ensures m != ' '
    ensures m == 'O' <==> playerNumber == 0
    ensures playerNumber != 0 ==> m == 'X'
  {
    if playerNumber != 0 then 'X' else 'O'
  }

  predicate AllOnBoard(moves: seq<Move>, n: nat)
    requires n <= |moves|
  {
    forall i :: 0 <= i < n ==> OnBoard(moves[i].position)
  }

  /** Nine blank cells and the terminator. */
  function EmptyBoard(): (b: seq<char>)
    ensures |b| == 10 && b[9] == '\0'
    ensures forall c :: 0 <= c < 9 ==> b[c] == ' '
  {
    seq(9, _ => ' ') + ['\0']
  }

  /** The board text after writing the marks of the first n moves in order. */
  function BoardText(moves: seq<Move>, n: nat): (b: seq<char>)
    requires n <= |moves| && AllOnBoard(moves, n)
    ensures |b| == 10 && b[9] == '\0'
    decreases n
  {
    if n == 0 then EmptyBoard()
    else BoardText(moves, n - 1)[Cell(moves[n - 1].position) := Mark(moves[n - 1].playerNumber)]
  }

  /** A cell is blank exactly when none of the first n moves is on it. */
  lemma {:induction false} BlankIffUntouched(moves: seq<Move>, n: nat, c: nat)
    requires n <= |moves| && AllOnBoard(moves, n) && c < BoardCapacity
    ensures BoardText(moves, n)[c] == ' ' <==> forall i :: 0 <= i < n ==> Cell(moves[i].position) != c
    decreases n
  {
    if n > 0 {
      assert AllOnBoard(moves, n - 1);
      BlankIffUntouched(moves, n - 1, c);
    }
  }

  /** Move i is the last of the first n moves that is on cell c. */
  predicate LastOnCell(moves: seq<Move>, n: nat, i: nat, c: nat)
    requires n <= |moves| && AllOnBoard(moves, n) && i < n
  {
    Cell(moves[i].position) == c && forall j :: i < j < n ==> Cell(moves[j].position) != c
  }

  /** A cell shows the mark of the last of the first n moves that is on it. */
  lemma {:induction false} LastMoveOnCellShows(moves: seq<Move>, n: nat, i: nat, c: nat)
    requires n <= |moves| && AllOnBoard(moves, n) && i < n && LastOnCell(moves, n, i, c)
    ensures BoardText(moves, n)[c] == Mark(moves[i].playerNumber)
    decreases n
  {
    if i < n - 1 {
      assert AllOnBoard(moves, n - 1);
      assert Cell(moves[n - 1].position) != c;
      LastMoveOnCellShows(moves, n - 1, i, c);
    }
  }

  predicate DistinctCells(moves: seq<Move>, n: nat)
    requires n <= |moves| && AllOnBoard(moves, n)
  {
    forall i, j :: 0 <= i < j < n ==> Cell(moves[i].position) != Cell(moves[j].position)
  }

  /** When the recorded moves are on different cells (as the server guarantees), each of them
      shows its own player's mark. */
  lemma EachMoveShowsItsMark(moves: seq<Move>, n: nat)
    requires n <= |moves| && AllOnBoard(moves, n) && DistinctCells(moves, n)
    ensures forall i :: 0 <= i < n ==> BoardText(moves, n)[Cell(moves[i].position)] == Mark(moves[i].playerNumber)
  {
    forall i | 0 <= i < n
      ensures BoardText(moves, n)[Cell(moves[i].position)] == Mark(moves[i].playerNumber)
    {
      LastMoveOnCellShows(moves, n, i, Cell(moves[i].position));
    }
  }

  /** The seat whose turn it is by the protocol's convention: move k is played by player k % 2. */
  function TurnOwner(moveIndex: nat): (seat: nat)
    ensures seat < 2
  {
    moveIndex % 2
  }

  /** The Send gate: the button is offered when the move count's parity is the local player. */
  function SendOffered(moveIndex: nat, playerNumber: int): (offered: bool)
    ensures offered <==> playerNumber == TurnOwner(moveIndex)
  {
    moveIndex % 2 == playerNumber
  }

  /** At every move count exactly one of the two seats is offered Send, the seats alternate,
      and a player number outside {0, 1} is never offered it. */
  lemma TurnsAlternate(moveIndex: nat, playerNumber: int)
    ensures SendOffered(moveIndex, 0) != SendOffered(moveIndex, 1)
    ensures SendOffered(moveIndex, 0) == SendOffered(moveIndex + 1, 1)
    ensures !(0 <= playerNumber <= 1) ==> !SendOffered(moveIndex, playerNumber)
  {
  }

  class MorpionView {
    const client: MorpionClient

    constructor (client: MorpionClient)
      ensures this.client == client
    {
      this.client := client;
    }

    /** The board text shown in the GAME window. */
    method GameBoard() returns (board: seq<char>)
      requires client.Valid()
      requires AllOnBoard(client.moves[..], client.currentMoveIndex)
      ensures board == BoardText(client.moves[..], client.currentMoveIndex)
    {
      var text := new char[10](_ => ' ');
      text[9] := '\0';
      var moves := client.GetMoves();
      var n := client.GetMoveIndex();
      for i := 0 to n
        invariant text[..] == BoardText(moves, i)
      {
        var move := moves[i];
        text[move.position.y * 3 + move.position.x] := if move.playerNumber != 0 then 'X' else 'O';
      }
      board := text[..];
    }

    /** Whether DrawImGui offers the Send button: only the GAME case of its phase switch draws
        it, and there only when the gate holds. */
    method GameSendGate() returns (offered: bool)
      requires client.Valid()
      ensures offered <==> client.phase == Game && SendOffered(client.currentMoveIndex, client.playerNumber)
    {
      offered := false;
      match client.GetPhase()
      case Game =>
        offered := client.GetMoveIndex() % 2 == client.GetPlayerNumber();
      case _ =>
    }
  }
}
