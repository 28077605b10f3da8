/** MorpionClient: the session fields it updates in place, the packet handler, the per-tick
    receive and the construction of an outgoing move. The socket is not modelled as an object:
    connected stands for a nonzero local port, and the statuses it reports are a parameter. */
module Client {
  import opened Protocol
  import opened Session

  class MorpionClient {
    var phase: MorpionPhase
    var playerNumber: int
    /** The fixed std::array<Move, 9> of recorded moves; only its first currentMoveIndex
        slots hold received moves. */
    const moves: array<Move>
    var currentMoveIndex: nat
    var endMessage: string
    /** The socket has a local port, i.e. a connection attempt has bound it. */
    var connected: bool

    ghost predicate Valid()
      reads this
    {
      moves.Length == BoardCapacity && currentMoveIndex <= BoardCapacity
    }

    /** The session the fields stand for. */
    ghost function State(): (s: SessionState)
      reads this, moves
      requires Valid()
      ensures s.Valid()
    {
      SessionState(phase, playerNumber, moves[..], currentMoveIndex, endMessage)
    }

    /** A fresh client, before any connection: phase CONNECTION, no recorded move. */
    constructor ()
      ensures Valid() && fresh(moves) && !connected
      ensures phase == Connection && currentMoveIndex == 0 && endMessage == ""
    {
      phase := Connection;
      playerNumber := 0;
      moves := new Move[BoardCapacity](_ => Move(Vector2i(0, 0), 0));
      currentMoveIndex := 0;
      endMessage := "";
      connected := false;
    }

    function GetPhase(): (p: MorpionPhase)
      reads this, moves
      requires Valid()
      ensures p == State().phase
    {
      phase
    }

    function GetPlayerNumber(): (n: int)
      reads this, moves
      requires Valid()
      ensures n == State().playerNumber
    {
      playerNumber
    }

    function GetMoves(): (ms: seq<Move>)
      reads this, moves
      requires Valid()
      ensures |ms| == BoardCapacity && ms == State().moves
    {
      moves[..]
    }

    function GetMoveIndex(): (k: nat)
      reads this, moves
      requires Valid()
      ensures k <= BoardCapacity && k == State().moveIndex
    {
      currentMoveIndex
    }

    function GetEndMessage(): (m: string)
      reads this, moves
      requires Valid()
      ensures m == State().endMessage
    {
      endMessage
    }

    /** Whether the socket has a local port. */
    function IsConnected(): (c: bool)
      reads this
      ensures c <==> connected
    {
      connected
    }

    /** Applies one decoded packet to the session fields. */
    method ReceivePacket(packet: Packet)
      requires Valid() && Admissible(State(), packet)
      modifies this, moves
      ensures Valid() && State() == Receive(old(State()), packet)
      ensures connected == old(connected)
    {
      match packet
      case GameInitPacket(n) =>
        playerNumber := n;
        phase := Game;
      case MovePacket(n, position) =>
        if phase != Game {
          return;
        }
        moves[currentMoveIndex] := Move(position, n);
        currentMoveIndex := currentMoveIndex + 1;
      case EndPacket(endType) =>
        if phase != Game {
          return;
        }
        match endType {
          case Stalemate =>
            endMessage := "Stalemate";
          case WinP1 =>
            endMessage := if playerNumber == 0 then "You won" else "You lost";
          case WinP2 =>
            endMessage := if playerNumber == 1 then "You won" else "You lost";
          case Error =>
            endMessage := "Error";
          case Unrecognised(_) =>
        }
        phase := End;
      case UnknownPacket(_) =>
    }

    /** One tick: when connected, receives until the socket reports something other than
        Partial, and acts on that status. Returns how many statuses were read. */
    method Update(statuses: seq<Status>) returns (consumed: nat)
      requires Valid()
      requires connected ==> HasTerminalStatus(statuses)
      requires connected && HasTerminalStatus(statuses) && statuses[FirstNonPartial(statuses)].Done? ==>
        Admissible(State(), statuses[FirstNonPartial(statuses)].packet)
      modifies this, moves
      ensures Valid()
      ensures !old(connected) ==> consumed == 0 && unchanged(this, moves)
      ensures old(connected) ==> consumed == FirstNonPartial(statuses) + 1
      ensures old(connected) && statuses[consumed - 1].Done? ==>
        connected && State() == Receive(old(State()), statuses[consumed - 1].packet)
      ensures old(connected) && statuses[consumed - 1].Disconnected? ==>
        !connected && State() == old(State())
      ensures old(connected) && !statuses[consumed - 1].Done? && !statuses[consumed - 1].Disconnected? ==>
        connected && State() == old(State())
    {
      consumed := 0;
      if connected {
        var status := statuses[0];
        consumed := 1;
        while status.Partial?
          invariant 1 <= consumed <= FirstNonPartial(statuses) + 1
          invariant status == statuses[consumed - 1]
          invariant !status.Partial? ==> consumed == FirstNonPartial(statuses) + 1
          decreases |statuses| - consumed
        {
          status := statuses[consumed];
          consumed := consumed + 1;
        }
        if status.Done? {
          ReceivePacket(status.packet);
        }
        if status.Disconnected? {
          connected := false;
        }
      }
    }

    /** The packet sent for a move of the local player at the given position. */
    method SendNewMove(position: Vector2i) returns (packet: Packet)
      ensures packet == MovePacket(playerNumber, position)
    {
      packet := MovePacket(playerNumber, position);
    }
  }
}
