/** Decoded protocol messages and the receive statuses of the client's socket.
    Packets are values as they come out of the codec: the binary layout is not modelled. */
module Protocol {

  /** A board position, as sf::Vector2i. */
  datatype Vector2i = Vector2i(x: int, y: int)

  /** How a game ended. Unrecognised stands for a received end type that is none of the four. */
  datatype EndType = Stalemate | WinP1 | WinP2 | Error | Unrecognised(code: int)

  /** One decoded packet, discriminated by its packet type. */
  datatype Packet =
    | GameInitPacket(playerNumber: int)
    | MovePacket(playerNumber: int, position: Vector2i)
    | EndPacket(endType: EndType)
    | UnknownPacket(packetType: int)

  /** What one call to receive on the socket reports; Done carries the packet it read. */
  datatype Status = Done(packet: Packet) | NotReady | Partial | Disconnected | SocketError

  /** The socket eventually reports something other than Partial. */
  predicate HasTerminalStatus(statuses: seq<Status>)
  {
    exists i :: 0 <= i < |statuses| && !statuses[i].Partial?
  }

  /** The position of the first status that ends a receive retry loop. */
  function FirstNonPartial(statuses: seq<Status>): (k: nat)
    requires HasTerminalStatus(statuses)
    ensures k < |statuses| && !statuses[k].Partial?
    ensures forall i :: 0 <= i < k ==> statuses[i].Partial?
  {
    if !statuses[0].Partial? then 0
    else
      assert HasTerminalStatus(statuses[1..]) by {
        var i :| 0 <= i < |statuses| && !statuses[i].Partial?;
        assert statuses[1..][i - 1] == statuses[i];
      }
      1 + FirstNonPartial(statuses[1..])
  }
}
