/** The client's game session as a value, and how one received packet changes it.
    This is the specification the class MorpionClient is proved against. */
module Session {
  import opened Protocol

  /** The number of slots in the move history (a 3x3 board). */
  const BoardCapacity: nat := 9

  datatype MorpionPhase = Connection | Game | End

  /** One recorded move: where it was placed and by which player. */
  datatype Move = Move(position: Vector2i, playerNumber: int)

  datatype Option<T> = None | Some(value: T)

  /** The five fields ReceivePacket reads and writes; moves is the whole fixed array. */
  datatype SessionState = SessionState(
    phase: MorpionPhase,
    playerNumber: int,
    moves: seq<Move>,
    moveIndex: nat,
    endMessage: string)
  {
    predicate Valid()
    {
      |moves| == BoardCapacity && moveIndex <= BoardCapacity
    }
  }

  /** A packet may be handed to ReceivePacket in state s: a move received in GAME needs a
      free slot, since ReceivePacket writes moves_[currentMoveIndex_] without checking the index. */
  predicate Admissible(s: SessionState, p: Packet)
  {
    p.MovePacket? && s.phase == Game ==> s.moveIndex < BoardCapacity
  }

  /** The end-of-game text for an end type, seen by the given player; an unrecognised end
      type keeps the previous text. */
  function EndMessage(endType: EndType, playerNumber: int, previous: string): (m: string)
    ensures endType.Stalemate? ==> m == "Stalemate"
    ensures endType.Error? ==> m == "Error"
    ensures endType.WinP1? ==> m in {"You won", "You lost"} && (m == "You won" <==> playerNumber == 0)
    ensures endType.WinP2? ==> m in {"You won", "You lost"} && (m == "You won" <==> playerNumber == 1)
    ensures endType.Unrecognised? ==> m == previous
  {
    match endType
    case Stalemate => "Stalemate"
    case WinP1 => if playerNumber == 0 then "You won" else "You lost"
    case WinP2 => if playerNumber == 1 then "You won" else "You lost"
    case Error => "Error"
    case Unrecognised(_) => previous
  }

  /** The new session after one decoded packet. */
  function Receive(s: SessionState, p: Packet): (r: SessionState)
    requires s.Valid() && Admissible(s, p)
    ensures r.Valid()
    // GAME_INIT: no phase guard, even in END; only the seat and the phase change.
    ensures p.GameInitPacket? ==> r == s.(phase := Game, playerNumber := p.playerNumber)
    // MOVE outside GAME: dropped.
    ensures p.MovePacket? && s.phase != Game ==> r == s
    // MOVE in GAME: fills the next slot and nothing else.
    ensures p.MovePacket? && s.phase == Game ==>
      && r.moveIndex == s.moveIndex + 1
      && r.moves[s.moveIndex] == Move(p.position, p.playerNumber)
      && (forall i :: 0 <= i < BoardCapacity && i != s.moveIndex ==> r.moves[i] == s.moves[i])
      && r.phase == Game && r.playerNumber == s.playerNumber && r.endMessage == s.endMessage
    // END outside GAME: dropped.
    ensures p.EndPacket? && s.phase != Game ==> r == s
    // END in GAME: always finishes the game, with the text for the local player.
    ensures p.EndPacket? && s.phase == Game ==>
      r == s.(phase := End, endMessage := EndMessage(p.endType, s.playerNumber, s.endMessage))
    // Any other packet type: no effect.
    ensures p.UnknownPacket? ==> r == s
  {
    match p
    case GameInitPacket(n) => s.(playerNumber := n, phase := Game)
    case MovePacket(n, position) =>
      if s.phase != Game then s
      else s.(moves := s.moves[s.moveIndex := Move(position, n)], moveIndex := s.moveIndex + 1)
    case EndPacket(endType) =>
      if s.phase != Game then s
      else s.(endMessage := EndMessage(endType, s.playerNumber, s.endMessage), phase := End)
    case UnknownPacket(_) => s
  }

  /** Receives the packets in order; None when some packet would write past the move array. */
  function Run(s: SessionState, ps: seq<Packet>): (r: Option<SessionState>)
    requires s.Valid()
    ensures r.Some? ==> r.value.Valid()
    decreases |ps|
  {
    if ps == [] then Some(s)
    else if !Admissible(s, ps[0]) then None
    else Run(Receive(s, ps[0]), ps[1..])
  }

  predicate AllMoves(ps: seq<Packet>)
  {
    forall i :: 0 <= i < |ps| ==> ps[i].MovePacket?
  }

  predicate NoGameInit(ps: seq<Packet>)
  {
    forall i :: 0 <= i < |ps| ==> !ps[i].GameInitPacket?
  }

  /** Moves received in GAME are recorded in arrival order, one slot each, after the ones
      already there, as long as the board has room. */
  lemma {:induction false} MovesAppendInArrivalOrder(s: SessionState, ps: seq<Packet>)
    requires s.Valid() && s.phase == Game && AllMoves(ps)
    requires s.moveIndex + |ps| <= BoardCapacity
    ensures Run(s, ps).Some?
    ensures var r := Run(s, ps).value;
      && r.phase == Game && r.playerNumber == s.playerNumber && r.endMessage == s.endMessage
      && r.moveIndex == s.moveIndex + |ps|
      && (forall i :: 0 <= i < |ps| ==> r.moves[s.moveIndex + i] == Move(ps[i].position, ps[i].playerNumber))
      && (forall j :: 0 <= j < BoardCapacity && !(s.moveIndex <= j < s.moveIndex + |ps|) ==> r.moves[j] == s.moves[j])
    decreases |ps|
  {
    if ps != [] {
      var s' := Receive(s, ps[0]);
      var rest := ps[1..];
      assert AllMoves(rest) by {
        forall i | 0 <= i < |rest| ensures rest[i].MovePacket? { assert rest[i] == ps[i + 1]; }
      }
      MovesAppendInArrivalOrder(s', rest);
      var r := Run(s, ps).value;
      assert r == Run(s', rest).value;
      forall i | 0 <= i < |ps|
        ensures r.moves[s.moveIndex + i] == Move(ps[i].position, ps[i].playerNumber)
      {
        if i > 0 {
          assert rest[i - 1] == ps[i];
          assert s'.moveIndex + (i - 1) == s.moveIndex + i;
        }
      }
    }
  }

  /** The hazard made visible: in GAME, more moves than free slots always reach a MOVE that
      ReceivePacket cannot take. */
  lemma {:induction false} MoveOverflowIsRejected(s: SessionState, ps: seq<Packet>)
    requires s.Valid() && s.phase == Game && AllMoves(ps)
    requires s.moveIndex + |ps| > BoardCapacity
    ensures Run(s, ps) == None
    decreases |ps|
  {
    if s.moveIndex < BoardCapacity {
      var rest := ps[1..];
      assert AllMoves(rest) by {
        forall i | 0 <= i < |rest| ensures rest[i].MovePacket? { assert rest[i] == ps[i + 1]; }
      }
      MoveOverflowIsRejected(Receive(s, ps[0]), rest);
    }
  }

  /** In GAME, a run of moves goes through exactly when it fits on the board. */
  lemma MovesFitIffRoomRemains(s: SessionState, ps: seq<Packet>)
    requires s.Valid() && s.phase == Game && AllMoves(ps)
    ensures Run(s, ps).Some? <==> s.moveIndex + |ps| <= BoardCapacity
  {
    if s.moveIndex + |ps| <= BoardCapacity {
      MovesAppendInArrivalOrder(s, ps);
    } else {
      MoveOverflowIsRejected(s, ps);
    }
  }

  /** Outside GAME every packet but GAME_INIT is dropped, so the session does not move. */
  lemma {:induction false} OutsideGameOnlyGameInitActs(s: SessionState, ps: seq<Packet>)
    requires s.Valid() && s.phase != Game && NoGameInit(ps)
    ensures Run(s, ps) == Some(s)
    decreases |ps|
  {
    if ps != [] {
      var rest := ps[1..];
      assert NoGameInit(rest) by {
        forall i | 0 <= i < |rest| ensures !rest[i].GameInitPacket? { assert rest[i] == ps[i + 1]; }
      }
      OutsideGameOnlyGameInitActs(s, rest);
    }
  }

  /** The move history is append-only: the index never decreases, grows by at most one per
      packet, and recorded slots are never overwritten. */
  lemma {:induction false} HistoryIsAppendOnly(s: SessionState, ps: seq<Packet>)
    requires s.Valid() && Run(s, ps).Some?
    ensures var r := Run(s, ps).value;
      && s.moveIndex <= r.moveIndex <= s.moveIndex + |ps|
      && (forall j :: 0 <= j < s.moveIndex ==> r.moves[j] == s.moves[j])
    decreases |ps|
  {
    if ps != [] {
      HistoryIsAppendOnly(Receive(s, ps[0]), ps[1..]);
    }
  }

  /** A win is reported to the two seats with opposite texts; a stalemate with the same one. */
  lemma WinIsSeenOppositely(endType: EndType, previous: string)
    ensures (endType.WinP1? || endType.WinP2?) ==>
      (EndMessage(endType, 0, previous) == "You won") == (EndMessage(endType, 1, previous) == "You lost")
    ensures endType.Stalemate? ==> EndMessage(endType, 0, previous) == EndMessage(endType, 1, previous)
  {
  }
}
