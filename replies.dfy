/** How the bots produce a reply from a list of moves. */
module Replies {
  import opened Marks
  import opened Rules
  import Simulator

  /** `moves.get(rand.nextInt(moves.size()))`: some element of the list, and
      an exception on an empty one. */
  method RandomMove(moves: seq<Move>) returns (r: Reply)
    ensures |moves| == 0 ==> r == Throws
    ensures |moves| > 0 ==> r.Play? && r.move in moves
  {
    if |moves| == 0 {
      return Throws;
    }
    var k :| 0 <= k < |moves|;
    return Play(moves[k]);
  }

  /** The moves of a pass: those of a fresh simulator's copy of the state. */
  method RootMoves(state: Simulator.GameState) returns (moves: seq<Move>)
    requires state.Valid()
    ensures moves == Moves(state.Value())
  {
    var simulator := Simulator.CreateSimulator(state);
    moves := simulator.currentState.AvailableMoves();
  }
}
