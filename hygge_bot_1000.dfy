/** HyggeBot1000: block the first opponent winning move; else take a random
    own winning move; else a random available move; else null. Its
    findWinningMoves, isWinningMove and cloneBoard are the shared ones of
    modules OnePly and Arrays. */
module HyggeBot1000 {
  import opened Marks
  import opened Rules
  import opened OnePly
  import opened Replies
  import Simulator

  /** doMove. The first opponent winning move comes first, even when the bot
      could win itself; then a random own winning move; then a random
      available move; null exactly when no move is available, and every
      other answer is an available move. */
  method DoMove(state: Simulator.GameState) returns (r: Reply)
    requires state.Valid()
    ensures var st := state.Value();
      var wins := WinningMoves(st.board, Moves(st), BotPlayer(st.moveNumber));
      var threats := WinningMoves(st.board, Moves(st), OpponentPlayer(st.moveNumber));
      && r != Throws
      && (r == NoMove <==> |Moves(st)| == 0)
      && (r.Play? ==> r.move in Moves(st))
      && (|threats| > 0 ==> r == Play(threats[0]))
      && (|threats| == 0 && |wins| > 0 ==> r.Play? && r.move in wins)
  {
    ghost var st := state.Value();
    var hyggeBot, opponentBot := BotPlayer(state.moveNumber), OpponentPlayer(state.moveNumber);
    var winningMoves := FindWinningMoves(state, hyggeBot);
    var opponentWinningMoves := FindWinningMoves(state, opponentBot);
    if |opponentWinningMoves| > 0 {
      WinningMovesExact(st.board, Moves(st), opponentBot, opponentWinningMoves[0]);
      return Play(opponentWinningMoves[0]);
    }
    if |winningMoves| > 0 {
      r := RandomMove(winningMoves);
      WinningMovesExact(st.board, Moves(st), hyggeBot, r.move);
      return;
    }
    var availableMoves := state.AvailableMoves();
    if |availableMoves| > 0 {
      r := RandomMove(availableMoves);
      return;
    }
    return NoMove;
  }
}
