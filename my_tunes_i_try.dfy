/** MyTunesITry: take a random own winning move; else block the first
    opponent winning move; else (never, the list is always empty) a random
    sub-board winning move; else a random move with which the opponent
    could not win; else a random available move; else null. Its
    findWinningMoves and isWinningMove are the shared ones of module
    OnePly. */
module MyTunesITry {
  import opened Marks
  import opened Grids
  import opened Rules
  import opened Arrays
  import opened Lists
  import opened OnePly
  import opened Replies
  import Simulator

  /** willLeadToWin: the mark written into the clone is never read; the
      answer is whether the OPPONENT of the player to move would win a
      sub-board by playing at the move, whatever player is passed. */
  method WillLeadToWin(state: Simulator.GameState, move: Move, player: Player) returns (r: bool)
    requires state.Valid() && OnBoard(move)
    ensures r == OnePlyWin(GridOf(state.board), move, OpponentPlayer(state.moveNumber))
  {
    var opponent := OpponentPlayer(state.moveNumber);
    var clonedBoard := CloneBoard(state.board);
    SetCell(clonedBoard, move.x, move.y, Taken(player));
    r := IsWinningMove(state.board, move, opponent);
  }

  /** The test filterSafeMoves keeps: q cannot win a sub-board at the move. */
  function NotWinningFor(g: Grid, q: Player): Move -> bool {
    m => !OnePlyWin(g, m, q)
  }

  /** filterSafeMoves: the moves, in order, for which willLeadToWin is
      false. */
  method FilterSafeMoves(state: Simulator.GameState, moves: seq<Move>) returns (safeMoves: seq<Move>)
    requires state.Valid() && forall m :: m in moves ==> OnBoard(m)
    ensures safeMoves == Filter(moves, NotWinningFor(GridOf(state.board), OpponentPlayer(state.moveNumber)))
  {
    ghost var test := NotWinningFor(GridOf(state.board), OpponentPlayer(state.moveNumber));
    safeMoves := [];
    var player := BotPlayer(state.moveNumber);
    for i := 0 to |moves|
      invariant safeMoves == Filter(moves[..i], test)
    {
      var move := moves[i];
      FilterPrefix(moves, test, i);
      var leadsToWin := WillLeadToWin(state, move, player);
      if !leadsToWin {
        safeMoves := safeMoves + [move];
      }
    }
    assert moves[..|moves|] == moves;
  }

  /** findWinningMicroboardMoves: a placeholder that finds nothing. */
  function FindWinningMicroboardMoves(st: State, p: Player): (r: seq<Move>)
    ensures |r| == 0
  {
    []
  }

  /** doMove. A random own winning move comes first, even when the opponent
      also has one; then the first opponent winning move; then a random move
      of the safe list; then a random available move; null exactly when no
      move is available, and every other answer is an available move. */
  method DoMove(state: Simulator.GameState) returns (r: Reply)
    requires state.Valid()
    ensures var st := state.Value();
      var own, opp := BotPlayer(st.moveNumber), OpponentPlayer(st.moveNumber);
      var wins := WinningMoves(st.board, Moves(st), own);
      var threats := WinningMoves(st.board, Moves(st), opp);
      var safe := Filter(Moves(st), NotWinningFor(st.board, opp));
      && r != Throws
      && (r == NoMove <==> |Moves(st)| == 0)
      && (r.Play? ==> r.move in Moves(st))
      && (|wins| > 0 ==> r.Play? && r.move in wins)
      && (|wins| == 0 && |threats| > 0 ==> r == Play(threats[0]))
      && (|wins| == 0 && |threats| == 0 && |safe| > 0 ==> r.Play? && r.move in safe)
  {
    ghost var st := state.Value();
    var hyggeBot, opponentBot := BotPlayer(state.moveNumber), OpponentPlayer(state.moveNumber);
    var winningMoves := FindWinningMoves(state, hyggeBot);
    var opponentWinningMoves := FindWinningMoves(state, opponentBot);
    if |winningMoves| > 0 {
      r := RandomMove(winningMoves);
      WinningMovesExact(st.board, Moves(st), hyggeBot, r.move);
      return;
    }
    if |opponentWinningMoves| > 0 {
      WinningMovesExact(st.board, Moves(st), opponentBot, opponentWinningMoves[0]);
      return Play(opponentWinningMoves[0]);
    }
    var winningMicroboardMoves := FindWinningMicroboardMoves(st, hyggeBot);
    if |winningMicroboardMoves| > 0 {
      assert false;
    }
    var availableMoves := state.AvailableMoves();
    AllAvailableOnBoard(st.board, st.macroboard);
    var safeMoves := FilterSafeMoves(state, availableMoves);
    if |safeMoves| > 0 {
      r := RandomMove(safeMoves);
      FilterMembers(availableMoves, NotWinningFor(st.board, opponentBot), r.move);
      return;
    }
    if |availableMoves| > 0 {
      r := RandomMove(availableMoves);
      return;
    }
    return NoMove;
  }

  /** A move is safe exactly when it is an available move and not one of the
      opponent's winning moves: the safe list is the complement of the
      threats. */
  lemma SafeIsComplementOfThreats(st: State, m: Move)
    requires ValidState(st)
    ensures var opp := OpponentPlayer(st.moveNumber);
      m in Filter(Moves(st), NotWinningFor(st.board, opp)) <==>
        m in Moves(st) && m !in WinningMoves(st.board, Moves(st), opp)
  {
    var opp := OpponentPlayer(st.moveNumber);
    FilterMembers(Moves(st), NotWinningFor(st.board, opp), m);
    WinningMovesExact(st.board, Moves(st), opp, m);
  }

  /** Once there is no threat to block, every available move is safe, so
      the fallback to an arbitrary available move is only reached when there
      is no move at all. */
  lemma NoThreatAllSafe(st: State)
    requires ValidState(st)
    requires |WinningMoves(st.board, Moves(st), OpponentPlayer(st.moveNumber))| == 0
    ensures Filter(Moves(st), NotWinningFor(st.board, OpponentPlayer(st.moveNumber))) == Moves(st)
  {
    var opp := OpponentPlayer(st.moveNumber);
    WinningMovesNone(st.board, Moves(st), opp);
    FilterAll(Moves(st), NotWinningFor(st.board, opp));
  }
}
