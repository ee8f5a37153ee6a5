/** RandomBotOnSteroids: the first own winning move; else a random
    available move; else null. */
module RandomBotOnSteroids {
  import opened Marks
  import opened Grids
  import opened Rules
  import opened Arrays
  import opened Lists
  import opened OnePly
  import opened Replies
  import Simulator

  /** isWinningMove as a chain of early returns, each line checked with
      null-safe equality (the first cell is the player's mark, and each cell
      equals the next): the one-ply test of the board, on a per-row clone
      that leaves the state's board as it was. */
  method IsWinningMove(state: Simulator.GameState, move: Move, player: Player) returns (r: bool)
    requires state.Valid() && OnBoard(move)
    ensures r == OnePlyWin(GridOf(state.board), move, player)
  {
    var board := CloneBoard(state.board);
    SetCell(board, move.x, move.y, Taken(player));
    r := TestLines(board, move, player);
    ClonedBoardTest(board, state.board, move, player);
  }

  /** The early-return chain of isWinningMove on the clone: the four lines
      through the move, each accepted when its first cell is the player's
      mark and each cell equals the next. */
  method TestLines(board: array2<Mark>, move: Move, player: Player) returns (r: bool)
    requires board.Length0 == 9 && board.Length1 == 9 && OnBoard(move)
    ensures r == FourLines(board, move.x, move.y, Taken(player))
  {
    var c := Taken(player);
    var startX := move.x - move.x % 3;
    if board[startX, move.y] == c {
      if board[startX, move.y] == board[startX + 1, move.y] && board[startX + 1, move.y] == board[startX + 2, move.y] {
        return true;
      }
    }
    var startY := move.y - move.y % 3;
    if board[move.x, startY] == c {
      if board[move.x, startY] == board[move.x, startY + 1] && board[move.x, startY + 1] == board[move.x, startY + 2] {
        return true;
      }
    }
    if board[startX, startY] == c {
      if board[startX, startY] == board[startX + 1, startY + 1] && board[startX + 1, startY + 1] == board[startX + 2, startY + 2] {
        return true;
      }
    }
    if board[startX, startY + 2] == c {
      if board[startX, startY + 2] == board[startX + 1, startY + 1] && board[startX + 1, startY + 1] == board[startX + 2, startY] {
        return true;
      }
    }
    return false;
  }

  /** getWinningMoves: the available moves, in order, with which the player
      to move ("0" on an even move number) wins a sub-board. */
  method GetWinningMoves(state: Simulator.GameState) returns (winningMoves: seq<Move>)
    requires state.Valid()
    ensures winningMoves == WinningMoves(GridOf(state.board), state.AvailableMoves(), BotPlayer(state.moveNumber))
  {
    var player := One;
    if state.moveNumber % 2 == 0 {
      player := Zero;
    }
    var avail := state.AvailableMoves();
    AllAvailableOnBoard(GridOf(state.board), GridOf(state.macroboard));
    ghost var test := WinsFor(GridOf(state.board), player);
    winningMoves := [];
    for i := 0 to |avail|
      invariant winningMoves == Filter(avail[..i], test)
    {
      var move := avail[i];
      FilterPrefix(avail, test, i);
      var wins := IsWinningMove(state, move, player);
      if wins {
        winningMoves := winningMoves + [move];
      }
    }
    assert avail[..|avail|] == avail;
  }

  /** doMove. The first own winning move; else a random available move;
      null exactly when no move is available, and every move it returns is
      available. */
  method DoMove(state: Simulator.GameState) returns (r: Reply)
    requires state.Valid()
    ensures var st := state.Value();
      var wins := WinningMoves(st.board, Moves(st), BotPlayer(st.moveNumber));
      && r != Throws
      && (r == NoMove <==> |Moves(st)| == 0)
      && (r.Play? ==> r.move in Moves(st))
      && (|wins| > 0 ==> r == Play(wins[0]))
  {
    ghost var st := state.Value();
    var winMoves := GetWinningMoves(state);
    if |winMoves| > 0 {
      WinningMovesExact(st.board, Moves(st), BotPlayer(st.moveNumber), winMoves[0]);
      return Play(winMoves[0]);
    }
    var moves := state.AvailableMoves();
    if |moves| > 0 {
      r := RandomMove(moves);
      return;
    }
    return NoMove;
  }
}
