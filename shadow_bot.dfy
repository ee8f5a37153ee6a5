/** ShadowBot: the first own winning move; else some available corner
    (the corner list is shuffled twice); else the first available move,
    which throws when there is none. */
module ShadowBot {
  import opened Marks
  import opened Grids
  import opened Rules
  import opened Arrays
  import opened Lists
  import opened OnePly
  import opened Corners
  import Simulator

  /** isWinningMove, comparing every cell of a line with the player's mark
      directly: the one-ply test of the board, on a per-row clone that
      leaves the state's board as it was. */
  method IsWinningMove(state: Simulator.GameState, move: Move, player: Player) returns (r: bool)
    requires state.Valid() && OnBoard(move)
    ensures r == OnePlyWin(GridOf(state.board), move, player)
  {
    var board := CloneBoard(state.board);
    SetCell(board, move.x, move.y, Taken(player));
    r := DirectLines(board, move.x, move.y, Taken(player));
    DirectLinesAreFourLines(board, move.x, move.y, Taken(player));
    ClonedBoardTest(board, state.board, move, player);
  }

  /** The four lines of the test, each cell compared with c directly. */
  predicate DirectLines(a: array2<Mark>, x: int, y: int, c: Mark)
    reads a
    requires a.Length0 == 9 && a.Length1 == 9 && 0 <= x < 9 && 0 <= y < 9
  {
    var startX, startY := x - x % 3, y - y % 3;
    || (a[startX, y] == c && a[startX + 1, y] == c && a[startX + 2, y] == c)
    || (a[x, startY] == c && a[x, startY + 1] == c && a[x, startY + 2] == c)
    || (a[startX, startY] == c && a[startX + 1, startY + 1] == c && a[startX + 2, startY + 2] == c)
    || (a[startX, startY + 2] == c && a[startX + 1, startY + 1] == c && a[startX + 2, startY] == c)
  }

  /** Comparing each cell with c is comparing the first with c and each
      with the next. */
  lemma DirectLinesAreFourLines(a: array2<Mark>, x: int, y: int, c: Mark)
    requires a.Length0 == 9 && a.Length1 == 9 && 0 <= x < 9 && 0 <= y < 9
    ensures DirectLines(a, x, y, c) == FourLines(a, x, y, c)
  {
  }

  /** getWinningMoves: the available moves, in order, with which the player
      to move ("0" on an even move number) wins a sub-board. */
  method GetWinningMoves(state: Simulator.GameState) returns (winningMoves: seq<Move>)
    requires state.Valid()
    ensures winningMoves == WinningMoves(GridOf(state.board), state.AvailableMoves(), BotPlayer(state.moveNumber))
  {
    var player := One;
    if state.moveNumber % 2 == 0 {
      player := Zero;
    }
    var avail := state.AvailableMoves();
    AllAvailableOnBoard(GridOf(state.board), GridOf(state.macroboard));
    ghost var test := WinsFor(GridOf(state.board), player);
    winningMoves := [];
    for i := 0 to |avail|
      invariant winningMoves == Filter(avail[..i], test)
    {
      var move := avail[i];
      FilterPrefix(avail, test, i);
      var wins := IsWinningMove(state, move, player);
      if wins {
        winningMoves := winningMoves + [move];
      }
    }
    assert avail[..|avail|] == avail;
  }

  /** getCorners: the available corner moves, shuffled. */
  method GetCorners(state: Simulator.GameState) returns (corners: seq<Move>)
    requires state.Valid()
    ensures multiset(corners) == multiset(CornerMoves(state.AvailableMoves()))
  {
    corners := CollectCorners(state);
    corners := Shuffle(corners);
  }

  /** Any reordering of the corner list holds exactly the available moves
      that are corners. */
  lemma ShuffledCorners(corners: seq<Move>, moves: seq<Move>, m: Move)
    requires multiset(corners) == multiset(CornerMoves(moves))
    ensures m in corners <==> m in moves && IsCorner(m)
  {
    assert m in corners <==> m in multiset(corners);
    assert m in CornerMoves(moves) <==> m in multiset(CornerMoves(moves));
    CornerMovesExact(moves, m);
  }

  /** doMove. The first own winning move; else an available corner; else
      the first available move; it throws exactly when no move is
      available, and every move it returns is available. */
  method DoMove(state: Simulator.GameState) returns (r: Reply)
    requires state.Valid()
    ensures var st := state.Value();
      var wins := WinningMoves(st.board, Moves(st), BotPlayer(st.moveNumber));
      var corners := CornerMoves(Moves(st));
      && r != NoMove
      && (r == Throws <==> |Moves(st)| == 0)
      && (r.Play? ==> r.move in Moves(st))
      && (|wins| > 0 ==> r == Play(wins[0]))
      && (|wins| == 0 && |corners| > 0 ==> r.Play? && IsCorner(r.move))
      && (|wins| == 0 && |corners| == 0 && |Moves(st)| > 0 ==> r == Play(Moves(st)[0]))
  {
    ghost var st := state.Value();
    var winMoves := GetWinningMoves(state);
    if |winMoves| > 0 {
      WinningMovesExact(st.board, Moves(st), BotPlayer(st.moveNumber), winMoves[0]);
      return Play(winMoves[0]);
    }
    var corners := GetCorners(state);
    if |corners| > 0 {
      corners := Shuffle(corners);
      ShuffledCorners(corners, Moves(st), corners[0]);
      return Play(corners[0]);
    }
    var avail := state.AvailableMoves();
    if |avail| == 0 {
      return Throws;
    }
    return Play(avail[0]);
  }
}
