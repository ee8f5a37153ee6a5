/** The one-move lookahead the simpler bots share: isWinningMove (place the
    player's mark on a clone of the board and test the lines of the move's
    3x3 block) and findWinningMoves (keep the available moves that pass).
    The chained-equals version below is the one of HyggeBot, HyggeBot2000,
    MyTunesITry and HyggeBot1000, which carry textually the same code;
    ShadowBot's and RandomBotOnSteroids' variants are in their own modules
    and are proved to compute the same predicate. */
module OnePly {
  import opened Marks
  import opened Grids
  import opened Rules
  import opened Arrays
  import opened Lists
  import Simulator

  /** isWinningMove on grid values: after p's mark is placed at m, one of the
      four lines the bots test is all p: the line along the first index
      through m's second coordinate, the line along the second index through
      m's first coordinate, or either diagonal of m's block, whether or not m
      lies on that diagonal. Only the sub-board is looked at, never the
      macroboard. */
  predicate OnePlyWin(g: Grid, m: Move, p: Player) {
    IsBoard(g) && OnBoard(m) && LinesThrough(Place(g, m.x, m.y, Taken(p)), m.x, m.y, p)
  }

  /** The four lines the one-ply test looks at, all p. */
  predicate LinesThrough(g: Grid, x: int, y: int, p: Player)
    requires IsBoard(g) && 0 <= x < 9 && 0 <= y < 9
  {
    RowWon(g, x, y, p) || ColumnWon(g, x, y, p) || DiagonalWon(g, x, y, p) || AntiDiagonalWon(g, x, y, p)
  }

  /** The test as a value that filters can take. */
  function WinsFor(g: Grid, p: Player): Move -> bool {
    m => OnePlyWin(g, m, p)
  }

  /** findWinningMoves on values: the moves that win a block for p, in order. */
  function WinningMoves(g: Grid, moves: seq<Move>, p: Player): (w: seq<Move>)
    ensures |w| <= |moves|
  {
    Filter(moves, WinsFor(g, p))
  }

  /** A move is listed as winning iff it is one of the moves and wins. */
  lemma WinningMovesExact(g: Grid, moves: seq<Move>, p: Player, m: Move)
    ensures m in WinningMoves(g, moves, p) <==> m in moves && OnePlyWin(g, m, p)
  {
    FilterMembers(moves, WinsFor(g, p), m);
  }

  /** The head of the list is the first winning move of the input. */
  lemma WinningMovesFirst(g: Grid, moves: seq<Move>, p: Player, k: nat)
    requires k < |moves| && OnePlyWin(g, moves[k], p)
    requires forall j :: 0 <= j < k ==> !OnePlyWin(g, moves[j], p)
    ensures |WinningMoves(g, moves, p)| > 0 && WinningMoves(g, moves, p)[0] == moves[k]
  {
    FilterFirst(moves, WinsFor(g, p), k);
  }

  /** Conversely, the head of a non-empty list of winning moves is a
      winning move with no winning move before it in the input. */
  lemma WinningMovesHead(g: Grid, moves: seq<Move>, p: Player)
    requires |WinningMoves(g, moves, p)| > 0
    ensures exists k :: (0 <= k < |moves| && moves[k] == WinningMoves(g, moves, p)[0] && OnePlyWin(g, moves[k], p) &&
      forall j :: 0 <= j < k ==> !OnePlyWin(g, moves[j], p))
  {
    FilterHead(moves, WinsFor(g, p));
  }

  /** The list is empty exactly when no move of the input wins. */
  lemma WinningMovesNone(g: Grid, moves: seq<Move>, p: Player)
    ensures |WinningMoves(g, moves, p)| == 0 <==> forall j :: 0 <= j < |moves| ==> !OnePlyWin(g, moves[j], p)
  {
    FilterEmpty(moves, WinsFor(g, p));
  }

  /** The four lines of the one-ply test read off an array, each written as
      the source chains its `equals` calls: the first cell is c and each cell
      equals the next. */
  predicate FourLines(a: array2<Mark>, x: int, y: int, c: Mark)
    reads a
    requires a.Length0 == 9 && a.Length1 == 9 && 0 <= x < 9 && 0 <= y < 9
  {
    var startX, startY := x - x % 3, y - y % 3;
    || (a[startX, y] == c && a[startX, y] == a[startX + 1, y] && a[startX + 1, y] == a[startX + 2, y])
    || (a[x, startY] == c && a[x, startY] == a[x, startY + 1] && a[x, startY + 1] == a[x, startY + 2])
    || (a[startX, startY] == c && a[startX, startY] == a[startX + 1, startY + 1]
        && a[startX + 1, startY + 1] == a[startX + 2, startY + 2])
    || (a[startX, startY + 2] == c && a[startX, startY + 2] == a[startX + 1, startY + 1]
        && a[startX + 1, startY + 1] == a[startX + 2, startY])
  }

  /** The array test is the grid test on the array's cells. */
  lemma FourLinesThrough(a: array2<Mark>, x: int, y: int, p: Player)
    requires a.Length0 == 9 && a.Length1 == 9 && 0 <= x < 9 && 0 <= y < 9
    ensures FourLines(a, x, y, Taken(p)) == LinesThrough(GridOf(a), x, y, p)
  {
  }

  /** On a clone that holds the placed mark, the array test is the one-ply
      test of the original board. */
  lemma ClonedBoardTest(a: array2<Mark>, board: array2<Mark>, m: Move, p: Player)
    requires a.Length0 == 9 && a.Length1 == 9 && board.Length0 == 9 && board.Length1 == 9 && OnBoard(m)
    requires GridOf(a) == Place(GridOf(board), m.x, m.y, Taken(p))
    ensures FourLines(a, m.x, m.y, Taken(p)) == OnePlyWin(GridOf(board), m, p)
  {
    FourLinesThrough(a, m.x, m.y, p);
  }

  /** isWinningMove (chained `equals`): clone the board, write the mark, test
      the four lines. The state's board is not written: the method may
      modify nothing it did not allocate. */
  method IsWinningMove(board: array2<Mark>, move: Move, player: Player) returns (r: bool)
    requires board.Length0 == 9 && board.Length1 == 9 && OnBoard(move)
    ensures r == OnePlyWin(GridOf(board), move, player)
  {
    var clonedBoard := CloneBoard(board);
    var x, y := move.x, move.y;
    SetCell(clonedBoard, x, y, Taken(player));
    r := FourLines(clonedBoard, x, y, Taken(player));
    ClonedBoardTest(clonedBoard, board, move, player);
  }

  /** findWinningMoves: the available moves of the state for which
      isWinningMove holds, in the order they are listed. */
  method FindWinningMoves(state: Simulator.GameState, player: Player) returns (winningMoves: seq<Move>)
    requires state.Valid()
    ensures winningMoves == WinningMoves(GridOf(state.board), state.AvailableMoves(), player)
  {
    var availableMoves := state.AvailableMoves();
    AllAvailableOnBoard(GridOf(state.board), GridOf(state.macroboard));
    winningMoves := KeepWinning(state.board, availableMoves, player);
  }

  /** The loop of findWinningMoves over a list of on-board moves. */
  method KeepWinning(board: array2<Mark>, moves: seq<Move>, player: Player) returns (winningMoves: seq<Move>)
    requires board.Length0 == 9 && board.Length1 == 9
    requires forall m :: m in moves ==> OnBoard(m)
    ensures winningMoves == WinningMoves(GridOf(board), moves, player)
  {
    winningMoves := [];
    for i := 0 to |moves|
      invariant winningMoves == WinningMoves(GridOf(board), moves[..i], player)
    {
      var move := moves[i];
      FilterPrefix(moves, WinsFor(GridOf(board), player), i);
      var wins := IsWinningMove(board, move, player);
      if wins {
        winningMoves := winningMoves + [move];
      }
    }
    assert moves[..|moves|] == moves;
  }

  // ---------------------------------------------------------------------
  // How the one-ply test relates to the simulator's isWin

  /** Every move that the simulator's isWin accepts after placing the mark is
      also a one-ply winning move. */
  lemma IsWinImpliesOnePlyWin(g: Grid, m: Move, p: Player)
    requires IsBoard(g) && OnBoard(m)
    requires IsWin(Place(g, m.x, m.y, Taken(p)), m.x, m.y, p)
    ensures OnePlyWin(g, m, p)
  {
  }

  /** The two tests differ only on a diagonal p already owned before the
      move: if p held neither diagonal of the block and the cell was not p's,
      the one-ply test accepts exactly the moves isWin accepts. */
  lemma OnePlyWinIsWin(g: Grid, m: Move, p: Player)
    requires IsBoard(g) && OnBoard(m) && g[m.x][m.y] != Taken(p)
    requires !DiagonalWon(g, m.x, m.y, p) && !AntiDiagonalWon(g, m.x, m.y, p)
    ensures OnePlyWin(g, m, p) <==> IsWin(Place(g, m.x, m.y, Taken(p)), m.x, m.y, p)
  {
    var g' := Place(g, m.x, m.y, Taken(p));
    var sx, sy := BlockStart(m.x), BlockStart(m.y);
    // off a diagonal, the move leaves that diagonal as it was
    assert m.x % 3 != m.y % 3 ==>
      g'[sx][sy] == g[sx][sy] && g'[sx + 1][sy + 1] == g[sx + 1][sy + 1] && g'[sx + 2][sy + 2] == g[sx + 2][sy + 2];
    assert m.x % 3 + m.y % 3 != 2 ==>
      g'[sx][sy + 2] == g[sx][sy + 2] && g'[sx + 1][sy + 1] == g[sx + 1][sy + 1] && g'[sx + 2][sy] == g[sx + 2][sy];
  }

  /** A legal move that the simulator records as winning its sub-board for
      the player to move is one the one-ply test finds. */
  lemma SimulatorWinIsFound(st: State, m: Move)
    requires ValidState(st) && VerifyMoveLegality(st, m)
    requires Child(st, m).state.macroboard[m.x / 3][m.y / 3] == Taken(BotPlayer(st.moveNumber))
    ensures OnePlyWin(st.board, m, BotPlayer(st.moveNumber))
  {
    var p := BotPlayer(st.moveNumber);
    var s := CreateSimulator(st);
    var board' := Place(st.board, m.x, m.y, Taken(p));
    var (macro', gameOver') := CheckAndUpdateIfWin(board', st.macroboard, m, p, Active);
    SubBoardResolution(board', st.macroboard, m, p, Active);
    ActivationRule(macro', m);
    assert UpdateGame(s, m).1.state.macroboard == UpdateMacroboard(macro', m);
    assert st.macroboard[m.x / 3][m.y / 3] == Available;
    assert macro'[m.x / 3][m.y / 3] == Taken(p);
  }
}
