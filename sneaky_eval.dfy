/** ImprovedSneakyBot's evaluation: a piece counter. "Own" is the player to
    move in the evaluated leaf state (its moveNumber parity), not the player
    at the root of the search. */
module SneakyEval {
  import opened Marks
  import opened Grids

  /** One cell of the inner loop of evaluateMicroBoard. */
  function CellScore(c: Mark, own: Player, opp: Player): int {
    if c == Taken(own) then 10 else if c == Taken(opp) then -10 else 0
  }

  /** One row of a block: for two different players, the cell scores add up
      to ten times the difference of their counts. */
  lemma RowScore(row: seq<Mark>, own: Player, opp: Player)
    requires |row| == 3 && own != opp
    ensures CellScore(row[0], own, opp) + CellScore(row[1], own, opp) + CellScore(row[2], own, opp)
         == 10 * (CountRow(row, own) - CountRow(row, opp))
  {
    CountRow3(row, own);
    CountRow3(row, opp);
  }

  /** Number of p's marks in the block whose corner is (sx, sy). */
  function BlockCount(board: Grid, sx: int, sy: int, p: Player): nat
    requires IsBoard(board) && 0 <= sx <= 6 && 0 <= sy <= 6
  {
    CountRow(board[sx][sy..sy + 3], p) + CountRow(board[sx + 1][sy..sy + 3], p)
    + CountRow(board[sx + 2][sy..sy + 3], p)
  }

  /** evaluateMicroBoard: +10 for each of the leaf player's marks in the block
      at (sx, sy), -10 for each of the other player's. */
  function EvaluateMicroBoard(board: Grid, sx: int, sy: int, moveNumber: nat): (r: int)
    requires IsBoard(board) && 0 <= sx <= 6 && 0 <= sy <= 6
    ensures -90 <= r <= 90
    ensures r == 10 * (BlockCount(board, sx, sy, BotPlayer(moveNumber))
                       - BlockCount(board, sx, sy, OpponentPlayer(moveNumber)))
  {
    var own, opp := BotPlayer(moveNumber), OpponentPlayer(moveNumber);
    RowScore(board[sx][sy..sy + 3], own, opp);
    RowScore(board[sx + 1][sy..sy + 3], own, opp);
    RowScore(board[sx + 2][sy..sy + 3], own, opp);
    CellScore(board[sx][sy], own, opp) + CellScore(board[sx][sy + 1], own, opp)
    + CellScore(board[sx][sy + 2], own, opp) + CellScore(board[sx + 1][sy], own, opp)
    + CellScore(board[sx + 1][sy + 1], own, opp) + CellScore(board[sx + 1][sy + 2], own, opp)
    + CellScore(board[sx + 2][sy], own, opp) + CellScore(board[sx + 2][sy + 1], own, opp)
    + CellScore(board[sx + 2][sy + 2], own, opp)
  }

  /** evaluateMacroBoard: `lastWinner` is always null, so the method throws a
      NullPointerException whenever the game is won (None here) and otherwise
      adds nothing. */
  function EvaluateMacroBoard(gameOver: GameOverState): (r: Option<int>)
    ensures r.None? <==> gameOver == Win
    ensures r.Some? ==> r.value == 0
  {
    if gameOver == Win then None else Some(0)
  }

  /** The nine evaluateMicroBoard terms of evaluate. */
  function MicroBoardsScore(board: Grid, moveNumber: nat): (r: int)
    requires IsBoard(board)
    ensures -810 <= r <= 810
  {
    EvaluateMicroBoard(board, 0, 0, moveNumber) + EvaluateMicroBoard(board, 0, 3, moveNumber)
    + EvaluateMicroBoard(board, 0, 6, moveNumber) + EvaluateMicroBoard(board, 3, 0, moveNumber)
    + EvaluateMicroBoard(board, 3, 3, moveNumber) + EvaluateMicroBoard(board, 3, 6, moveNumber)
    + EvaluateMicroBoard(board, 6, 0, moveNumber) + EvaluateMicroBoard(board, 6, 3, moveNumber)
    + EvaluateMicroBoard(board, 6, 6, moveNumber)
  }

  /** evaluate: the sub-board sum plus the macroboard term; None when the
      macroboard term throws. */
  function Evaluate(board: Grid, moveNumber: nat, gameOver: GameOverState): (r: Option<int>)
    requires IsBoard(board)
    ensures r.None? <==> gameOver == Win
    ensures r.Some? ==> -810 <= r.value <= 810
  {
    match EvaluateMacroBoard(gameOver)
    case None => None
    case Some(m) => Some(MicroBoardsScore(board, moveNumber) + m)
  }

  lemma CountGridUnfold(g: Grid, k: nat, p: Player)
    requires k < |g|
    ensures CountGrid(g[k..], p) == CountRow(g[k], p) + CountGrid(g[k + 1..], p)
  {
    assert g[k..][1..] == g[k + 1..];
  }

  /** Nine rows of counts make the grid count. */
  lemma CountGrid9(board: Grid, p: Player)
    requires IsBoard(board)
    ensures CountGrid(board, p) ==
      CountRow(board[0], p) + CountRow(board[1], p) + CountRow(board[2], p)
      + CountRow(board[3], p) + CountRow(board[4], p) + CountRow(board[5], p)
      + CountRow(board[6], p) + CountRow(board[7], p) + CountRow(board[8], p)
  {
    assert board[0..] == board;
    assert board[9..] == [];
    CountGridUnfold(board, 0, p);
    CountGridUnfold(board, 1, p);
    CountGridUnfold(board, 2, p);
    CountGridUnfold(board, 3, p);
    CountGridUnfold(board, 4, p);
    CountGridUnfold(board, 5, p);
    CountGridUnfold(board, 6, p);
    CountGridUnfold(board, 7, p);
    CountGridUnfold(board, 8, p);
  }

  /** The nine blocks together hold exactly the board's marks. */
  lemma {:induction false} BlocksCoverBoard(board: Grid, p: Player)
    requires IsBoard(board)
    ensures CountGrid(board, p) == BlocksTotal(board, p)
  {
    CountGrid9(board, p);
    forall x | 0 <= x < 9
      ensures CountRow(board[x], p) ==
        CountRow(board[x][0..3], p) + CountRow(board[x][3..6], p) + CountRow(board[x][6..9], p)
    {
      CountRowBlocks(board[x], p);
    }
  }

  /** The sum of the block counts of p over the nine sub-boards. */
  function BlocksTotal(board: Grid, p: Player): nat
    requires IsBoard(board)
  {
    BlockCount(board, 0, 0, p) + BlockCount(board, 0, 3, p) + BlockCount(board, 0, 6, p)
    + BlockCount(board, 3, 0, p) + BlockCount(board, 3, 3, p) + BlockCount(board, 3, 6, p)
    + BlockCount(board, 6, 0, p) + BlockCount(board, 6, 3, p) + BlockCount(board, 6, 6, p)
  }

  lemma MicroBoardsCount(board: Grid, moveNumber: nat)
    requires IsBoard(board)
    ensures MicroBoardsScore(board, moveNumber) ==
      10 * (BlocksTotal(board, BotPlayer(moveNumber)) - BlocksTotal(board, OpponentPlayer(moveNumber)))
  {
  }

  lemma EvaluateIsMicro(board: Grid, moveNumber: nat, gameOver: GameOverState)
    requires IsBoard(board) && gameOver != Win
    ensures Evaluate(board, moveNumber, gameOver) == Some(MicroBoardsScore(board, moveNumber))
  {
  }

  /** The sub-board sum is ten times the leaf player's marks on the board
      less ten times the other player's. */
  lemma MicroBoardsCountPieces(board: Grid, moveNumber: nat)
    requires IsBoard(board)
    ensures MicroBoardsScore(board, moveNumber) ==
      10 * (CountGrid(board, BotPlayer(moveNumber)) - CountGrid(board, OpponentPlayer(moveNumber)))
  {
    BlocksCoverBoard(board, BotPlayer(moveNumber));
    BlocksCoverBoard(board, OpponentPlayer(moveNumber));
    MicroBoardsCount(board, moveNumber);
  }

  /** evaluate, when it returns, is ten times the leaf player's marks on the
      whole board less ten times the other player's. */
  lemma EvaluateCountsPieces(board: Grid, moveNumber: nat, gameOver: GameOverState)
    requires IsBoard(board) && gameOver != Win
    ensures Evaluate(board, moveNumber, gameOver) ==
      Some(10 * (CountGrid(board, BotPlayer(moveNumber)) - CountGrid(board, OpponentPlayer(moveNumber))))
  {
    MicroBoardsCountPieces(board, moveNumber);
    EvaluateIsMicro(board, moveNumber, gameOver);
  }
}
