/** HyggeBot's static evaluation of a position, from the point of view of the
    bot at the root of the search (`own`) against its opponent (`opp`). The
    source computes each part with accumulator loops over read-only arrays;
    here each part is a function of the grid values. */
module HyggeEval {
  import opened Marks
  import opened Grids

  /** The three block origins 0, 3 and 6 the evaluator steps through. */
  predicate BlockOrigin(c: int) {
    c == 0 || c == 3 || c == 6
  }

  /** scoreForPlayer: +10 for a line of the bot's marks, -10 for the
      opponent's, 0 for anything else (empty or tied). */
  function ScoreForPlayer(cell: Mark, own: Player, opp: Player): (r: int)
    ensures r == 10 || r == -10 || r == 0
    ensures r == 10 <==> cell == Taken(own)
    ensures r == -10 <==> cell != Taken(own) && cell == Taken(opp)
  {
    if cell == Taken(own) then 10
    else if cell == Taken(opp) then -10
    else 0
  }

  /** One line of a sub-board: scored by its first cell when all three
      cells are equal. */
  function LineScore(a: Mark, b: Mark, c: Mark, own: Player, opp: Player): (r: int)
    ensures -10 <= r <= 10
    ensures r != 0 ==> a == b == c && (a == Taken(own) || a == Taken(opp))
  {
    if a == b && b == c then ScoreForPlayer(a, own, opp) else 0
  }

  /** evaluateMicroBoard: three rows, three columns and both diagonals of the
      sub-board at (sx, sy), less 20 when that sub-board is the Available one. */
  function EvaluateMicroBoard(board: Grid, macro: Grid, sx: int, sy: int, own: Player, opp: Player): (r: int)
    requires IsBoard(board) && IsMacro(macro) && BlockOrigin(sx) && BlockOrigin(sy)
    ensures -100 <= r <= 80
    ensures macro[sx / 3][sy / 3] == Available ==> r <= 60
  {
    LineScore(board[sx][sy], board[sx][sy + 1], board[sx][sy + 2], own, opp)
    + LineScore(board[sx][sy], board[sx + 1][sy], board[sx + 2][sy], own, opp)
    + LineScore(board[sx + 1][sy], board[sx + 1][sy + 1], board[sx + 1][sy + 2], own, opp)
    + LineScore(board[sx][sy + 1], board[sx + 1][sy + 1], board[sx + 2][sy + 1], own, opp)
    + LineScore(board[sx + 2][sy], board[sx + 2][sy + 1], board[sx + 2][sy + 2], own, opp)
    + LineScore(board[sx][sy + 2], board[sx + 1][sy + 2], board[sx + 2][sy + 2], own, opp)
    + LineScore(board[sx][sy], board[sx + 1][sy + 1], board[sx + 2][sy + 2], own, opp)
    + LineScore(board[sx + 2][sy], board[sx + 1][sy + 1], board[sx][sy + 2], own, opp)
    + (if macro[sx / 3][sy / 3] == Available then -20 else 0)
  }

  /** The sum of evaluateMicroBoard over the nine sub-boards. */
  function MicroBoardsScore(board: Grid, macro: Grid, own: Player, opp: Player): (r: int)
    requires IsBoard(board) && IsMacro(macro)
    ensures -900 <= r <= 720
  {
    EvaluateMicroBoard(board, macro, 0, 0, own, opp) + EvaluateMicroBoard(board, macro, 0, 3, own, opp)
    + EvaluateMicroBoard(board, macro, 0, 6, own, opp) + EvaluateMicroBoard(board, macro, 3, 0, own, opp)
    + EvaluateMicroBoard(board, macro, 3, 3, own, opp) + EvaluateMicroBoard(board, macro, 3, 6, own, opp)
    + EvaluateMicroBoard(board, macro, 6, 0, own, opp) + EvaluateMicroBoard(board, macro, 6, 3, own, opp)
    + EvaluateMicroBoard(board, macro, 6, 6, own, opp)
  }

  /** The inner loop of evaluateMacroboard over one row of macro-cells. */
  function MacroRowScore(row: seq<Mark>, own: Player, opp: Player): (r: int)
    ensures -100 * |row| <= r <= 100 * |row|
  {
    if |row| == 0 then 0
    else
      (if row[0] == Taken(own) then 100 else if row[0] == Taken(opp) then -100 else 0)
      + MacroRowScore(row[1..], own, opp)
  }

  /** evaluateMacroboard: +100 per macro-cell the bot has won, -100 per cell
      the opponent has won. */
  function EvaluateMacroboard(macro: Grid, own: Player, opp: Player): (r: int)
    requires forall i :: 0 <= i < |macro| ==> |macro[i]| == 3
    ensures -300 * |macro| <= r <= 300 * |macro|
  {
    if |macro| == 0 then 0
    else MacroRowScore(macro[0], own, opp) + EvaluateMacroboard(macro[1..], own, opp)
  }

  lemma {:induction false} MacroRowCounts(row: seq<Mark>, own: Player, opp: Player)
    requires own != opp
    ensures MacroRowScore(row, own, opp) == 100 * (CountRow(row, own) - CountRow(row, opp))
  {
    if |row| > 0 {
      MacroRowCounts(row[1..], own, opp);
    }
  }

  /** The macroboard part of the score is 100 times the bot's won sub-boards
      less the opponent's. */
  lemma {:induction false} EvaluateMacroboardCounts(macro: Grid, own: Player, opp: Player)
    requires forall i :: 0 <= i < |macro| ==> |macro[i]| == 3
    requires own != opp
    ensures EvaluateMacroboard(macro, own, opp) == 100 * (CountGrid(macro, own) - CountGrid(macro, opp))
  {
    if |macro| > 0 {
      MacroRowCounts(macro[0], own, opp);
      EvaluateMacroboardCounts(macro[1..], own, opp);
    }
  }

  /** Two of the opponent's marks followed by an Empty cell. */
  predicate Threat(a: Mark, b: Mark, c: Mark, opp: Player) {
    a == Taken(opp) && b == Taken(opp) && c == Empty
  }

  function Bonus(b: bool): (r: nat)
    ensures r <= 1
  {
    if b then 1 else 0
  }

  /** The number of open patterns the preventive scan finds in the block at
      (i, j): the first-index and the second-index patterns in every block,
      the diagonal only in the blocks (0,0), (3,3), (6,6) and the
      anti-diagonal only in (0,6), (3,3), (6,0). */
  function BlockThreats(board: Grid, i: int, j: int, opp: Player): (r: nat)
    requires IsBoard(board) && BlockOrigin(i) && BlockOrigin(j)
    ensures r <= 4
    ensures (i != j && i + j != 6) ==> r <= 2
  {
    Bonus(Threat(board[i][j], board[i][j + 1], board[i][j + 2], opp))
    + Bonus(Threat(board[i][j], board[i + 1][j], board[i + 2][j], opp))
    + (if i == j then Bonus(Threat(board[i][j], board[i + 1][j + 1], board[i + 2][j + 2], opp)) else 0)
    + (if i + j == 6 then Bonus(Threat(board[i][j + 2], board[i + 1][j + 1], board[i + 2][j], opp)) else 0)
  }

  /** All open patterns of the opponent on the board: at most 24, since
      only (3,3) has both diagonals and four other blocks have one. */
  function Threats(board: Grid, opp: Player): (n: nat)
    requires IsBoard(board)
    ensures n <= 24
  {
    BlockThreats(board, 0, 0, opp) + BlockThreats(board, 0, 3, opp) + BlockThreats(board, 0, 6, opp)
    + BlockThreats(board, 3, 0, opp) + BlockThreats(board, 3, 3, opp) + BlockThreats(board, 3, 6, opp)
    + BlockThreats(board, 6, 0, opp) + BlockThreats(board, 6, 3, opp) + BlockThreats(board, 6, 6, opp)
  }

  /** evaluatePreventiveMoves: +100 for every open two-in-a-row of the
      opponent that the bot could block; a multiple of 100 between 0 and 2400. */
  function EvaluatePreventiveMoves(board: Grid, opp: Player): (r: nat)
    requires IsBoard(board)
    ensures r % 100 == 0 && r <= 2400
  {
    100 * Threats(board, opp)
  }

  /** isHyggeBotWinningNextMove / isOpponentWinningNextMove: some macro-cell
      carries p's mark. */
  predicate OwnsSomeSubBoard(macro: Grid, p: Player)
    requires IsMacro(macro)
  {
    exists i, j :: 0 <= i < 3 && 0 <= j < 3 && macro[i][j] == Taken(p)
  }

  /** isOpponentWinningMacroboardNextMove: p holds a whole row, column or
      diagonal of the macroboard. */
  predicate OwnsMacroLine(macro: Grid, p: Player)
    requires IsMacro(macro)
  {
    || Owned3(macro[0][0], macro[0][1], macro[0][2], p)
    || Owned3(macro[1][0], macro[1][1], macro[1][2], p)
    || Owned3(macro[2][0], macro[2][1], macro[2][2], p)
    || Owned3(macro[0][0], macro[1][0], macro[2][0], p)
    || Owned3(macro[0][1], macro[1][1], macro[2][1], p)
    || Owned3(macro[0][2], macro[1][2], macro[2][2], p)
    || Owned3(macro[0][0], macro[1][1], macro[2][2], p)
    || Owned3(macro[0][2], macro[1][1], macro[2][0], p)
  }

  /** evaluate: the sum of the parts, +200 when the bot has won a sub-board,
      -200 when the opponent has, -10000 when the opponent holds a macro line.
      Every value lies well inside Java's int range, and a position where the
      opponent holds a macro line always scores below zero. */
  function Evaluate(board: Grid, macro: Grid, own: Player, opp: Player): (r: int)
    requires IsBoard(board) && IsMacro(macro)
    ensures -12000 <= r <= 4220
    ensures OwnsMacroLine(macro, opp) ==> r < 0
  {
    MicroBoardsScore(board, macro, own, opp)
    + EvaluateMacroboard(macro, own, opp)
    + EvaluatePreventiveMoves(board, opp)
    + (if OwnsSomeSubBoard(macro, own) then 200 else 0)
    - (if OwnsSomeSubBoard(macro, opp) then 200 else 0)
    - (if OwnsMacroLine(macro, opp) then 10000 else 0)
  }

  /** The macroboard term of evaluate, stated by counting: a position differs
      from one with the same board but different macro ownership by exactly
      100 per macro-cell, before the three adjustments. */
  lemma EvaluateSplits(board: Grid, macro: Grid, own: Player, opp: Player)
    requires IsBoard(board) && IsMacro(macro) && own != opp
    ensures Evaluate(board, macro, own, opp) ==
      MicroBoardsScore(board, macro, own, opp)
      + 100 * (CountGrid(macro, own) - CountGrid(macro, opp))
      + EvaluatePreventiveMoves(board, opp)
      + (if OwnsSomeSubBoard(macro, own) then 200 else 0)
      - (if OwnsSomeSubBoard(macro, opp) then 200 else 0)
      - (if OwnsMacroLine(macro, opp) then 10000 else 0)
  {
    EvaluateMacroboardCounts(macro, own, opp);
  }
}
