/** Grid values: the 9x9 board and the 3x3 macroboard as nested sequences,
    the three-in-a-row and full-block tests, and the host's legal-move list. */
module Grids {
  import opened Marks

  /** `g[x][y]` is the cell at column x, row y, as `String[][]` in the source. */
  type Grid = seq<seq<Mark>>

  predicate IsSquare(g: Grid, n: nat) {
    |g| == n && forall i :: 0 <= i < n ==> |g[i]| == n
  }

  predicate IsBoard(g: Grid) { IsSquare(g, 9) }

  predicate IsMacro(g: Grid) { IsSquare(g, 3) }

  /** (x, y) lies on g, and g is a board or a macroboard, so the 3x3 block
      holding (x, y) lies on g too. */
  predicate Fits(g: Grid, x: int, y: int) {
    (IsBoard(g) || IsMacro(g)) && 0 <= x < |g| && 0 <= y < |g|
  }

  /** First coordinate of the block holding c: `c - (c % 3)`. */
  function BlockStart(c: nat): (s: nat)
    ensures s <= c < s + 3 && s % 3 == 0
  {
    c - c % 3
  }

  /** Writes one cell: the source's `board[x][y] = mark`. */
  function Place(g: Grid, x: int, y: int, m: Mark): (r: Grid)
    requires 0 <= x < |g| && 0 <= y < |g[x]|
    ensures |r| == |g| && forall i :: 0 <= i < |g| ==> |r[i]| == |g[i]|
    ensures forall i, j :: 0 <= i < |g| && 0 <= j < |g[i]| ==>
      r[i][j] == if i == x && j == y then m else g[i][j]
  {
    g[x := g[x][y := m]]
  }

  // ---------------------------------------------------------------------
  // The simulator's win and tie tests (isWin, isTie)

  /** Three cells all carrying p's mark. */
  predicate Owned3(a: Mark, b: Mark, c: Mark, p: Player) {
    a == Taken(p) && b == Taken(p) && c == Taken(p)
  }

  /** The column through (x, y) inside its block belongs to p. */
  predicate ColumnWon(g: Grid, x: int, y: int, p: Player)
    requires Fits(g, x, y)
  {
    var sy := BlockStart(y);
    Owned3(g[x][sy], g[x][sy + 1], g[x][sy + 2], p)
  }

  /** The row through (x, y) inside its block belongs to p. */
  predicate RowWon(g: Grid, x: int, y: int, p: Player)
    requires Fits(g, x, y)
  {
    var sx := BlockStart(x);
    Owned3(g[sx][y], g[sx + 1][y], g[sx + 2][y], p)
  }

  /** The main diagonal of the block holding (x, y) belongs to p. */
  predicate DiagonalWon(g: Grid, x: int, y: int, p: Player)
    requires Fits(g, x, y)
  {
    var sx, sy := BlockStart(x), BlockStart(y);
    Owned3(g[sx][sy], g[sx + 1][sy + 1], g[sx + 2][sy + 2], p)
  }

  /** The anti-diagonal of the block holding (x, y) belongs to p. */
  predicate AntiDiagonalWon(g: Grid, x: int, y: int, p: Player)
    requires Fits(g, x, y)
  {
    var sx, sy := BlockStart(x), BlockStart(y);
    Owned3(g[sx][sy + 2], g[sx + 1][sy + 1], g[sx + 2][sy], p)
  }

  /** Cell (i, j) of the block holding (x, y), counted from its corner. */
  function BlockCell(g: Grid, x: int, y: int, i: int, j: int): Mark
    requires Fits(g, x, y) && 0 <= i < 3 && 0 <= j < 3
  {
    g[BlockStart(x) + i][BlockStart(y) + j]
  }

  /** isWin: p owns the column or the row through (x, y), or a diagonal of the
      block that (x, y) itself lies on. */
  predicate IsWin(g: Grid, x: int, y: int, p: Player)
    requires Fits(g, x, y)
  {
    || ColumnWon(g, x, y, p)
    || RowWon(g, x, y, p)
    || (x % 3 == y % 3 && DiagonalWon(g, x, y, p))
    || (x % 3 + y % 3 == 2 && AntiDiagonalWon(g, x, y, p))
  }

  /** isTie: no cell of the block holding (x, y) is Empty or Available. */
  predicate IsTie(g: Grid, x: int, y: int)
    requires Fits(g, x, y)
  {
    forall i, j :: 0 <= i < 3 && 0 <= j < 3 ==>
      BlockCell(g, x, y, i, j) != Empty && BlockCell(g, x, y, i, j) != Available
  }

  // ---------------------------------------------------------------------
  // The host's view of legal moves (Field.isInActiveMicroboard, getAvailableMoves)

  /** isInActiveMicroboard, read as: the cell is on the board and the
      macro-cell of its sub-board is Available. */
  predicate InActiveMicroboard(macro: Grid, x: int, y: int)
    requires IsMacro(macro)
  {
    0 <= x < 9 && 0 <= y < 9 && macro[x / 3][y / 3] == Available
  }

  /** A cell the host lists as an available move. */
  predicate Playable(board: Grid, macro: Grid, x: int, y: int)
    requires IsBoard(board) && IsMacro(macro)
  {
    InActiveMicroboard(macro, x, y) && board[x][y] == Empty
  }

  /** Available moves among the cells numbered k..80 (cell k is (k / 9, k % 9)). */
  function AvailableFrom(board: Grid, macro: Grid, k: nat): seq<Move>
    requires IsBoard(board) && IsMacro(macro)
    decreases 9 * |board| - k
  {
    if k >= 81 then []
    else
      (if Playable(board, macro, k / 9, k % 9) then [Move(k / 9, k % 9)] else [])
      + AvailableFrom(board, macro, k + 1)
  }

  /** getAvailableMoves: the playable cells, scanned column by column. */
  function AvailableMoves(board: Grid, macro: Grid): seq<Move>
    requires IsBoard(board) && IsMacro(macro)
  {
    AvailableFrom(board, macro, 0)
  }

  lemma {:induction false} AvailableFromExact(board: Grid, macro: Grid, k: nat, m: Move)
    requires IsBoard(board) && IsMacro(macro)
    ensures m in AvailableFrom(board, macro, k) <==>
      OnBoard(m) && Playable(board, macro, m.x, m.y) && k <= 9 * m.x + m.y
    decreases 9 * |board| - k
  {
    if k < 81 {
      AvailableFromExact(board, macro, k + 1, m);
      if OnBoard(m) {
        assert (9 * m.x + m.y) / 9 == m.x && (9 * m.x + m.y) % 9 == m.y;
      }
      assert Move(k / 9, k % 9) == m ==> k == 9 * m.x + m.y;
    }
  }

  /** Every listed move is on the board, in an Available sub-board, on an
      Empty cell; and every such cell is listed. */
  lemma AvailableMovesExact(board: Grid, macro: Grid, m: Move)
    requires IsBoard(board) && IsMacro(macro)
    ensures m in AvailableMoves(board, macro) <==> OnBoard(m) && Playable(board, macro, m.x, m.y)
  {
    AvailableFromExact(board, macro, 0, m);
  }

  lemma AllAvailableOnBoard(board: Grid, macro: Grid)
    requires IsBoard(board) && IsMacro(macro)
    ensures forall m :: m in AvailableMoves(board, macro) ==> OnBoard(m)
  {
    forall m | m in AvailableMoves(board, macro) ensures OnBoard(m) {
      AvailableMovesExact(board, macro, m);
    }
  }

  /** Field.isEmpty: no mark has been placed on the board. */
  predicate BoardIsEmpty(board: Grid)
    requires IsBoard(board)
  {
    forall i, j :: 0 <= i < 9 && 0 <= j < 9 ==> board[i][j] == Empty
  }

  // ---------------------------------------------------------------------
  // Counting marks (the reference the evaluators are compared with)

  /** 1 if the cell carries p's mark, else 0. */
  function Indicator(c: Mark, p: Player): nat {
    if c == Taken(p) then 1 else 0
  }

  /** Number of p's marks in a line of cells. */
  function CountRow(row: seq<Mark>, p: Player): (n: nat)
    ensures n <= |row|
  {
    if |row| == 0 then 0 else Indicator(row[0], p) + CountRow(row[1..], p)
  }

  /** Number of p's marks in a grid. */
  function CountGrid(g: Grid, p: Player): nat {
    if |g| == 0 then 0 else CountRow(g[0], p) + CountGrid(g[1..], p)
  }

  lemma {:induction false} CountRowAppend(a: seq<Mark>, b: seq<Mark>, p: Player)
    ensures CountRow(a + b, p) == CountRow(a, p) + CountRow(b, p)
  {
    if |a| > 0 {
      assert (a + b)[1..] == a[1..] + b;
      CountRowAppend(a[1..], b, p);
    } else {
      assert a + b == b;
    }
  }

  /** A row of three cells holds as many marks as its cells say. */
  lemma CountRow3(row: seq<Mark>, p: Player)
    requires |row| == 3
    ensures CountRow(row, p) == Indicator(row[0], p) + Indicator(row[1], p) + Indicator(row[2], p)
  {
    assert row[1..][1..] == row[2..];
    assert row[2..][1..] == [];
    assert CountRow(row[2..], p) == Indicator(row[2], p);
    assert CountRow(row[1..], p) == Indicator(row[1], p) + Indicator(row[2], p);
  }

  /** A 9-cell row splits into its three block segments. */
  lemma CountRowBlocks(row: seq<Mark>, p: Player)
    requires |row| == 9
    ensures CountRow(row, p) == CountRow(row[0..3], p) + CountRow(row[3..6], p) + CountRow(row[6..9], p)
  {
    assert row == row[0..3] + (row[3..6] + row[6..9]);
    CountRowAppend(row[0..3], row[3..6] + row[6..9], p);
    CountRowAppend(row[3..6], row[6..9], p);
  }
}
