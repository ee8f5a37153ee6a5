/** The game simulator of HyggeBot (and its textual copy in ImprovedSneakyBot)
    as pure state transitions on values. The class in module Simulator runs
    the same steps in place on arrays and is proved to produce these values. */
module Rules {
  import opened Marks
  import opened Grids

  /** IGameState as the simulator uses it. */
  datatype State = State(board: Grid, macroboard: Grid, moveNumber: nat, roundNumber: nat)

  /** GameSimulator: a private state, the player to move, the game-over flag. */
  datatype Sim = Sim(state: State, currentPlayer: Player, gameOver: GameOverState)

  predicate ValidState(st: State) {
    IsBoard(st.board) && IsMacro(st.macroboard)
  }

  predicate ValidSim(s: Sim) {
    ValidState(s.state)
  }

  /** The host's legal-move list for a state. */
  function Moves(st: State): seq<Move>
    requires ValidState(st)
  {
    AvailableMoves(st.board, st.macroboard)
  }

  /** createSimulator: a fresh, Active simulator whose player to move is
      `moveNumber % 2`. */
  function CreateSimulator(st: State): (s: Sim)
    requires ValidState(st)
    ensures ValidSim(s) && s.gameOver == Active && s.state == st
  {
    Sim(st, BotPlayer(st.moveNumber), Active)
  }

  /** verifyMoveLegality: in an active sub-board, on the board, on an Empty cell
      (checked in this order in the source). */
  predicate VerifyMoveLegality(st: State, m: Move)
    requires ValidState(st)
  {
    InActiveMicroboard(st.macroboard, m.x, m.y) && OnBoard(m) && st.board[m.x][m.y] == Empty
  }

  /** checkAndUpdateIfWin: the result is the new macroboard and game-over flag. */
  function CheckAndUpdateIfWin(board: Grid, macro: Grid, m: Move, p: Player, gameOver: GameOverState)
    : (r: (Grid, GameOverState))
    requires IsBoard(board) && IsMacro(macro) && OnBoard(m)
    ensures IsMacro(r.0)
  {
    var mx, my := m.x / 3, m.y / 3;
    if macro[mx][my] == Empty || macro[mx][my] == Available then
      var macro' :=
        if IsWin(board, m.x, m.y, p) then Place(macro, mx, my, Taken(p))
        else if IsTie(board, m.x, m.y) then Place(macro, mx, my, Tied)
        else macro;
      var gameOver' :=
        if IsWin(macro', mx, my, p) then Win
        else if IsTie(macro', mx, my) then Tie
        else gameOver;
      (macro', gameOver')
    else
      (macro, gameOver)
  }

  /** checkAndUpdateIfWin stated step by step, as the source computes it:
      the sub-board decision from the board, then the game-over decision
      from the updated macroboard. */
  lemma CheckAndUpdateIfWinSteps(board: Grid, macro: Grid, m: Move, p: Player, gameOver: GameOverState,
                                 won: bool, tie: bool, macro': Grid, macroWon: bool, macroTie: bool,
                                 gameOver': GameOverState)
    requires IsBoard(board) && IsMacro(macro) && OnBoard(m)
    requires macro[m.x / 3][m.y / 3] == Empty || macro[m.x / 3][m.y / 3] == Available
    requires won == IsWin(board, m.x, m.y, p) && (!won ==> tie == IsTie(board, m.x, m.y))
    requires macro' == if won then Place(macro, m.x / 3, m.y / 3, Taken(p))
                       else if tie then Place(macro, m.x / 3, m.y / 3, Tied) else macro
    requires IsMacro(macro') && macroWon == IsWin(macro', m.x / 3, m.y / 3, p)
    requires !macroWon ==> macroTie == IsTie(macro', m.x / 3, m.y / 3)
    requires gameOver' == if macroWon then Win else if macroTie then Tie else gameOver
    ensures CheckAndUpdateIfWin(board, macro, m, p, gameOver) == (macro', gameOver')
  {
  }

  /** First half of updateMacroboard: every Available macro-cell becomes Empty. */
  function ResetAvailable(macro: Grid): (r: Grid)
    requires IsMacro(macro)
    ensures IsMacro(r)
  {
    seq(3, i requires 0 <= i < 3 =>
      seq(3, j requires 0 <= j < 3 => if macro[i][j] == Available then Empty else macro[i][j]))
  }

  /** Second half: the target macro-cell alone becomes Available if it is
      Empty; otherwise every Empty macro-cell does. */
  function Activate(macro: Grid, tx: int, ty: int): (r: Grid)
    requires IsMacro(macro) && 0 <= tx < 3 && 0 <= ty < 3
    ensures IsMacro(r)
  {
    if macro[tx][ty] == Empty then Place(macro, tx, ty, Available)
    else
      seq(3, i requires 0 <= i < 3 =>
        seq(3, j requires 0 <= j < 3 => if macro[i][j] == Empty then Available else macro[i][j]))
  }

  /** updateMacroboard: the next sub-board is named by the move's position
      inside its own block, (x % 3, y % 3). */
  function UpdateMacroboard(macro: Grid, m: Move): (r: Grid)
    requires IsMacro(macro) && OnBoard(m)
    ensures IsMacro(r)
  {
    Activate(ResetAvailable(macro), m.x % 3, m.y % 3)
  }

  /** updateBoard: write the mark, advance the counters, resolve the
      sub-board, then choose the next active sub-board(s). */
  function UpdateBoard(s: Sim, m: Move): (r: Sim)
    requires ValidSim(s) && OnBoard(m)
    ensures ValidSim(r)
  {
    var st := s.state;
    var board' := Place(st.board, m.x, m.y, Taken(s.currentPlayer));
    var moveNumber' := st.moveNumber + 1;
    var roundNumber' := if moveNumber' % 2 == 0 then st.roundNumber + 1 else st.roundNumber;
    var (macro', gameOver') := CheckAndUpdateIfWin(board', st.macroboard, m, s.currentPlayer, s.gameOver);
    Sim(State(board', UpdateMacroboard(macro', m), moveNumber', roundNumber'), s.currentPlayer, gameOver')
  }

  /** updateBoard stated step by step, as the source computes it. */
  lemma UpdateBoardSteps(s: Sim, m: Move, board': Grid, moveNumber': nat, roundNumber': nat,
                         macro1: Grid, gameOver': GameOverState, macro2: Grid)
    requires ValidSim(s) && OnBoard(m)
    requires board' == Place(s.state.board, m.x, m.y, Taken(s.currentPlayer))
    requires moveNumber' == s.state.moveNumber + 1
    requires roundNumber' == if moveNumber' % 2 == 0 then s.state.roundNumber + 1 else s.state.roundNumber
    requires (macro1, gameOver') == CheckAndUpdateIfWin(board', s.state.macroboard, m, s.currentPlayer, s.gameOver)
    requires macro2 == UpdateMacroboard(macro1, m)
    ensures UpdateBoard(s, m) == Sim(State(board', macro2, moveNumber', roundNumber'), s.currentPlayer, gameOver')
  {
  }

  /** updateGame: an illegal move is refused; a legal one is applied and the
      turn passes to the other player. */
  function UpdateGame(s: Sim, m: Move): (r: (bool, Sim))
    requires ValidSim(s)
    ensures ValidSim(r.1)
  {
    if !VerifyMoveLegality(s.state, m) then (false, s)
    else
      var s' := UpdateBoard(s, m);
      (true, s'.(currentPlayer := s.currentPlayer.Other()))
  }

  /** The simulator a search branch builds for one candidate move:
      `createSimulator(state)` followed by `updateGame(move)`. */
  function Child(st: State, m: Move): (s: Sim)
    requires ValidState(st)
    ensures ValidSim(s)
  {
    UpdateGame(CreateSimulator(st), m).1
  }

  // ---------------------------------------------------------------------
  // Properties of the simulator

  /** A refused move changes nothing: board, macroboard, both counters, the
      player to move and the game-over flag keep their values. */
  lemma IllegalMoveChangesNothing(s: Sim, m: Move)
    requires ValidSim(s) && !VerifyMoveLegality(s.state, m)
    ensures UpdateGame(s, m) == (false, s)
  {
  }

  /** updateGame succeeds exactly on the moves verifyMoveLegality accepts; a
      legal move writes the mover's mark in its cell and in no other, adds one
      to moveNumber, adds one to roundNumber iff the new moveNumber is even, and
      hands the turn to the other player. */
  lemma LegalMoveEffect(s: Sim, m: Move)
    requires ValidSim(s) && VerifyMoveLegality(s.state, m)
    ensures var (ok, s') := UpdateGame(s, m);
      && ok
      && (forall i, j :: 0 <= i < 9 && 0 <= j < 9 ==>
            s'.state.board[i][j] == if i == m.x && j == m.y then Taken(s.currentPlayer) else s.state.board[i][j])
      && s'.state.moveNumber == s.state.moveNumber + 1
      && s'.state.roundNumber == s.state.roundNumber + (if s'.state.moveNumber % 2 == 0 then 1 else 0)
      && s'.currentPlayer == s.currentPlayer.Other()
  {
  }

  /** A decided macro-cell (won or tied) is never changed by any move. */
  lemma DecidedCellsAreFinal(s: Sim, m: Move, i: int, j: int)
    requires ValidSim(s) && 0 <= i < 3 && 0 <= j < 3 && Decided(s.state.macroboard[i][j])
    ensures UpdateGame(s, m).1.state.macroboard[i][j] == s.state.macroboard[i][j]
  {
    if VerifyMoveLegality(s.state, m) {
      var board' := Place(s.state.board, m.x, m.y, Taken(s.currentPlayer));
      var r := CheckAndUpdateIfWin(board', s.state.macroboard, m, s.currentPlayer, s.gameOver);
      assert r.0[i][j] == s.state.macroboard[i][j];
      assert ResetAvailable(r.0)[i][j] == r.0[i][j];
    }
  }

  /** Sub-board resolution: an undecided macro-cell of the played sub-board
      becomes the mover's if the move completes a line through it, else Tied if
      the sub-board is full, else keeps its status; a decided one is untouched.
      The game-over flag becomes Win or Tie only by the same two tests on the
      macroboard at (x / 3, y / 3), and otherwise keeps its value. */
  lemma SubBoardResolution(board: Grid, macro: Grid, m: Move, p: Player, gameOver: GameOverState)
    requires IsBoard(board) && IsMacro(macro) && OnBoard(m)
    ensures var (macro', gameOver') := CheckAndUpdateIfWin(board, macro, m, p, gameOver);
      var mx, my := m.x / 3, m.y / 3;
      && (forall i, j :: 0 <= i < 3 && 0 <= j < 3 && (i != mx || j != my) ==> macro'[i][j] == macro[i][j])
      && (Decided(macro[mx][my]) ==> macro' == macro && gameOver' == gameOver)
      && (!Decided(macro[mx][my]) ==>
            && macro'[mx][my] == (if IsWin(board, m.x, m.y, p) then Taken(p)
                                  else if IsTie(board, m.x, m.y) then Tied
                                  else macro[mx][my])
            && (IsWin(macro', mx, my, p) ==> gameOver' == Win)
            && (!IsWin(macro', mx, my, p) && IsTie(macro', mx, my) ==> gameOver' == Tie)
            && (!IsWin(macro', mx, my, p) && !IsTie(macro', mx, my) ==> gameOver' == gameOver))
      && (gameOver' == gameOver || gameOver' == Win || gameOver' == Tie)
  {
    var mx, my := m.x / 3, m.y / 3;
    if !Decided(macro[mx][my]) {
      assert macro[mx][my] == Empty || macro[mx][my] == Available;
    }
  }

  /** The activation rule in full, stated on the macroboard before the move:
      decided cells keep their status; if the macro-cell at (x % 3, y % 3) is
      undecided it becomes the only Available cell; otherwise every undecided
      cell becomes Available. */
  lemma ActivationRule(macro: Grid, m: Move)
    requires IsMacro(macro) && OnBoard(m)
    ensures var r := UpdateMacroboard(macro, m);
      var tx, ty := m.x % 3, m.y % 3;
      forall i, j :: 0 <= i < 3 && 0 <= j < 3 ==>
        r[i][j] == if Decided(macro[i][j]) then macro[i][j]
                   else if !Decided(macro[tx][ty]) then (if i == tx && j == ty then Available else Empty)
                   else Available
  {
    var reset := ResetAvailable(macro);
    var tx, ty := m.x % 3, m.y % 3;
    assert forall i, j :: 0 <= i < 3 && 0 <= j < 3 ==>
      reset[i][j] == if Decided(macro[i][j]) then macro[i][j] else Empty;
  }

  /** Every move the host lists is accepted by verifyMoveLegality. */
  lemma ListedMovesAreLegal(st: State, m: Move)
    requires ValidState(st) && m in Moves(st)
    ensures VerifyMoveLegality(st, m)
  {
    AvailableMovesExact(st.board, st.macroboard, m);
  }
}
