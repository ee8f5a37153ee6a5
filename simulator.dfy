/** HyggeBot's GameSimulator and GameState (textually repeated in
    ImprovedSneakyBot) as classes that update their arrays and fields in
    place. Every method is proved to produce the state that the pure
    transition of module Rules computes, so the properties proved there hold
    of these methods. */
module Simulator {
  import opened Marks
  import opened Grids
  import opened Rules
  import opened Arrays

  /** GameState: the field's two grids and the two counters. */
  class GameState {
    const board: array2<Mark>
    const macroboard: array2<Mark>
    var moveNumber: nat
    var roundNumber: nat

    ghost predicate Valid()
      reads this
    {
      board.Length0 == 9 && board.Length1 == 9 && macroboard.Length0 == 3 && macroboard.Length1 == 3
    }

    /** The state as a value. */
    function Value(): (st: State)
      reads this, board, macroboard
      requires Valid()
      ensures ValidState(st)
    {
      State(GridOf(board), GridOf(macroboard), moveNumber, roundNumber)
    }

    /** getAvailableMoves of the state's field. */
    function AvailableMoves(): (moves: seq<Move>)
      reads this, board, macroboard
      requires Valid()
    {
      Moves(Value())
    }

    /** new GameState(): a field of its own and both counters at zero. */
    constructor ()
      ensures Valid() && fresh(board) && fresh(macroboard)
      ensures moveNumber == 0 && roundNumber == 0
    {
      board := new Mark[9, 9];
      macroboard := new Mark[3, 3];
      moveNumber, roundNumber := 0, 0;
    }

    /** Field.setBoard, taking the cells of the given board. */
    method SetBoard(src: array2<Mark>)
      requires Valid() && src.Length0 == 9 && src.Length1 == 9 && src != board
      modifies board
      ensures GridOf(board) == GridOf(src)
    {
      CopyGrid(board, src);
    }

    /** Field.setMacroboard, taking the cells of the given macroboard. */
    method SetMacroboard(src: array2<Mark>)
      requires Valid() && src.Length0 == 3 && src.Length1 == 3 && src != macroboard
      modifies macroboard
      ensures GridOf(macroboard) == GridOf(src)
    {
      CopyGrid(macroboard, src);
    }
  }

  /** The lines isWin tests, read off the array: the column and the row
      through (x, y) inside its block, and the diagonal or anti-diagonal of
      the block when (x, y) lies on it. */
  predicate LinesOwned(board: array2<Mark>, x: int, y: int, p: Player)
    reads board
    requires (board.Length0 == 9 && board.Length1 == 9) || (board.Length0 == 3 && board.Length1 == 3)
    requires 0 <= x < board.Length0 && 0 <= y < board.Length1
  {
    var sx, sy, c := x - x % 3, y - y % 3, Taken(p);
    || (board[x, sy] == c && board[x, sy + 1] == c && board[x, sy + 2] == c)
    || (board[sx, y] == c && board[sx + 1, y] == c && board[sx + 2, y] == c)
    || (x % 3 == y % 3 && board[sx, sy] == c && board[sx + 1, sy + 1] == c && board[sx + 2, sy + 2] == c)
    || (x % 3 + y % 3 == 2 && board[sx, sy + 2] == c && board[sx + 1, sy + 1] == c && board[sx + 2, sy] == c)
  }

  /** The array reading agrees with isWin on the grid value. */
  lemma LinesOwnedIsWin(board: array2<Mark>, x: int, y: int, p: Player)
    requires (board.Length0 == 9 && board.Length1 == 9) || (board.Length0 == 3 && board.Length1 == 3)
    requires 0 <= x < board.Length0 && 0 <= y < board.Length1
    ensures LinesOwned(board, x, y, p) == Grids.IsWin(GridOf(board), x, y, p)
  {
  }

  /** GameSimulator: the state it owns, the player to move (0 or 1) and the
      game-over flag. */
  class GameSimulator {
    const currentState: GameState
    var currentPlayer: Player
    var gameOver: GameOverState

    ghost predicate Valid()
      reads this, currentState
    {
      currentState.Valid()
    }

    /** The simulator as a value. */
    function Snapshot(): (s: Sim)
      reads this, currentState, currentState.board, currentState.macroboard
      requires Valid()
      ensures ValidSim(s)
    {
      Sim(currentState.Value(), currentPlayer, gameOver)
    }

    /** new GameSimulator(state): player 0 to move, game Active. */
    constructor (state: GameState)
      requires state.Valid()
      ensures Valid() && currentState == state
      ensures currentPlayer == Zero && gameOver == Active
    {
      currentState := state;
      currentPlayer := Zero;
      gameOver := Active;
    }

    /** updateGame: refuses an illegal move and returns false; otherwise
      applies it, passes the turn and returns true. */
    method UpdateGame(move: Move) returns (ok: bool)
      requires Valid()
      modifies this, currentState, currentState.board, currentState.macroboard
      ensures Valid()
      ensures (ok, Snapshot()) == Rules.UpdateGame(old(Snapshot()), move)
    {
      ok := VerifyMoveLegality(move);
      if !ok {
        return;
      }
      UpdateBoard(move);
      currentPlayer := currentPlayer.Other();
    }

    /** verifyMoveLegality: in an active sub-board, then inside the board,
        then on an Empty cell. */
    method VerifyMoveLegality(move: Move) returns (isValid: bool)
      requires Valid()
      ensures isValid == Rules.VerifyMoveLegality(Snapshot().state, move)
    {
      isValid := InActiveMicroboard(GridOf(currentState.macroboard), move.x, move.y);
      if isValid && (move.x < 0 || 9 <= move.x) {
        isValid := false;
      }
      if isValid && (move.y < 0 || 9 <= move.y) {
        isValid := false;
      }
      if isValid && currentState.board[move.x, move.y] != Empty {
        isValid := false;
      }
    }

    /** updateBoard: writes the mover's mark, advances the counters, resolves
        the sub-board and activates the next one(s). */
    method UpdateBoard(move: Move)
      requires Valid() && OnBoard(move)
      modifies this, currentState, currentState.board, currentState.macroboard
      ensures Valid()
      ensures Snapshot() == Rules.UpdateBoard(old(Snapshot()), move)
    {
      ghost var s0 := Snapshot();
      var board := currentState.board;
      SetCell(board, move.x, move.y, Taken(currentPlayer));
      currentState.moveNumber := currentState.moveNumber + 1;
      if currentState.moveNumber % 2 == 0 {
        currentState.roundNumber := currentState.roundNumber + 1;
      }
      CheckAndUpdateIfWin(move);
      ghost var macro1 := GridOf(currentState.macroboard);
      UpdateMacroboard(move);
      UpdateBoardSteps(s0, move, GridOf(board), currentState.moveNumber, currentState.roundNumber,
                       macro1, gameOver, GridOf(currentState.macroboard));
    }

    /** checkAndUpdateIfWin: decides the played sub-board if it is still
        open, then tests the macroboard for a win or a tie. */
    method DecideSubBoard(move: Move) returns (won: bool, tie: bool)
      requires Valid() && OnBoard(move)
      modifies currentState.macroboard
      ensures won == Grids.IsWin(GridOf(currentState.board), move.x, move.y, currentPlayer)
      ensures !won ==> tie == Grids.IsTie(GridOf(currentState.board), move.x, move.y)
      ensures GridOf(currentState.macroboard) ==
        if won then Place(old(GridOf(currentState.macroboard)), move.x / 3, move.y / 3, Taken(currentPlayer))
        else if tie then Place(old(GridOf(currentState.macroboard)), move.x / 3, move.y / 3, Tied)
        else old(GridOf(currentState.macroboard))
    {
      var macroBoard := currentState.macroboard;
      var macroX, macroY := move.x / 3, move.y / 3;
      var board := currentState.board;
      won := IsWin(board, move, currentPlayer);
      LinesOwnedIsWin(board, move.x, move.y, currentPlayer);
      tie := false;
      if won {
        SetCell(macroBoard, macroX, macroY, Taken(currentPlayer));
      } else {
        tie := IsTie(board, move);
        if tie {
          SetCell(macroBoard, macroX, macroY, Tied);
        }
      }
    }

    method DecideGame(move: Move) returns (macroWon: bool, macroTie: bool)
      requires Valid() && OnBoard(move)
      modifies this
      ensures currentPlayer == old(currentPlayer)
      ensures macroWon == Grids.IsWin(GridOf(currentState.macroboard), move.x / 3, move.y / 3, currentPlayer)
      ensures !macroWon ==> macroTie == Grids.IsTie(GridOf(currentState.macroboard), move.x / 3, move.y / 3)
      ensures gameOver == if macroWon then Win else if macroTie then Tie else old(gameOver)
    {
      var macroBoard := currentState.macroboard;
      var macroX, macroY := move.x / 3, move.y / 3;
      macroWon := IsWin(macroBoard, Move(macroX, macroY), currentPlayer);
      LinesOwnedIsWin(macroBoard, macroX, macroY, currentPlayer);
      macroTie := false;
      if macroWon {
        gameOver := Win;
      } else {
        macroTie := IsTie(macroBoard, Move(macroX, macroY));
        if macroTie {
          gameOver := Tie;
        }
      }
    }

    method CheckAndUpdateIfWin(move: Move)
      requires Valid() && OnBoard(move)
      modifies this, currentState.macroboard
      ensures Valid() && currentPlayer == old(currentPlayer)
      ensures (GridOf(currentState.macroboard), gameOver)
           == Rules.CheckAndUpdateIfWin(GridOf(currentState.board), old(GridOf(currentState.macroboard)),
                                        move, currentPlayer, old(gameOver))
    {
      ghost var m0 := GridOf(currentState.macroboard);
      ghost var g := GridOf(currentState.board);
      ghost var go := gameOver;
      var macroBoard := currentState.macroboard;
      var macroX, macroY := move.x / 3, move.y / 3;
      if macroBoard[macroX, macroY] == Empty || macroBoard[macroX, macroY] == Available {
        var won, tie := DecideSubBoard(move);
        ghost var m1 := GridOf(macroBoard);
        var macroWon, macroTie := DecideGame(move);
        CheckAndUpdateIfWinSteps(g, m0, move, currentPlayer, go, won, tie, m1, macroWon, macroTie, gameOver);
      }
    }

    /** isWin on either grid: the column through the move inside its block,
        then the row, then the block diagonal if the move lies on it, then
        the anti-diagonal if the move lies on it. */
    method IsWin(board: array2<Mark>, move: Move, currentPlayer: Player) returns (r: bool)
      requires (board.Length0 == 9 && board.Length1 == 9) || (board.Length0 == 3 && board.Length1 == 3)
      requires 0 <= move.x < board.Length0 && 0 <= move.y < board.Length1
      ensures r == LinesOwned(board, move.x, move.y, currentPlayer)
    {
      var localX, localY := move.x % 3, move.y % 3;
      var startX, startY := move.x - localX, move.y - localY;
      var p := Taken(currentPlayer);

      // check col
      var i := startY;
      while i < startY + 3
        invariant startY <= i <= startY + 2
        invariant i > startY ==> board[move.x, startY] == p
        invariant i > startY + 1 ==> board[move.x, startY + 1] == p
      {
        if board[move.x, i] != p {
          break;
        }
        if i == startY + 3 - 1 {
          return true;
        }
        i := i + 1;
      }

      // check row
      i := startX;
      while i < startX + 3
        invariant startX <= i <= startX + 2
        invariant i > startX ==> board[startX, move.y] == p
        invariant i > startX + 1 ==> board[startX + 1, move.y] == p
      {
        if board[i, move.y] != p {
          break;
        }
        if i == startX + 3 - 1 {
          return true;
        }
        i := i + 1;
      }

      // check diagonal
      if localX == localY {
        var y := startY;
        i := startX;
        while i < startX + 3
          invariant startX <= i <= startX + 2 && y == startY + (i - startX)
          invariant i > startX ==> board[startX, startY] == p
          invariant i > startX + 1 ==> board[startX + 1, startY + 1] == p
        {
          if board[i, y] != p {
            break;
          }
          y := y + 1;
          if i == startX + 3 - 1 {
            return true;
          }
          i := i + 1;
        }
      }

      // check anti diagonal
      if localX + localY == 3 - 1 {
        var less := 0;
        i := startX;
        while i < startX + 3
          invariant startX <= i <= startX + 2 && less == i - startX
          invariant i > startX ==> board[startX, startY + 2] == p
          invariant i > startX + 1 ==> board[startX + 1, startY + 1] == p
        {
          if board[i, (startY + 2) - less] != p {
            break;
          }
          less := less + 1;
          if i == startX + 3 - 1 {
            return true;
          }
          i := i + 1;
        }
      }
      return false;
    }

    /** isTie on either grid: false at the first Available or Empty cell of
        the move's block, true if there is none. */
    method IsTie(board: array2<Mark>, move: Move) returns (r: bool)
      requires (board.Length0 == 9 && board.Length1 == 9) || (board.Length0 == 3 && board.Length1 == 3)
      requires 0 <= move.x < board.Length0 && 0 <= move.y < board.Length1
      ensures r == Grids.IsTie(GridOf(board), move.x, move.y)
    {
      ghost var g := GridOf(board);
      var localX, localY := move.x % 3, move.y % 3;
      var startX, startY := move.x - localX, move.y - localY;
      var i := startX;
      while i < startX + 3
        invariant startX <= i <= startX + 3
        invariant forall a, b :: startX <= a < i && startY <= b < startY + 3 ==>
          board[a, b] != Available && board[a, b] != Empty
      {
        var k := startY;
        while k < startY + 3
          invariant startY <= k <= startY + 3
          invariant forall b :: startY <= b < k ==> board[i, b] != Available && board[i, b] != Empty
        {
          if board[i, k] == Available || board[i, k] == Empty {
            assert BlockCell(g, move.x, move.y, i - startX, k - startY) == board[i, k];
            return false;
          }
          k := k + 1;
        }
        i := i + 1;
      }
      return true;
    }

    /** updateMacroboard: every Available macro-cell back to Empty; then the
        cell at (x % 3, y % 3) becomes Available if it is Empty, else every
        Empty cell does. */
    method UpdateMacroboard(move: Move)
      requires Valid() && OnBoard(move)
      modifies currentState.macroboard
      ensures GridOf(currentState.macroboard) == Rules.UpdateMacroboard(old(GridOf(currentState.macroboard)), move)
    {
      ghost var m0 := GridOf(currentState.macroboard);
      var macroBoard := currentState.macroboard;
      for i := 0 to macroBoard.Length0
        invariant forall a, b :: 0 <= a < 3 && 0 <= b < 3 ==>
          macroBoard[a, b] == if a < i && m0[a][b] == Available then Empty else m0[a][b]
      {
        for k := 0 to macroBoard.Length1
          invariant forall a, b :: 0 <= a < 3 && 0 <= b < 3 ==>
            macroBoard[a, b] == if (a < i || (a == i && b < k)) && m0[a][b] == Available then Empty else m0[a][b]
        {
          if macroBoard[i, k] == Available {
            macroBoard[i, k] := Empty;
          }
        }
      }
      ghost var m1 := GridOf(macroBoard);
      GridExt(m1, ResetAvailable(m0));

      var xTrans, yTrans := move.x % 3, move.y % 3;
      if macroBoard[xTrans, yTrans] == Empty {
        SetCell(macroBoard, xTrans, yTrans, Available);
      } else {
        // The sub-board is decided: every undecided one becomes available.
        for i := 0 to macroBoard.Length0
          invariant forall a, b :: 0 <= a < 3 && 0 <= b < 3 ==>
            macroBoard[a, b] == if a < i && m1[a][b] == Empty then Available else m1[a][b]
        {
          for k := 0 to macroBoard.Length1
            invariant forall a, b :: 0 <= a < 3 && 0 <= b < 3 ==>
              macroBoard[a, b] == if (a < i || (a == i && b < k)) && m1[a][b] == Empty then Available else m1[a][b]
          {
            if macroBoard[i, k] == Empty {
              macroBoard[i, k] := Available;
            }
          }
        }
        GridExt(GridOf(macroBoard), Activate(m1, xTrans, yTrans));
      }
    }
  }

  /** createSimulator: a new simulator over a new state that takes the
      counters and both grids of the given state; player `moveNumber % 2`
      to move, game Active. */
  method CreateSimulator(state: GameState) returns (simulator: GameSimulator)
    requires state.Valid()
    ensures fresh(simulator) && fresh(simulator.currentState)
    ensures fresh(simulator.currentState.board) && fresh(simulator.currentState.macroboard)
    ensures simulator.Valid() && simulator.Snapshot() == Rules.CreateSimulator(state.Value())
  {
    var gs := new GameState();
    simulator := new GameSimulator(gs);
    simulator.gameOver := Active;
    simulator.currentPlayer := BotPlayer(state.moveNumber);
    gs.roundNumber := state.roundNumber;
    gs.moveNumber := state.moveNumber;
    gs.SetBoard(state.board);
    gs.SetMacroboard(state.macroboard);
  }

  /** The GameState(IGameState) copy constructor: a new state with a field
      of its own holding the cells and counters of the given one. */
  method CopyState(state: GameState) returns (copy: GameState)
    requires state.Valid()
    ensures fresh(copy) && fresh(copy.board) && fresh(copy.macroboard)
    ensures copy.Valid() && copy.Value() == state.Value()
  {
    copy := new GameState();
    copy.moveNumber := state.moveNumber;
    copy.roundNumber := state.roundNumber;
    copy.SetBoard(state.board);
    copy.SetMacroboard(state.macroboard);
  }

  /** One search branch: `createSimulator(state)` followed by
      `updateGame(move)`, as every loop over candidate moves does. The new
      simulator is the pure `Child` of the state. */
  method CreateChild(state: GameState, move: Move) returns (child: GameSimulator)
    requires state.Valid()
    ensures fresh(child) && fresh(child.currentState)
    ensures fresh(child.currentState.board) && fresh(child.currentState.macroboard)
    ensures child.Valid() && child.Snapshot() == Child(state.Value(), move)
  {
    child := CreateSimulator(state);
    var _ := child.UpdateGame(move);
  }
}
