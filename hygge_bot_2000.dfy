/** HyggeBot2000: a one-move lookahead. Block the first move with which the
    opponent would win a sub-board; otherwise play the first own winning
    move after which the opponent has no winning move; otherwise a random
    move after which the opponent has no winning move; otherwise null. The
    corner helpers are part of the class but not used by doMove. */
module HyggeBot2000 {
  import opened Marks
  import opened Grids
  import opened Rules
  import opened Arrays
  import opened Lists
  import opened OnePly
  import opened Corners
  import Simulator

  // ---------------------------------------------------------------------
  // simulateMove

  /** The state simulateMove produces (lemma AfterMoveCells). */
  function AfterMove(st: State, m: Move, p: Player): (r: State)
    requires ValidState(st) && OnBoard(m)
    ensures ValidState(r)
  {
    State(Place(st.board, m.x, m.y, Taken(p)), st.macroboard, st.moveNumber + 1, (st.moveNumber + 1) / 2)
  }

  /** simulateMove changes the board only at the move, where the player's
      mark now is; it leaves the macroboard alone, advances the move number
      and sets the round number to half of it. */
  lemma AfterMoveCells(st: State, m: Move, p: Player)
    requires ValidState(st) && OnBoard(m)
    ensures var r := AfterMove(st, m, p);
      && r.board[m.x][m.y] == Taken(p)
      && (forall i, j :: 0 <= i < 9 && 0 <= j < 9 && (i != m.x || j != m.y) ==> r.board[i][j] == st.board[i][j])
      && r.macroboard == st.macroboard
      && r.moveNumber == st.moveNumber + 1 && r.roundNumber == r.moveNumber / 2
  {
  }

  /** simulateMove: a copy of the state with the player's mark written at
      the move and the counters advanced; the given state is not touched. */
  method SimulateMove(state: Simulator.GameState, move: Move, player: Player) returns (newState: Simulator.GameState)
    requires state.Valid() && OnBoard(move)
    ensures fresh(newState) && fresh(newState.board) && fresh(newState.macroboard)
    ensures newState.Valid() && newState.Value() == AfterMove(state.Value(), move, player)
  {
    newState := Simulator.CopyState(state);
    SetCell(newState.board, move.x, move.y, Taken(player));
    newState.moveNumber := newState.moveNumber + 1;
    newState.roundNumber := newState.moveNumber / 2;
  }

  // ---------------------------------------------------------------------
  // doMove

  /** After p plays m on a copy of the state, q has no winning move among
      the moves the copy lists. */
  predicate LeavesNoWin(st: State, m: Move, p: Player, q: Player)
    requires ValidState(st)
  {
    OnBoard(m) && var next := AfterMove(st, m, p); |WinningMoves(next.board, Moves(next), q)| == 0
  }

  /** The test as a value that filters can take. */
  function SafeTest(st: State, p: Player, q: Player): Move -> bool
    requires ValidState(st)
  {
    m => LeavesNoWin(st, m, p, q)
  }

  /** doMove: the first opponent winning move; else the first own winning
      move that leaves the opponent no winning move; else a random move that
      leaves the opponent no winning move; else null (NoMove). */
  method DoMove(state: Simulator.GameState) returns (r: Reply)
    requires state.Valid()
    ensures var st := state.Value();
      var own, opp := BotPlayer(st.moveNumber), OpponentPlayer(st.moveNumber);
      var threats := WinningMoves(st.board, Moves(st), opp);
      var safeWins := Filter(WinningMoves(st.board, Moves(st), own), SafeTest(st, own, opp));
      var safe := Filter(Moves(st), SafeTest(st, own, opp));
      && r != Throws
      && (|threats| > 0 ==> r == Play(threats[0]))
      && (|threats| == 0 && |safeWins| > 0 ==> r == Play(safeWins[0]))
      && (|threats| == 0 && |safeWins| == 0 ==> (r == NoMove <==> |safe| == 0) && (r.Play? ==> r.move in safe))
  {
    var hyggeBot := BotPlayer(state.moveNumber);
    var opponentBot := OpponentPlayer(state.moveNumber);
    var opponentWinningMoves := FindWinningMoves(state, opponentBot);
    if |opponentWinningMoves| > 0 {
      return Play(opponentWinningMoves[0]);
    }
    var winningMoves := FindWinningMoves(state, hyggeBot);
    forall m | m in winningMoves
      ensures OnBoard(m)
    {
      WinningMovesExact(GridOf(state.board), state.AvailableMoves(), hyggeBot, m);
    }
    var found, move := FirstSafeMove(state, winningMoves, hyggeBot, opponentBot);
    if found {
      return Play(move);
    }
    var availableMoves := state.AvailableMoves();
    AllAvailableOnBoard(GridOf(state.board), GridOf(state.macroboard));
    var safeMoves := SafeMoves(state, availableMoves, hyggeBot, opponentBot);
    if |safeMoves| > 0 {
      var k :| 0 <= k < |safeMoves|;
      return Play(safeMoves[k]);
    }
    return NoMove;
  }

  /** The body of both loops: simulate the move for the bot and ask
      whether the opponent then has no winning move. */
  method OpponentCannotWin(state: Simulator.GameState, move: Move, hyggeBot: Player, opponentBot: Player)
    returns (safe: bool)
    requires state.Valid() && OnBoard(move)
    ensures safe == LeavesNoWin(state.Value(), move, hyggeBot, opponentBot)
  {
    var nextState := SimulateMove(state, move, hyggeBot);
    var opponentNextWinningMoves := FindWinningMoves(nextState, opponentBot);
    safe := |opponentNextWinningMoves| == 0;
  }

  /** The loop over the own winning moves: the first one after which the
      opponent has no winning move, if any. */
  method FirstSafeMove(state: Simulator.GameState, winningMoves: seq<Move>, hyggeBot: Player, opponentBot: Player)
    returns (found: bool, move: Move)
    requires state.Valid() && forall m :: m in winningMoves ==> OnBoard(m)
    ensures var safe := Filter(winningMoves, SafeTest(state.Value(), hyggeBot, opponentBot));
      (found <==> |safe| > 0) && (found ==> move == safe[0])
  {
    ghost var st := state.Value();
    for i := 0 to |winningMoves|
      invariant state.Value() == st
      invariant forall j :: 0 <= j < i ==> !LeavesNoWin(st, winningMoves[j], hyggeBot, opponentBot)
    {
      move := winningMoves[i];
      var safe := OpponentCannotWin(state, move, hyggeBot, opponentBot);
      if safe {
        FilterFirst(winningMoves, SafeTest(st, hyggeBot, opponentBot), i);
        return true, move;
      }
      assert !LeavesNoWin(st, winningMoves[i], hyggeBot, opponentBot);
    }
    FilterEmpty(winningMoves, SafeTest(st, hyggeBot, opponentBot));
    return false, Move(0, 0);
  }

  /** The loop that collects safeMoves: the moves after which the opponent
      has no winning move, in order. */
  method SafeMoves(state: Simulator.GameState, moves: seq<Move>, hyggeBot: Player, opponentBot: Player)
    returns (safeMoves: seq<Move>)
    requires state.Valid() && forall m :: m in moves ==> OnBoard(m)
    ensures safeMoves == Filter(moves, SafeTest(state.Value(), hyggeBot, opponentBot))
  {
    ghost var st := state.Value();
    safeMoves := [];
    for i := 0 to |moves|
      invariant state.Value() == st
      invariant safeMoves == Filter(moves[..i], SafeTest(st, hyggeBot, opponentBot))
    {
      var move := moves[i];
      var safe := OpponentCannotWin(state, move, hyggeBot, opponentBot);
      FilterPrefix(moves, SafeTest(st, hyggeBot, opponentBot), i);
      if safe {
        safeMoves := safeMoves + [move];
      }
    }
    assert moves[..|moves|] == moves;
  }

  /** The move doMove blocks is the first available move with which the
      opponent would win a sub-board. */
  lemma BlocksFirstThreat(st: State, k: nat)
    requires ValidState(st) && k < |Moves(st)|
    requires OnePlyWin(st.board, Moves(st)[k], OpponentPlayer(st.moveNumber))
    requires forall j :: 0 <= j < k ==> !OnePlyWin(st.board, Moves(st)[j], OpponentPlayer(st.moveNumber))
    ensures var threats := WinningMoves(st.board, Moves(st), OpponentPlayer(st.moveNumber));
      |threats| > 0 && threats[0] == Moves(st)[k]
  {
    WinningMovesFirst(st.board, Moves(st), OpponentPlayer(st.moveNumber), k);
  }

  /** Every safe move is an available move after which the opponent has no
      winning move, and the safe own wins are exactly the own winning moves
      among them. */
  lemma SafeMovesExact(st: State, m: Move)
    requires ValidState(st)
    ensures var own, opp := BotPlayer(st.moveNumber), OpponentPlayer(st.moveNumber);
      && (m in Filter(Moves(st), SafeTest(st, own, opp)) <==> m in Moves(st) && LeavesNoWin(st, m, own, opp))
      && (m in Filter(WinningMoves(st.board, Moves(st), own), SafeTest(st, own, opp))
          <==> m in Moves(st) && OnePlyWin(st.board, m, own) && LeavesNoWin(st, m, own, opp))
  {
    var own, opp := BotPlayer(st.moveNumber), OpponentPlayer(st.moveNumber);
    FilterMembers(Moves(st), SafeTest(st, own, opp), m);
    FilterMembers(WinningMoves(st.board, Moves(st), own), SafeTest(st, own, opp), m);
    WinningMovesExact(st.board, Moves(st), own, m);
  }

  // ---------------------------------------------------------------------
  // The corner helpers

  /** Math.abs on the small coordinates of the board. */
  function Abs(n: int): (r: nat)
    ensures r == n || r == -n
  {
    if n < 0 then -n else n
  }

  /** manhattanDistance: never negative, and zero exactly for the same
      cell. */
  function ManhattanDistance(a: Move, b: Move): (d: int)
    ensures d >= 0
    ensures d == 0 <==> a == b
  {
    Abs(a.x - b.x) + Abs(a.y - b.y)
  }

  /** The distance does not depend on the order of the two moves. */
  lemma ManhattanSymmetric(a: Move, b: Move)
    ensures ManhattanDistance(a, b) == ManhattanDistance(b, a)
  {
  }

  /** getCorners: the available moves that are corners, in order. */
  method GetCorners(state: Simulator.GameState) returns (corners: seq<Move>)
    requires state.Valid()
    ensures corners == CornerMoves(state.AvailableMoves())
  {
    corners := CollectCorners(state);
  }

  /** The pairs the inner loop of getCloseCorners adds for the i-th corner,
      once j has reached n: for each j with i < j < n in turn, c[i] and then
      c[j] when they are at distance at most 2. */
  function PairsOf(c: seq<Move>, i: nat, n: nat): seq<Move>
    requires i < |c| && n <= |c|
    decreases n
  {
    if n <= i + 1 then []
    else PairsOf(c, i, n - 1) + (if ManhattanDistance(c[i], c[n - 1]) <= 2 then [c[i], c[n - 1]] else [])
  }

  /** What getCloseCorners has collected once the outer loop has handled
      the first n corners. */
  function CloseCornersOf(c: seq<Move>, n: nat): seq<Move>
    requires n <= |c|
  {
    if n == 0 then [] else CloseCornersOf(c, n - 1) + PairsOf(c, n - 1, |c|)
  }

  /** getCloseCorners: for every pair of corners i < j at distance at most
      2, both moves in that order. */
  method GetCloseCorners(state: Simulator.GameState) returns (closeCorners: seq<Move>)
    requires state.Valid()
    ensures var c := CornerMoves(state.AvailableMoves());
      closeCorners == CloseCornersOf(c, |c|)
  {
    var avail := GetCorners(state);
    closeCorners := [];
    for i := 0 to |avail|
      invariant closeCorners == CloseCornersOf(avail, i)
    {
      var move1 := avail[i];
      for j := i + 1 to |avail|
        invariant closeCorners == CloseCornersOf(avail, i) + PairsOf(avail, i, j)
      {
        var move2 := avail[j];
        if ManhattanDistance(move1, move2) <= 2 {
          closeCorners := closeCorners + [move1, move2];
        }
      }
    }
  }

  /** The k-th pair of a pair list. */
  function First(r: seq<Move>, k: nat): Move
    requires 2 * k + 1 < |r|
  {
    r[2 * k]
  }

  function Second(r: seq<Move>, k: nat): Move
    requires 2 * k + 1 < |r|
  {
    r[2 * k + 1]
  }

  /** a and b are corners i < j of c at distance at most 2. */
  ghost predicate IsClosePair(c: seq<Move>, a: Move, b: Move) {
    exists i, j :: 0 <= i < j < |c| && c[i] == a && c[j] == b && ManhattanDistance(a, b) <= 2
  }

  /** r is a list of pairs, each a close pair of c. */
  ghost predicate ClosePairsOnly(c: seq<Move>, r: seq<Move>) {
    |r| % 2 == 0 && forall k :: 0 <= k < |r| / 2 ==> IsClosePair(c, First(r, k), Second(r, k))
  }

  /** (a, b) is one of the pairs of r. */
  ghost predicate HasPair(r: seq<Move>, a: Move, b: Move) {
    |r| % 2 == 0 && exists k :: 0 <= k < |r| / 2 && First(r, k) == a && Second(r, k) == b
  }

  lemma ClosePairsConcat(c: seq<Move>, a: seq<Move>, b: seq<Move>)
    requires ClosePairsOnly(c, a) && ClosePairsOnly(c, b)
    ensures ClosePairsOnly(c, a + b)
  {
    forall k | 0 <= k < |a + b| / 2
      ensures IsClosePair(c, First(a + b, k), Second(a + b, k))
    {
      if k < |a| / 2 {
        assert First(a + b, k) == First(a, k) && Second(a + b, k) == Second(a, k);
      } else {
        assert First(a + b, k) == First(b, k - |a| / 2) && Second(a + b, k) == Second(b, k - |a| / 2);
      }
    }
  }

  lemma HasPairLeft(a: seq<Move>, b: seq<Move>, x: Move, y: Move)
    requires HasPair(a, x, y) && |b| % 2 == 0
    ensures HasPair(a + b, x, y)
  {
    var k :| 0 <= k < |a| / 2 && First(a, k) == x && Second(a, k) == y;
    assert First(a + b, k) == x && Second(a + b, k) == y;
  }

  lemma HasPairRight(a: seq<Move>, b: seq<Move>, x: Move, y: Move)
    requires HasPair(b, x, y) && |a| % 2 == 0
    ensures HasPair(a + b, x, y)
  {
    var k :| 0 <= k < |b| / 2 && First(b, k) == x && Second(b, k) == y;
    assert First(a + b, k + |a| / 2) == x && Second(a + b, k + |a| / 2) == y;
  }

  /** The inner loop adds only close pairs (c[i], c[j]) with i < j, and
      every one of them for j < n. */
  lemma {:induction false} PairsOfShape(c: seq<Move>, i: nat, n: nat)
    requires i < |c| && n <= |c|
    ensures ClosePairsOnly(c, PairsOf(c, i, n))
    ensures forall j :: i < j < n && ManhattanDistance(c[i], c[j]) <= 2 ==> HasPair(PairsOf(c, i, n), c[i], c[j])
    decreases n
  {
    if n > i + 1 {
      var prev := PairsOf(c, i, n - 1);
      var extra := if ManhattanDistance(c[i], c[n - 1]) <= 2 then [c[i], c[n - 1]] else [];
      PairsOfShape(c, i, n - 1);
      if extra != [] {
        assert First(extra, 0) == c[i] && Second(extra, 0) == c[n - 1];
        assert IsClosePair(c, c[i], c[n - 1]);
      }
      ClosePairsConcat(c, prev, extra);
      forall j | i < j < n && ManhattanDistance(c[i], c[j]) <= 2
        ensures HasPair(prev + extra, c[i], c[j])
      {
        if j < n - 1 {
          HasPairLeft(prev, extra, c[i], c[j]);
        } else {
          assert First(extra, 0) == c[i] && Second(extra, 0) == c[j];
          HasPairRight(prev, extra, c[i], c[j]);
        }
      }
    }
  }

  /** getCloseCorners returns a list of even length made of pairs, and
      each pair is two corners i < j of the list at distance at most 2. */
  lemma {:induction false} CloseCornersSound(c: seq<Move>, n: nat)
    requires n <= |c|
    ensures |CloseCornersOf(c, n)| % 2 == 0
    ensures ClosePairsOnly(c, CloseCornersOf(c, n))
  {
    if n > 0 {
      CloseCornersSound(c, n - 1);
      PairsOfShape(c, n - 1, |c|);
      ClosePairsConcat(c, CloseCornersOf(c, n - 1), PairsOf(c, n - 1, |c|));
    }
  }

  /** Every pair of corners i < j at distance at most 2 occurs in the
      result, first move first. */
  lemma {:induction false} CloseCornersComplete(c: seq<Move>, n: nat)
    requires n <= |c|
    ensures forall i, j :: 0 <= i < n && i < j < |c| && ManhattanDistance(c[i], c[j]) <= 2 ==>
              HasPair(CloseCornersOf(c, n), c[i], c[j])
  {
    if n > 0 {
      var prev := CloseCornersOf(c, n - 1);
      var pairs := PairsOf(c, n - 1, |c|);
      CloseCornersSound(c, n - 1);
      CloseCornersComplete(c, n - 1);
      PairsOfShape(c, n - 1, |c|);
      forall i, j | 0 <= i < n && i < j < |c| && ManhattanDistance(c[i], c[j]) <= 2
        ensures HasPair(prev + pairs, c[i], c[j])
      {
        if i < n - 1 {
          HasPairLeft(prev, pairs, c[i], c[j]);
        } else {
          HasPairRight(prev, pairs, c[i], c[j]);
        }
      }
    }
  }
}
