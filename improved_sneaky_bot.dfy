/** ImprovedSneakyBot: while the clock reads before a 1000 ms deadline, run
    a pass over the available moves, each searched with a depth-5 alpha-beta
    minimax without any clock, and return the first move of the best score
    above Integer.MIN_VALUE; once the clock has run out, a random available
    move. Its evaluate scores pieces for the leaf's player to move and throws
    on a won game (module SneakyEval); the exception ends the whole move. */
module ImprovedSneakyBot {
  import opened Marks
  import opened Grids
  import opened Rules
  import opened Arrays
  import Simulator
  import opened GameTree
  import opened Search
  import opened Clocks
  import opened Replies
  import SneakyEval

  /** moveTimeMs. */
  const MoveTimeMs: int := 1000

  /** evaluate: the piece count of module SneakyEval on the simulator's
      board, None when it throws. */
  method Evaluate(simulator: Simulator.GameSimulator) returns (r: Option<int>)
    requires simulator.Valid()
    ensures r == Score(SneakyEvaluator, simulator.Snapshot())
  {
    r := SneakyEval.Evaluate(GridOf(simulator.currentState.board), simulator.currentState.moveNumber,
                             simulator.gameOver);
  }

  /** minimax: evaluate at depth MAX_DEPTH or once the game is over;
      otherwise for each available move in order search the child simulator
      and update maxEval/minEval and the window, stopping at a cutoff. An
      exception from a leaf ends the search (None). `t` is the tree the
      simulator unfolds; the result is the alpha-beta value `Prune` of it. */
  method Minimax(simulator: Simulator.GameSimulator, depth: nat, maximizingPlayer: bool, alpha: int, beta: int,
                 ghost t: Tree) returns (r: Option<int>)
    requires simulator.Valid() && depth <= MaxDepth
    requires IsSearchTree(SneakyEvaluator, simulator.Snapshot(), depth, t)
    ensures r == Prune(t, maximizingPlayer, alpha, beta)
    decreases MaxDepth - depth, 2
  {
    if depth == MaxDepth || simulator.gameOver != Active {
      r := Evaluate(simulator);
      return;
    }
    ghost var s := simulator.Snapshot();
    var moves := simulator.currentState.AvailableMoves();
    NodeSubtrees(SneakyEvaluator, s, depth, t);
    if maximizingPlayer {
      r := MaximizeChildren(simulator, depth, moves, alpha, beta, s.state, t);
    } else {
      r := MinimizeChildren(simulator, depth, moves, alpha, beta, s.state, t);
    }
  }

  /** The maximizing branch of minimax: the loop over the children with
      maxEval and alpha. */
  method MaximizeChildren(simulator: Simulator.GameSimulator, depth: nat, moves: seq<Move>, alpha: int, beta: int,
                          ghost st: State, ghost t: Tree) returns (r: Option<int>)
    requires simulator.Valid() && simulator.currentState.Value() == st && depth < MaxDepth
    requires t.Node? && AreSubtrees(SneakyEvaluator, st, moves, depth + 1, t.children)
    ensures r == PruneLoop(t, 0, true, alpha, beta, MinInt)
    decreases MaxDepth - depth, 1
  {
    var maxEval, a := MinInt, alpha;
    var i := 0;
    while i < |moves|
      invariant i <= |moves| == |t.children|
      invariant PruneLoop(t, i, true, a, beta, maxEval) == PruneLoop(t, 0, true, alpha, beta, MinInt)
      decreases |moves| - i
    {
      var eval := SearchChild(simulator, depth, moves, i, false, a, beta, st, t.children);
      if eval.None? {
        return None;
      }
      maxEval, a := Max(maxEval, eval.value), Max(a, eval.value);
      if beta <= a {
        return Some(maxEval);
      }
      i := i + 1;
    }
    return Some(maxEval);
  }

  /** The minimizing branch of minimax: the loop over the children with
      minEval and beta. */
  method MinimizeChildren(simulator: Simulator.GameSimulator, depth: nat, moves: seq<Move>, alpha: int, beta: int,
                          ghost st: State, ghost t: Tree) returns (r: Option<int>)
    requires simulator.Valid() && simulator.currentState.Value() == st && depth < MaxDepth
    requires t.Node? && AreSubtrees(SneakyEvaluator, st, moves, depth + 1, t.children)
    ensures r == PruneLoop(t, 0, false, alpha, beta, MaxInt)
    decreases MaxDepth - depth, 1
  {
    var minEval, b := MaxInt, beta;
    var i := 0;
    while i < |moves|
      invariant i <= |moves| == |t.children|
      invariant PruneLoop(t, i, false, alpha, b, minEval) == PruneLoop(t, 0, false, alpha, beta, MaxInt)
      decreases |moves| - i
    {
      var eval := SearchChild(simulator, depth, moves, i, true, alpha, b, st, t.children);
      if eval.None? {
        return None;
      }
      minEval, b := Min(minEval, eval.value), Min(b, eval.value);
      if b <= alpha {
        return Some(minEval);
      }
      i := i + 1;
    }
    return Some(minEval);
  }

  /** The body of both loops of minimax for move i: a simulator for the
      child, searched one level deeper with the other player to move. */
  method SearchChild(simulator: Simulator.GameSimulator, depth: nat, moves: seq<Move>, i: nat, maximizingPlayer: bool,
                     alpha: int, beta: int, ghost st: State, ghost kids: seq<Tree>) returns (eval: Option<int>)
    requires simulator.Valid() && simulator.currentState.Value() == st && depth < MaxDepth && i < |moves|
    requires AreSubtrees(SneakyEvaluator, st, moves, depth + 1, kids)
    ensures i < |kids| && eval == Prune(kids[i], maximizingPlayer, alpha, beta)
    decreases MaxDepth - depth, 0
  {
    var childSimulator := Simulator.CreateChild(simulator.currentState, moves[i]);
    eval := Minimax(childSimulator, depth + 1, maximizingPlayer, alpha, beta, kids[i]);
  }

  // ---------------------------------------------------------------------
  // The root: doMove and calculateWinningMove

  /** doMove: whatever calculateWinningMove returns. */
  method DoMove(state: Simulator.GameState, clock: Clock, ghost expiry: nat) returns (r: Reply, ghost kids: seq<Tree>)
    requires state.Valid()
    requires ExpiresBy(clock.readings, At(clock.readings, clock.polls) + MoveTimeMs, expiry)
    modifies clock
    ensures var st := old(state.Value());
      var inTime := At(clock.readings, old(clock.polls) + 1) < At(clock.readings, old(clock.polls)) + MoveTimeMs;
      var pass := Scan(kids, 0, MinInt, None);
      && r != NoMove
      && (r.Play? ==> r.move in Moves(st))
      && (!inTime || pass == Finished(None) ==> (r == Throws <==> |Moves(st)| == 0))
      && (inTime ==> AreSubtrees(SneakyEvaluator, st, Moves(st), 0, kids))
      && (inTime && pass == Failed ==> r == Throws)
      && (inTime && pass.Finished? && pass.best.Some? ==>
            pass.best.value < |Moves(st)| && r == Play(Moves(st)[pass.best.value]))
  {
    r, kids := CalculateWinningMove(state, MoveTimeMs, clock, expiry);
  }

  /** calculateWinningMove: read the clock and set the deadline maxTimeMs
      later; while the clock reads before the deadline, run a pass over the
      moves of a fresh simulator's copy of the state and return its best move
      when it has one; once the clock reads the deadline, a random available
      move. No pass polls the clock and every pass searches the same
      subtrees, so the reply is decided by the first one: `kids` are the
      subtrees it searches (AreSubtrees describes exactly one sequence, the
      RootTrees of the moves), and it ends as `Scan` over them does. A
      thrown exception (Throws) ends the loop. */
  method CalculateWinningMove(state: Simulator.GameState, maxTimeMs: int, clock: Clock, ghost expiry: nat)
    returns (r: Reply, ghost kids: seq<Tree>)
    requires state.Valid()
    requires ExpiresBy(clock.readings, At(clock.readings, clock.polls) + maxTimeMs, expiry)
    modifies clock
    ensures var st := old(state.Value());
      var inTime := At(clock.readings, old(clock.polls) + 1) < At(clock.readings, old(clock.polls)) + maxTimeMs;
      var pass := Scan(kids, 0, MinInt, None);
      && r != NoMove
      && (r.Play? ==> r.move in Moves(st))
      && (!inTime || pass == Finished(None) ==> (r == Throws <==> |Moves(st)| == 0))
      && (inTime ==> AreSubtrees(SneakyEvaluator, st, Moves(st), 0, kids))
      && (inTime && pass == Failed ==> r == Throws)
      && (inTime && pass.Finished? && pass.best.Some? ==>
            pass.best.value < |Moves(st)| && r == Play(Moves(st)[pass.best.value]))
  {
    ghost var st := state.Value();
    var time := clock.Now();
    var deadline := time + maxTimeMs;
    var now := clock.Now();
    if now < deadline {
      r, kids := SearchFromFirstPass(state, clock, deadline, expiry, st);
    } else {
      var moves := state.AvailableMoves();
      r := RandomMove(moves);
      kids := [];
    }
  }

  /** The loop once the clock has read before the deadline: the first pass,
      whose outcome decides the reply, and the remaining iterations when it
      has no best move. */
  method SearchFromFirstPass(state: Simulator.GameState, clock: Clock, deadline: int, ghost expiry: nat,
                             ghost st: State) returns (r: Reply, ghost kids: seq<Tree>)
    requires state.Valid() && state.Value() == st && ExpiresBy(clock.readings, deadline, expiry)
    modifies clock
    ensures r != NoMove
    ensures r.Play? ==> r.move in Moves(st)
    ensures AreSubtrees(SneakyEvaluator, st, Moves(st), 0, kids)
    ensures Scan(kids, 0, MinInt, None) == Finished(None) ==> (r == Throws <==> |Moves(st)| == 0)
    ensures Scan(kids, 0, MinInt, None) == Failed ==> r == Throws
    ensures var pass := Scan(kids, 0, MinInt, None);
      pass.Finished? && pass.best.Some? ==> pass.best.value < |Moves(st)| && r == Play(Moves(st)[pass.best.value])
  {
    var done;
    ghost var pass;
    done, r, kids, pass := RunPass(state, st);
    if done {
      return;
    }
    ghost var later;
    r, later := SearchRoot(state, clock, deadline, expiry, st);
    AreSubtreesUnique(SneakyEvaluator, st, Moves(st), 0, kids);
  }

  /** The loop from its second iteration on. `later` are the subtrees the
      pass that decided the reply searched, if one did. */
  method SearchRoot(state: Simulator.GameState, clock: Clock, deadline: int, ghost expiry: nat, ghost st: State)
    returns (r: Reply, ghost later: seq<Tree>)
    requires state.Valid() && state.Value() == st && ExpiresBy(clock.readings, deadline, expiry)
    modifies clock
    ensures r != NoMove
    ensures r.Play? ==> r.move in Moves(st)
    ensures |Moves(st)| == 0 ==> r == Throws
    ensures r == Throws ==>
      (|Moves(st)| == 0 || (AreSubtrees(SneakyEvaluator, st, Moves(st), 0, later) && Scan(later, 0, MinInt, None) == Failed))
  {
    later := [];
    var now := clock.Now();
    while now < deadline
      invariant state.Value() == st
      invariant clock.polls >= 1 && now == At(clock.readings, clock.polls - 1)
      decreases expiry - clock.polls
    {
      var done;
      ghost var pass;
      done, r, later, pass := RunPass(state, st);
      if done {
        return;
      }
      now := clock.Now();
    }
    var moves := state.AvailableMoves();
    r := RandomMove(moves);
  }

  /** One iteration of the loop: a pass over the subtrees `kids` of the
      state's moves. It stops the loop unless the pass finished without a
      best move; then the reply is the best move, or Throws when a search
      threw. */
  method RunPass(state: Simulator.GameState, ghost st: State)
    returns (done: bool, r: Reply, ghost kids: seq<Tree>, ghost pass: ScanEnd)
    requires state.Valid() && state.Value() == st
    ensures AreSubtrees(SneakyEvaluator, st, Moves(st), 0, kids)
    ensures pass == Scan(kids, 0, MinInt, None)
    ensures done <==> pass != Finished(None)
    ensures done ==> |Moves(st)| > 0 && r != NoMove && (r.Play? ==> r.move in Moves(st)) && (r == Throws ==> pass == Failed)
    ensures pass == Failed ==> r == Throws
    ensures pass.Finished? && pass.best.Some? ==>
      pass.best.value < |Moves(st)| && r == Play(Moves(st)[pass.best.value])
  {
    var moves := RootMoves(state);
    kids := RootTrees(SneakyEvaluator, st, moves);
    RootTreesAreSubtrees(SneakyEvaluator, st, moves);
    var failed, bestMove, best := RootPass(state, moves, st, kids);
    pass := if failed then Failed else Finished(best);
    if failed {
      return true, Throws, kids, pass;
    }
    if bestMove.Some? {
      return true, Play(bestMove.value), kids, pass;
    }
    return false, Throws, kids, pass;
  }

  /** One pass over the moves from alpha = Integer.MIN_VALUE: each child
      searched minimizing with window (alpha, Integer.MAX_VALUE), a score
      above alpha becoming alpha and the best move. It ends as `Scan` over
      the moves' subtrees ends. */
  method RootPass(state: Simulator.GameState, moves: seq<Move>, ghost st: State, ghost kids: seq<Tree>)
    returns (failed: bool, bestMove: Option<Move>, ghost best: Option<nat>)
    requires state.Valid() && state.Value() == st
    requires AreSubtrees(SneakyEvaluator, st, moves, 0, kids)
    ensures best.Some? ==> best.value < |moves|
    ensures bestMove == if best.Some? then Some(moves[best.value]) else None
    ensures Scan(kids, 0, MinInt, None) == if failed then Failed else Finished(best)
  {
    ghost var goal := Scan(kids, 0, MinInt, None);
    var alpha := MinInt;
    bestMove, best := None, None;
    var i := 0;
    while i < |moves|
      invariant i <= |moves| && |kids| == |moves| && state.Value() == st
      invariant best.Some? ==> best.value < i
      invariant bestMove == if best.Some? then Some(moves[best.value]) else None
      invariant Scan(kids, i, alpha, best) == goal
    {
      var score := SearchRootChild(state, moves, i, alpha, st, kids);
      if score.None? {
        return true, bestMove, best;
      }
      if score.value > alpha {
        alpha := score.value;
        bestMove, best := Some(moves[i]), Some(i);
      }
      i := i + 1;
    }
    return false, bestMove, best;
  }

  /** The search of root move i: a simulator for the child, searched
      minimizing from depth 0 with beta = Integer.MAX_VALUE. */
  method SearchRootChild(state: Simulator.GameState, moves: seq<Move>, i: nat, alpha: int,
                         ghost st: State, ghost kids: seq<Tree>) returns (score: Option<int>)
    requires state.Valid() && state.Value() == st && i < |moves|
    requires AreSubtrees(SneakyEvaluator, st, moves, 0, kids)
    ensures i < |kids| && score == Prune(kids[i], false, alpha, MaxInt)
  {
    var childSimulator := Simulator.CreateChild(state, moves[i]);
    score := Minimax(childSimulator, 0, false, alpha, MaxInt, kids[i]);
  }

  /** Whenever one of the available moves wins the game outright, the first
      pass throws: evaluateMacroBoard reads a winner that is never set. So a
      move that starts in time never plays a game-winning move. */
  lemma ThrowsOnWinningMove(st: State, kids: seq<Tree>, k: nat)
    requires ValidState(st) && AreSubtrees(SneakyEvaluator, st, Moves(st), 0, kids)
    requires k < |Moves(st)| && Child(st, Moves(st)[k]).gameOver == Win
    ensures Scan(kids, 0, MinInt, None) == Failed
  {
    SubtreesAreRootTrees(SneakyEvaluator, st, Moves(st), kids);
    SneakyPassFailsOnWinningMove(st, Moves(st), k);
  }
}
