/** HyggeBot: take a move that wins a sub-board at once if there is one,
    otherwise open in the centre of an empty field, otherwise search each
    available move with a depth-5 alpha-beta minimax under a 980 ms budget and
    play the first move with the best score. */
module HyggeBot {
  import opened Marks
  import opened Grids
  import opened Rules
  import opened Arrays
  import Simulator
  import opened GameTree
  import opened Search
  import opened Clocks
  import HyggeEval
  import OnePly
  import opened Replies

  /** maxTimeMs. */
  const MaxTimeMs: int := 980

  /** The evaluator of a search started from the given state: the bot is the
      player to move there (getHyggeBot), the opponent the other one. */
  function RootEvaluator(st: State): (ev: Evaluator)
    ensures ev.HyggeEvaluator? && ev.own == BotPlayer(st.moveNumber) && ev.opp != ev.own
  {
    HyggeEvaluator(BotPlayer(st.moveNumber), OpponentPlayer(st.moveNumber))
  }

  /** The centre opening: (4, 4) is Empty and so is the whole field. */
  predicate CentreOpening(st: State)
    requires ValidState(st)
  {
    st.board[4][4] == Empty && BoardIsEmpty(st.board)
  }

  /** minimax: evaluate at depth MAX_DEPTH or when the game is over; otherwise
      for each available move in order, poll the clock and give up with the
      running maxEval/minEval once it reads past the deadline, else search the
      child simulator and update the running value and the window, stopping
      at a cutoff. `t` is the tree the simulator unfolds (IsSearchTree
      describes exactly one tree, SearchTree); the result and the clock
      afterwards are those of `Timed` on it. */
  method Minimax(simulator: Simulator.GameSimulator, depth: nat, maximizingPlayer: bool, alpha: int, beta: int,
                 hyggeBot: Player, opponentBot: Player, clock: Clock, deadline: int, ghost t: Tree) returns (r: int)
    requires simulator.Valid() && depth <= MaxDepth
    requires IsSearchTree(HyggeEvaluator(hyggeBot, opponentBot), simulator.Snapshot(), depth, t)
    modifies clock
    ensures Timed(t, maximizingPlayer, alpha, beta, clock.readings, deadline, old(clock.polls)) == (Some(r), clock.polls)
    decreases MaxDepth - depth, 2
  {
    if depth == MaxDepth || simulator.gameOver != Active {
      return HyggeEval.Evaluate(GridOf(simulator.currentState.board), GridOf(simulator.currentState.macroboard),
                                hyggeBot, opponentBot);
    }
    ghost var s := simulator.Snapshot();
    var moves := simulator.currentState.AvailableMoves();
    NodeSubtrees(HyggeEvaluator(hyggeBot, opponentBot), s, depth, t);
    if maximizingPlayer {
      r := MaximizeChildren(simulator, depth, moves, alpha, beta, hyggeBot, opponentBot, clock, deadline, s.state, t);
    } else {
      r := MinimizeChildren(simulator, depth, moves, alpha, beta, hyggeBot, opponentBot, clock, deadline, s.state, t);
    }
  }

  /** The maximizing branch of minimax: the loop over the children with
      maxEval and alpha. The children of `t` are the subtrees of `moves`,
      the moves of state `st`. */
  method MaximizeChildren(simulator: Simulator.GameSimulator, depth: nat, moves: seq<Move>, alpha: int, beta: int,
                          hyggeBot: Player, opponentBot: Player, clock: Clock, deadline: int,
                          ghost st: State, ghost t: Tree) returns (r: int)
    requires simulator.Valid() && simulator.currentState.Value() == st && depth < MaxDepth
    requires t.Node? && AreSubtrees(HyggeEvaluator(hyggeBot, opponentBot), st, moves, depth + 1, t.children)
    modifies clock
    ensures TimedLoop(t, 0, true, alpha, beta, MinInt, clock.readings, deadline, old(clock.polls)) == (Some(r), clock.polls)
    decreases MaxDepth - depth, 1
  {
    ghost var goal := TimedLoop(t, 0, true, alpha, beta, MinInt, clock.readings, deadline, clock.polls);
    var maxEval, a := MinInt, alpha;
    var i := 0;
    while i < |moves|
      invariant i <= |moves|
      invariant TimedLoop(t, i, true, a, beta, maxEval, clock.readings, deadline, clock.polls) == goal
      decreases |moves| - i
    {
      var stop;
      stop, maxEval, a := MaximizeStep(simulator, depth, moves, i, a, beta, maxEval, hyggeBot, opponentBot,
                                       clock, deadline, st, t);
      if stop {
        return maxEval;
      }
      i := i + 1;
    }
    return maxEval;
  }

  /** One pass of the maximizing loop for move i: poll the clock and stop
      past the deadline, else search the child and fold its value into
      maxEval and alpha, stopping when beta <= alpha. */
  method MaximizeStep(simulator: Simulator.GameSimulator, depth: nat, moves: seq<Move>, i: nat,
                      alpha: int, beta: int, maxEval: int, hyggeBot: Player, opponentBot: Player,
                      clock: Clock, deadline: int, ghost st: State, ghost t: Tree)
    returns (stop: bool, maxEval': int, alpha': int)
    requires simulator.Valid() && simulator.currentState.Value() == st && depth < MaxDepth && i < |moves|
    requires t.Node? && AreSubtrees(HyggeEvaluator(hyggeBot, opponentBot), st, moves, depth + 1, t.children)
    modifies clock
    ensures TimedLoop(t, i, true, alpha, beta, maxEval, clock.readings, deadline, old(clock.polls))
         == if stop then (Some(maxEval'), clock.polls)
            else TimedLoop(t, i + 1, true, alpha', beta, maxEval', clock.readings, deadline, clock.polls)
    decreases MaxDepth - depth, 0
  {
    ghost var p := clock.polls;
    var now := clock.Now();
    if now > deadline {
      TimedLoopExpired(t, i, true, alpha, beta, maxEval, clock.readings, deadline, p);
      return true, maxEval, alpha;
    }
    var eval := SearchChild(simulator, depth, moves, i, false, alpha, beta, hyggeBot, opponentBot, clock, deadline,
                            st, t.children);
    TimedMaxStep(t, i, alpha, beta, maxEval, clock.readings, deadline, p, eval, clock.polls);
    maxEval', alpha' := Max(maxEval, eval), Max(alpha, eval);
    stop := beta <= alpha';
  }

  /** The minimizing branch of minimax: the loop over the children with
      minEval and beta. */
  method MinimizeChildren(simulator: Simulator.GameSimulator, depth: nat, moves: seq<Move>, alpha: int, beta: int,
                          hyggeBot: Player, opponentBot: Player, clock: Clock, deadline: int,
                          ghost st: State, ghost t: Tree) returns (r: int)
    requires simulator.Valid() && simulator.currentState.Value() == st && depth < MaxDepth
    requires t.Node? && AreSubtrees(HyggeEvaluator(hyggeBot, opponentBot), st, moves, depth + 1, t.children)
    modifies clock
    ensures TimedLoop(t, 0, false, alpha, beta, MaxInt, clock.readings, deadline, old(clock.polls)) == (Some(r), clock.polls)
    decreases MaxDepth - depth, 1
  {
    ghost var goal := TimedLoop(t, 0, false, alpha, beta, MaxInt, clock.readings, deadline, clock.polls);
    var minEval, b := MaxInt, beta;
    var i := 0;
    while i < |moves|
      invariant i <= |moves|
      invariant TimedLoop(t, i, false, alpha, b, minEval, clock.readings, deadline, clock.polls) == goal
      decreases |moves| - i
    {
      var stop;
      stop, minEval, b := MinimizeStep(simulator, depth, moves, i, alpha, b, minEval, hyggeBot, opponentBot,
                                       clock, deadline, st, t);
      if stop {
        return minEval;
      }
      i := i + 1;
    }
    return minEval;
  }

  /** One pass of the minimizing loop for move i. */
  method MinimizeStep(simulator: Simulator.GameSimulator, depth: nat, moves: seq<Move>, i: nat,
                      alpha: int, beta: int, minEval: int, hyggeBot: Player, opponentBot: Player,
                      clock: Clock, deadline: int, ghost st: State, ghost t: Tree)
    returns (stop: bool, minEval': int, beta': int)
    requires simulator.Valid() && simulator.currentState.Value() == st && depth < MaxDepth && i < |moves|
    requires t.Node? && AreSubtrees(HyggeEvaluator(hyggeBot, opponentBot), st, moves, depth + 1, t.children)
    modifies clock
    ensures TimedLoop(t, i, false, alpha, beta, minEval, clock.readings, deadline, old(clock.polls))
         == if stop then (Some(minEval'), clock.polls)
            else TimedLoop(t, i + 1, false, alpha, beta', minEval', clock.readings, deadline, clock.polls)
    decreases MaxDepth - depth, 0
  {
    ghost var p := clock.polls;
    var now := clock.Now();
    if now > deadline {
      TimedLoopExpired(t, i, false, alpha, beta, minEval, clock.readings, deadline, p);
      return true, minEval, beta;
    }
    var eval := SearchChild(simulator, depth, moves, i, true, alpha, beta, hyggeBot, opponentBot, clock, deadline,
                            st, t.children);
    TimedMinStep(t, i, alpha, beta, minEval, clock.readings, deadline, p, eval, clock.polls);
    minEval', beta' := Min(minEval, eval), Min(beta, eval);
    stop := beta' <= alpha;
  }

  /** The body of both loops of minimax for move i: a simulator for the
      child, searched one level deeper with the other player to move. */
  method SearchChild(simulator: Simulator.GameSimulator, depth: nat, moves: seq<Move>, i: nat, maximizingPlayer: bool,
                     alpha: int, beta: int, hyggeBot: Player, opponentBot: Player, clock: Clock, deadline: int,
                     ghost st: State, ghost kids: seq<Tree>) returns (eval: int)
    requires simulator.Valid() && simulator.currentState.Value() == st && depth < MaxDepth && i < |moves|
    requires AreSubtrees(HyggeEvaluator(hyggeBot, opponentBot), st, moves, depth + 1, kids)
    modifies clock
    ensures i < |kids|
    ensures Timed(kids[i], maximizingPlayer, alpha, beta, clock.readings, deadline, old(clock.polls))
         == (Some(eval), clock.polls)
    decreases MaxDepth - depth, -1
  {
    var childSimulator := Simulator.CreateChild(simulator.currentState, moves[i]);
    eval := Minimax(childSimulator, depth + 1, maximizingPlayer, alpha, beta, hyggeBot, opponentBot, clock, deadline,
                    kids[i]);
  }

  // ---------------------------------------------------------------------
  // The root: doMove and calculateWinningMove

  /** doMove: play a randomly chosen move that wins a sub-board at once if
      there is one, otherwise whatever calculateWinningMove returns. When
      the clock first reads before the deadline and no sub-board can be won
      at once, the reply is decided by the first pass over `kids`, the
      subtrees of the state's moves searched with RootEvaluator: its best
      move when it has one and, when none of its polls reads past the
      deadline, the first root move of maximal minimax value
      (FirstPassFindsBest). */
  method DoMove(state: Simulator.GameState, clock: Clock, ghost expiry: nat) returns (r: Reply, ghost kids: seq<Tree>)
    requires state.Valid()
    requires ExpiresBy(clock.readings, At(clock.readings, clock.polls) + MaxTimeMs, expiry)
    modifies clock
    ensures var st := old(state.Value());
      var wins := OnePly.WinningMoves(st.board, Moves(st), BotPlayer(st.moveNumber));
      && r != NoMove
      && (|wins| > 0 ==> r.Play? && r.move in Moves(st) && OnePly.OnePlyWin(st.board, r.move, BotPlayer(st.moveNumber)))
      && (|wins| == 0 && CentreOpening(st) ==> r == Play(Move(4, 4)))
      && (r == Throws <==> |Moves(st)| == 0 && !CentreOpening(st))
      && (r.Play? && r != Play(Move(4, 4)) ==> r.move in Moves(st))
    ensures var st := old(state.Value());
      var wins := OnePly.WinningMoves(st.board, Moves(st), BotPlayer(st.moveNumber));
      var deadline := At(clock.readings, old(clock.polls)) + MaxTimeMs;
      var pass := TimedScan(kids, 0, MinInt, None, clock.readings, deadline, old(clock.polls) + 2).0;
      |wins| == 0 && !CentreOpening(st) && At(clock.readings, old(clock.polls) + 1) < deadline
      ==> && AreSubtrees(RootEvaluator(st), st, Moves(st), 0, kids)
          && (!pass.Failed? && pass.best.Some? ==> pass.best.value < |Moves(st)| && r == Play(Moves(st)[pass.best.value]))
    ensures var st := old(state.Value());
      var wins := OnePly.WinningMoves(st.board, Moves(st), BotPlayer(st.moveNumber));
      var deadline := At(clock.readings, old(clock.polls)) + MaxTimeMs;
      var n := old(clock.polls) + 2;
      |wins| == 0 && !CentreOpening(st) && At(clock.readings, n - 1) < deadline
      && InTime(clock.readings, deadline, n, TimedScan(kids, 0, MinInt, None, clock.readings, deadline, n).1)
      ==> && ValuesInRange(kids)
          && (SomeAboveMin(kids) ==> exists k :: IsFirstBest(kids, k) && r == Play(Moves(st)[k]))
  {
    var hyggeBot := BotPlayer(state.moveNumber);
    var opponentBot := OpponentPlayer(state.moveNumber);
    var found, move := PickWinningMove(state, hyggeBot);
    if found {
      return Play(move), [];
    }
    r, kids := CalculateWinningMove(state, hyggeBot, opponentBot, clock, expiry);
  }

  /** When none of the polls of the first pass reads past the deadline, the
      pass goes through every root move, and it has a best move exactly when
      some root move's minimax value is above Integer.MIN_VALUE: the first
      root move of maximal minimax value. So calculateWinningMove then
      plays that move. */
  lemma FirstPassFindsBest(own: Player, opp: Player, st: State, kids: seq<Tree>,
                           readings: nat -> int, deadline: int, n: nat)
    requires ValidState(st) && AreSubtrees(HyggeEvaluator(own, opp), st, Moves(st), 0, kids)
    requires InTime(readings, deadline, n, TimedScan(kids, 0, MinInt, None, readings, deadline, n).1)
    ensures ValuesInRange(kids)
    ensures var pass := TimedScan(kids, 0, MinInt, None, readings, deadline, n).0;
      && pass.Finished?
      && (pass.best.Some? <==> SomeAboveMin(kids))
      && (pass.best.Some? ==> IsFirstBest(kids, pass.best.value))
  {
    SubtreesAreRootTrees(HyggeEvaluator(own, opp), st, Moves(st), kids);
    HyggeRootTreesBounded(own, opp, st, Moves(st));
    TimedScanFindsBest(kids, readings, deadline, n);
  }

  /** The first branch of doMove: findWinningMoves, and a random element of
      the list when it is not empty. */
  method PickWinningMove(state: Simulator.GameState, hyggeBot: Player) returns (found: bool, move: Move)
    requires state.Valid()
    ensures var st := state.Value();
      var wins := OnePly.WinningMoves(st.board, Moves(st), hyggeBot);
      && (found <==> |wins| > 0)
      && (found ==> move in Moves(st) && OnePly.OnePlyWin(st.board, move, hyggeBot))
  {
    var winningMoves := OnePly.FindWinningMoves(state, hyggeBot);
    if |winningMoves| == 0 {
      return false, Move(0, 0);
    }
    var k :| 0 <= k < |winningMoves|;
    OnePly.WinningMovesExact(GridOf(state.board), state.AvailableMoves(), hyggeBot, winningMoves[k]);
    return true, winningMoves[k];
  }

  /** calculateWinningMove: read the clock and set the deadline MaxTimeMs
      later; open in the centre of an empty field; otherwise, while the clock
      reads before the deadline, run a pass over the state's moves and return
      its best move when it has one (or a random move when the pass ran out
      of time without one); once the clock reads the deadline, a random
      available move. The first iteration of the loop is written out, so that
      the contract can name the first pass: `kids` are the subtrees of the
      state's moves that it searches (AreSubtrees describes exactly one such
      sequence, the RootTrees of the moves). */
  method CalculateWinningMove(state: Simulator.GameState, hyggeBot: Player, opponentBot: Player,
                              clock: Clock, ghost expiry: nat) returns (r: Reply, ghost kids: seq<Tree>)
    requires state.Valid()
    requires ExpiresBy(clock.readings, At(clock.readings, clock.polls) + MaxTimeMs, expiry)
    modifies clock
    ensures r != NoMove
    ensures CentreOpening(old(state.Value())) ==> r == Play(Move(4, 4))
    ensures !CentreOpening(old(state.Value())) ==> (r == Throws <==> |Moves(old(state.Value()))| == 0)
    ensures !CentreOpening(old(state.Value())) && r.Play? ==> r.move in Moves(old(state.Value()))
    ensures !CentreOpening(old(state.Value())) && At(clock.readings, old(clock.polls) + 1) < At(clock.readings, old(clock.polls)) + MaxTimeMs
      ==> AreSubtrees(HyggeEvaluator(hyggeBot, opponentBot), old(state.Value()), Moves(old(state.Value())), 0, kids)
    ensures var deadline := At(clock.readings, old(clock.polls)) + MaxTimeMs;
      var pass := TimedScan(kids, 0, MinInt, None, clock.readings, deadline, old(clock.polls) + 2).0;
      !CentreOpening(old(state.Value())) && At(clock.readings, old(clock.polls) + 1) < deadline
      && !pass.Failed? && pass.best.Some?
      ==> pass.best.value < |Moves(old(state.Value()))| && r == Play(Moves(old(state.Value()))[pass.best.value])
    ensures var deadline := At(clock.readings, old(clock.polls)) + MaxTimeMs;
      var n := old(clock.polls) + 2;
      !CentreOpening(old(state.Value())) && At(clock.readings, n - 1) < deadline
      && InTime(clock.readings, deadline, n, TimedScan(kids, 0, MinInt, None, clock.readings, deadline, n).1)
      ==> && ValuesInRange(kids)
          && (SomeAboveMin(kids) ==> exists k :: IsFirstBest(kids, k) && r == Play(Moves(old(state.Value()))[k]))
  {
    ghost var st := state.Value();
    var time := clock.Now();
    var deadline := time + MaxTimeMs;
    if CentreOpening(state.Value()) {
      return Play(Move(4, 4)), [];
    }
    r, kids := RootLoop(state, hyggeBot, opponentBot, clock, deadline, expiry, st);
    ghost var n := old(clock.polls) + 2;
    if At(clock.readings, n - 1) < deadline
       && InTime(clock.readings, deadline, n, TimedScan(kids, 0, MinInt, None, clock.readings, deadline, n).1) {
      FirstPassFindsBest(hyggeBot, opponentBot, st, kids, clock.readings, deadline, n);
    }
  }

  /** The root loop: while the clock reads before the deadline, passes over
      the moves; once it reads the deadline, a random available move. */
  method RootLoop(state: Simulator.GameState, hyggeBot: Player, opponentBot: Player,
                  clock: Clock, deadline: int, ghost expiry: nat, ghost st: State)
    returns (r: Reply, ghost kids: seq<Tree>)
    requires state.Valid() && state.Value() == st && ExpiresBy(clock.readings, deadline, expiry)
    modifies clock
    ensures r != NoMove
    ensures r == Throws <==> |Moves(st)| == 0
    ensures r.Play? ==> r.move in Moves(st)
    ensures At(clock.readings, old(clock.polls)) < deadline
      ==> AreSubtrees(HyggeEvaluator(hyggeBot, opponentBot), st, Moves(st), 0, kids)
    ensures var pass := TimedScan(kids, 0, MinInt, None, clock.readings, deadline, old(clock.polls) + 1).0;
      At(clock.readings, old(clock.polls)) < deadline && !pass.Failed? && pass.best.Some?
      ==> pass.best.value < |Moves(st)| && r == Play(Moves(st)[pass.best.value])
  {
    var now := clock.Now();
    if now < deadline {
      r, kids := SearchFromFirstPass(state, hyggeBot, opponentBot, clock, deadline, expiry, st);
    } else {
      var moves := state.AvailableMoves();
      r := RandomMove(moves);
      kids := [];
    }
  }

  /** The root loop once the clock has read before the deadline: a first
      pass, whose best move is the reply when it has one, and then the
      remaining iterations. */
  method SearchFromFirstPass(state: Simulator.GameState, hyggeBot: Player, opponentBot: Player,
                             clock: Clock, deadline: int, ghost expiry: nat, ghost st: State)
    returns (r: Reply, ghost kids: seq<Tree>)
    requires state.Valid() && state.Value() == st && ExpiresBy(clock.readings, deadline, expiry)
    modifies clock
    ensures r != NoMove
    ensures r == Throws <==> |Moves(st)| == 0
    ensures r.Play? ==> r.move in Moves(st)
    ensures AreSubtrees(HyggeEvaluator(hyggeBot, opponentBot), st, Moves(st), 0, kids)
    ensures var pass := TimedScan(kids, 0, MinInt, None, clock.readings, deadline, old(clock.polls)).0;
      !pass.Failed? && pass.best.Some? ==> pass.best.value < |Moves(st)| && r == Play(Moves(st)[pass.best.value])
  {
    var done;
    ghost var pass;
    done, r, kids, pass := RunPass(state, hyggeBot, opponentBot, clock, deadline, st);
    if done {
      return;
    }
    r := SearchRoot(state, hyggeBot, opponentBot, clock, deadline, expiry, st);
  }

  /** The root loop from its second iteration on. */
  method SearchRoot(state: Simulator.GameState, hyggeBot: Player, opponentBot: Player,
                    clock: Clock, deadline: int, ghost expiry: nat, ghost st: State) returns (r: Reply)
    requires state.Valid() && state.Value() == st && ExpiresBy(clock.readings, deadline, expiry)
    modifies clock
    ensures r != NoMove
    ensures r == Throws <==> |Moves(st)| == 0
    ensures r.Play? ==> r.move in Moves(st)
  {
    var now := clock.Now();
    while now < deadline
      invariant state.Value() == st
      invariant clock.polls >= 1 && now == At(clock.readings, clock.polls - 1)
      decreases expiry - clock.polls
    {
      var done;
      done, r := NextPass(state, hyggeBot, opponentBot, clock, deadline, st);
      if done {
        return;
      }
      now := clock.Now();
    }
    var moves := state.AvailableMoves();
    r := RandomMove(moves);
  }

  /** The loop body as the later iterations see it: a pass, and only what
      it promises about the reply. */
  method NextPass(state: Simulator.GameState, hyggeBot: Player, opponentBot: Player,
                 clock: Clock, deadline: int, ghost st: State) returns (done: bool, r: Reply)
    requires state.Valid() && state.Value() == st
    modifies clock
    ensures clock.polls >= old(clock.polls)
    ensures done ==> r != NoMove && (r == Throws <==> |Moves(st)| == 0) && (r.Play? ==> r.move in Moves(st))
  {
    ghost var kids, pass;
    done, r, kids, pass := RunPass(state, hyggeBot, opponentBot, clock, deadline, st);
  }

  /** One iteration of the root loop: a pass over the subtrees `kids` of
      the state's moves. It stops the loop unless the pass finished without
      a best move; when it stops, its reply is the pass's best move, or a
      random one. */
  method RunPass(state: Simulator.GameState, hyggeBot: Player, opponentBot: Player,
                 clock: Clock, deadline: int, ghost st: State)
    returns (done: bool, r: Reply, ghost kids: seq<Tree>, ghost pass: ScanEnd)
    requires state.Valid() && state.Value() == st
    modifies clock
    ensures clock.polls >= old(clock.polls)
    ensures AreSubtrees(HyggeEvaluator(hyggeBot, opponentBot), st, Moves(st), 0, kids)
    ensures pass == TimedScan(kids, 0, MinInt, None, clock.readings, deadline, old(clock.polls)).0
    ensures done <==> pass != Finished(None)
    ensures done ==> r != NoMove && (r == Throws <==> |Moves(st)| == 0) && (r.Play? ==> r.move in Moves(st))
    ensures done && !pass.Failed? && pass.best.Some? ==>
      pass.best.value < |Moves(st)| && r == Play(Moves(st)[pass.best.value])
  {
    ghost var ev := HyggeEvaluator(hyggeBot, opponentBot);
    var moves := RootMoves(state);
    kids := RootTrees(ev, st, moves);
    RootTreesAreSubtrees(ev, st, moves);
    var expired, bestMove, best := RootPass(state, moves, hyggeBot, opponentBot, clock, deadline, st, kids);
    pass := if expired then Expired(best) else Finished(best);
    if bestMove.Some? {
      return true, Play(bestMove.value), kids, pass;
    }
    if expired {
      r := RandomMove(moves);
      return true, r, kids, pass;
    }
    return false, Throws, kids, pass;
  }

  /** One pass of the root loop over the moves, from alpha =
      Integer.MIN_VALUE: it ends, with the best move found so far, as the
      clocked pass `TimedScan` over the moves' subtrees ends. */
  method RootPass(state: Simulator.GameState, moves: seq<Move>, hyggeBot: Player, opponentBot: Player,
                  clock: Clock, deadline: int, ghost st: State, ghost kids: seq<Tree>)
    returns (expired: bool, bestMove: Option<Move>, ghost best: Option<nat>)
    requires state.Valid() && state.Value() == st
    requires AreSubtrees(HyggeEvaluator(hyggeBot, opponentBot), st, moves, 0, kids)
    modifies clock
    ensures best.Some? ==> best.value < |moves|
    ensures bestMove == if best.Some? then Some(moves[best.value]) else None
    ensures TimedScan(kids, 0, MinInt, None, clock.readings, deadline, old(clock.polls))
         == (if expired then Expired(best) else Finished(best), clock.polls)
  {
    ghost var goal := TimedScan(kids, 0, MinInt, None, clock.readings, deadline, clock.polls);
    var alpha := MinInt;
    bestMove, best := None, None;
    var i := 0;
    while i < |moves|
      invariant i <= |moves| && |kids| == |moves| && state.Value() == st
      invariant best.Some? ==> best.value < i
      invariant bestMove == if best.Some? then Some(moves[best.value]) else None
      invariant TimedScan(kids, i, alpha, best, clock.readings, deadline, clock.polls) == goal
    {
      ghost var n := clock.polls;
      var now := clock.Now();
      if now > deadline {
        TimedScanExpired(kids, i, alpha, best, clock.readings, deadline, n);
        return true, bestMove, best;
      }
      var score := SearchRootChild(state, moves, i, alpha, hyggeBot, opponentBot, clock, deadline, st, kids);
      TimedScanStep(kids, i, alpha, best, clock.readings, deadline, n, score, clock.polls);
      if score > alpha {
        alpha := score;
        bestMove, best := Some(moves[i]), Some(i);
      }
      i := i + 1;
    }
    return false, bestMove, best;
  }

  /** The search of root move i: a simulator for the child, searched
      minimizing from depth 0. */
  method SearchRootChild(state: Simulator.GameState, moves: seq<Move>, i: nat, alpha: int,
                         hyggeBot: Player, opponentBot: Player, clock: Clock, deadline: int,
                         ghost st: State, ghost kids: seq<Tree>) returns (score: int)
    requires state.Valid() && state.Value() == st && i < |moves|
    requires AreSubtrees(HyggeEvaluator(hyggeBot, opponentBot), st, moves, 0, kids)
    modifies clock
    ensures Timed(kids[i], false, alpha, MaxInt, clock.readings, deadline, old(clock.polls)) == (Some(score), clock.polls)
  {
    var childSimulator := Simulator.CreateChild(state, moves[i]);
    score := Minimax(childSimulator, 0, false, alpha, MaxInt, hyggeBot, opponentBot, clock, deadline, kids[i]);
  }
}
