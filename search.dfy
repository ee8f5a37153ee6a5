/** The game tree that both bots' minimax explores: from a simulator at a
    given depth, a leaf at depth MAX_DEPTH or once the game is over (scored
    by the bot's evaluate), otherwise one subtree per available move, each
    the simulator that `createSimulator(state)` followed by `updateGame(move)`
    builds. The searches themselves are the functions of module GameTree. */
module Search {
  import opened Marks
  import opened Grids
  import opened Rules
  import opened GameTree
  import HyggeEval
  import SneakyEval

  /** MAX_DEPTH of both bots. */
  const MaxDepth: nat := 5

  /** The leaf evaluation in use: HyggeBot scores for the root's two players;
      ImprovedSneakyBot scores for the leaf's player to move and can throw. */
  datatype Evaluator = HyggeEvaluator(own: Player, opp: Player) | SneakyEvaluator

  /** evaluate of either bot on a simulator; None when it throws. */
  function Score(ev: Evaluator, s: Sim): (r: Option<int>)
    requires ValidSim(s)
    ensures ev.HyggeEvaluator? ==> r.Some?
    ensures ev.SneakyEvaluator? ==> (r.None? <==> s.gameOver == Win)
    ensures r.Some? ==> MinInt < r.value < MaxInt
  {
    match ev
    case HyggeEvaluator(own, opp) => Some(HyggeEval.Evaluate(s.state.board, s.state.macroboard, own, opp))
    case SneakyEvaluator => SneakyEval.Evaluate(s.state.board, s.state.moveNumber, s.gameOver)
  }

  /** A node is evaluated statically at depth MAX_DEPTH or once the game is over. */
  predicate IsLeaf(s: Sim, depth: nat) {
    depth == MaxDepth || s.gameOver != Active
  }

  /** The tree minimax(simulator, depth, ...) explores. */
  function SearchTree(ev: Evaluator, s: Sim, depth: nat): (t: Tree)
    requires ValidSim(s) && depth <= MaxDepth
    decreases MaxDepth - depth
  {
    if IsLeaf(s, depth) then Leaf(Score(ev, s))
    else
      var moves := Moves(s.state);
      Node(seq(|moves|, i requires 0 <= i < |moves| => SearchTree(ev, Child(s.state, moves[i]), depth + 1)))
  }

  /** The subtrees calculateWinningMove searches, one per root move, each
      from depth 0 and minimizing. */
  function RootTrees(ev: Evaluator, st: State, moves: seq<Move>): (kids: seq<Tree>)
    requires ValidState(st)
    ensures |kids| == |moves|
  {
    seq(|moves|, i requires 0 <= i < |moves| => SearchTree(ev, Child(st, moves[i]), 0))
  }

  /** The subtrees of a node whose children are the given moves' children,
      described move by move: subtree j is the search tree of move j's
      child at `depth`. */
  ghost predicate AreSubtrees(ev: Evaluator, st: State, moves: seq<Move>, depth: nat, kids: seq<Tree>)
    requires ValidState(st) && depth <= MaxDepth
    decreases MaxDepth - depth, 1
  {
    |kids| == |moves| &&
    forall j {:trigger Child(st, moves[j])} :: 0 <= j < |moves| ==> IsSearchTree(ev, Child(st, moves[j]), depth, kids[j])
  }

  /** RootTrees is what the description describes at depth 0. */
  lemma RootTreesAreSubtrees(ev: Evaluator, st: State, moves: seq<Move>)
    requires ValidState(st)
    ensures AreSubtrees(ev, st, moves, 0, RootTrees(ev, st, moves))
  {
    var kids := RootTrees(ev, st, moves);
    forall j | 0 <= j < |moves|
      ensures IsSearchTree(ev, Child(st, moves[j]), 0, kids[j])
    {
      SearchTreeIsSearchTree(ev, Child(st, moves[j]), 0);
    }
  }

  /** The subtrees described at depth 0 are the RootTrees of the moves. */
  lemma SubtreesAreRootTrees(ev: Evaluator, st: State, moves: seq<Move>, kids: seq<Tree>)
    requires ValidState(st) && AreSubtrees(ev, st, moves, 0, kids)
    ensures kids == RootTrees(ev, st, moves)
  {
    RootTreesAreSubtrees(ev, st, moves);
    AreSubtreesUnique(ev, st, moves, 0, kids);
  }

  /** The described subtree of move i is the search tree of its child. */
  lemma SubtreeChild(ev: Evaluator, st: State, moves: seq<Move>, depth: nat, kids: seq<Tree>, i: nat)
    requires ValidState(st) && depth <= MaxDepth && AreSubtrees(ev, st, moves, depth, kids) && i < |moves|
    ensures i < |kids| && kids[i] == SearchTree(ev, Child(st, moves[i]), depth)
  {
    var c := Child(st, moves[i]);
    IsSearchTreeUnique(ev, c, depth, kids[i]);
  }

  /** The described subtrees are determined by the moves. */
  lemma AreSubtreesUnique(ev: Evaluator, st: State, moves: seq<Move>, depth: nat, kids: seq<Tree>)
    requires ValidState(st) && depth <= MaxDepth && AreSubtrees(ev, st, moves, depth, kids)
    ensures forall other :: AreSubtrees(ev, st, moves, depth, other) ==> other == kids
  {
    forall other | AreSubtrees(ev, st, moves, depth, other)
      ensures other == kids
    {
      forall i | 0 <= i < |moves|
        ensures other[i] == kids[i]
      {
        SubtreeChild(ev, st, moves, depth, kids, i);
        SubtreeChild(ev, st, moves, depth, other, i);
      }
    }
  }

  /** The children of a described inner node are described subtrees of its
      listed moves, one level deeper. */
  lemma NodeSubtrees(ev: Evaluator, s: Sim, depth: nat, t: Tree)
    requires ValidSim(s) && depth < MaxDepth && s.gameOver == Active && IsSearchTree(ev, s, depth, t)
    ensures t.Node? && AreSubtrees(ev, s.state, Moves(s.state), depth + 1, t.children)
  {
  }

  /** The same tree described node by node: a leaf carries the score of
      its simulator, an inner node one subtree per listed move, each the
      search tree of that move's child one level deeper. */
  ghost predicate IsSearchTree(ev: Evaluator, s: Sim, depth: nat, t: Tree)
    requires ValidSim(s) && depth <= MaxDepth
    decreases MaxDepth - depth, 0
  {
    if IsLeaf(s, depth) then t == Leaf(Score(ev, s))
    else t.Node? && AreSubtrees(ev, s.state, Moves(s.state), depth + 1, t.children)
  }

  /** SearchTree is a tree the node-by-node description holds of. */
  lemma {:induction false} SearchTreeIsSearchTree(ev: Evaluator, s: Sim, depth: nat)
    requires ValidSim(s) && depth <= MaxDepth
    ensures IsSearchTree(ev, s, depth, SearchTree(ev, s, depth))
    decreases MaxDepth - depth, 1
  {
    if !IsLeaf(s, depth) {
      forall j | 0 <= j < |Moves(s.state)|
        ensures IsSearchTree(ev, Child(s.state, Moves(s.state)[j]), depth + 1, SearchTree(ev, s, depth).children[j])
      {
        SearchSubtreeIsSearchTree(ev, s, depth, j);
      }
    }
  }

  /** One subtree at a time. */
  lemma {:induction false} SearchSubtreeIsSearchTree(ev: Evaluator, s: Sim, depth: nat, j: nat)
    requires ValidSim(s) && depth < MaxDepth && s.gameOver == Active && j < |Moves(s.state)|
    ensures SearchTree(ev, s, depth).Node? && j < |SearchTree(ev, s, depth).children|
    ensures IsSearchTree(ev, Child(s.state, Moves(s.state)[j]), depth + 1, SearchTree(ev, s, depth).children[j])
    decreases MaxDepth - depth, 0
  {
    SearchTreeChild(ev, s, depth, j);
    SearchTreeIsSearchTree(ev, Child(s.state, Moves(s.state)[j]), depth + 1);
  }

  /** ... and the only one. */
  lemma {:induction false} IsSearchTreeUnique(ev: Evaluator, s: Sim, depth: nat, t: Tree)
    requires ValidSim(s) && depth <= MaxDepth && IsSearchTree(ev, s, depth, t)
    ensures t == SearchTree(ev, s, depth)
    decreases MaxDepth - depth, 1
  {
    if !IsLeaf(s, depth) {
      var tree := SearchTree(ev, s, depth);
      SearchTreeNode(ev, s, depth);
      forall j | 0 <= j < |Moves(s.state)|
        ensures t.children[j] == tree.children[j]
      {
        IsSearchSubtreeUnique(ev, s, depth, t, j);
      }
      assert t.children == tree.children;
    }
  }

  /** One subtree at a time. */
  lemma {:induction false} IsSearchSubtreeUnique(ev: Evaluator, s: Sim, depth: nat, t: Tree, j: nat)
    requires ValidSim(s) && depth < MaxDepth && s.gameOver == Active && j < |Moves(s.state)|
    requires IsSearchTree(ev, s, depth, t)
    ensures t.Node? && j < |t.children|
    ensures t.children[j] == SearchTree(ev, s, depth).children[j]
    decreases MaxDepth - depth, 0
  {
    NodeSubtrees(ev, s, depth, t);
    var c := Child(s.state, Moves(s.state)[j]);
    IsSearchTreeUnique(ev, c, depth + 1, t.children[j]);
    SearchTreeChild(ev, s, depth, j);
  }

  /** An inner node has one subtree per listed move. */
  lemma SearchTreeNode(ev: Evaluator, s: Sim, depth: nat)
    requires ValidSim(s) && depth < MaxDepth && s.gameOver == Active
    ensures SearchTree(ev, s, depth).Node? && |SearchTree(ev, s, depth).children| == |Moves(s.state)|
  {
  }

  /** The subtree of move i is the search tree of the child one level deeper. */
  lemma SearchTreeChild(ev: Evaluator, s: Sim, depth: nat, i: nat)
    requires ValidSim(s) && depth < MaxDepth && s.gameOver == Active && i < |Moves(s.state)|
    ensures SearchTree(ev, s, depth).Node?
    ensures |SearchTree(ev, s, depth).children| == |Moves(s.state)|
    ensures SearchTree(ev, s, depth).children[i] == SearchTree(ev, Child(s.state, Moves(s.state)[i]), depth + 1)
  {
  }

  /** The subtree of move i of a described inner node is the search tree of
      that move's child one level deeper. */
  lemma IsSearchTreeChild(ev: Evaluator, s: Sim, depth: nat, t: Tree, i: nat)
    requires ValidSim(s) && depth < MaxDepth && s.gameOver == Active && i < |Moves(s.state)|
    requires IsSearchTree(ev, s, depth, t)
    ensures t.Node? && i < |t.children|
    ensures t.children[i] == SearchTree(ev, Child(s.state, Moves(s.state)[i]), depth + 1)
  {
    var c := Child(s.state, Moves(s.state)[i]);
    IsSearchTreeUnique(ev, c, depth + 1, t.children[i]);
  }

  /** HyggeBot's evaluate never throws and stays within the int range, so
      every leaf of its search tree carries such a score. */
  lemma {:induction false} HyggeTreeBounded(own: Player, opp: Player, s: Sim, depth: nat)
    requires ValidSim(s) && depth <= MaxDepth
    ensures Bounded(SearchTree(HyggeEvaluator(own, opp), s, depth))
    decreases MaxDepth - depth
  {
    if !IsLeaf(s, depth) {
      var t := SearchTree(HyggeEvaluator(own, opp), s, depth);
      var moves := Moves(s.state);
      forall k | 0 <= k < |t.children| ensures Bounded(t.children[k]) {
        HyggeTreeBounded(own, opp, Child(s.state, moves[k]), depth + 1);
      }
    }
  }

  /** The same for the subtrees of HyggeBot's root pass. */
  lemma HyggeRootTreesBounded(own: Player, opp: Player, st: State, moves: seq<Move>)
    requires ValidState(st)
    ensures AllBounded(RootTrees(HyggeEvaluator(own, opp), st, moves))
  {
    var kids := RootTrees(HyggeEvaluator(own, opp), st, moves);
    forall k | 0 <= k < |kids| ensures Bounded(kids[k]) {
      HyggeTreeBounded(own, opp, Child(st, moves[k]), 0);
    }
  }

  /** A root move that ends the game with a win is a leaf whose evaluation
      throws in ImprovedSneakyBot. */
  lemma SneakyWinningChildFails(st: State, moves: seq<Move>, k: nat)
    requires ValidState(st) && k < |moves| && Child(st, moves[k]).gameOver == Win
    ensures RootTrees(SneakyEvaluator, st, moves)[k] == Leaf(None)
  {
  }

  /** ImprovedSneakyBot's root pass throws whenever one of the root moves
      wins the game outright: evaluateMacroBoard reads a winner that is never
      set. */
  lemma SneakyPassFailsOnWinningMove(st: State, moves: seq<Move>, k: nat)
    requires ValidState(st) && k < |moves| && Child(st, moves[k]).gameOver == Win
    ensures Scan(RootTrees(SneakyEvaluator, st, moves), 0, MinInt, None) == Failed
  {
    SneakyWinningChildFails(st, moves, k);
    ScanFailsAt(RootTrees(SneakyEvaluator, st, moves), 0, MinInt, None, k);
  }
}
