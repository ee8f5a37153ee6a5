# Ultimate tic-tac-toe bots of Team Hyggekodning, in Dafny

The repository holds bots for the classroom ultimate tic-tac-toe engine. The
board has 9x9 cells and is split into nine 3x3 sub-boards. A 3x3 macroboard
records each sub-board as open ("." Empty), playable next ("-1" Available),
won ("0" or "1") or tied ("TIE"). A move must go into an Available sub-board.
Its position inside that sub-board names the sub-board the opponent must
play in next.

This project models seven bots:

- **HyggeBot.** It plays a random move that completes a line in a sub-board
  if one exists. Otherwise it opens in the centre of an empty field.
  Otherwise it searches every available move with a depth-5, fail-soft
  alpha-beta minimax under a 980 ms clock. The search runs on its own
  simulator of the rules, and leaves are scored by a heuristic evaluator.
- **ImprovedSneakyBot.** It uses the same simulator and the same root
  structure, but its pass over the root moves polls no clock and forgets
  its best move between passes. Its minimax polls no clock, its evaluator counts pieces, and the
  macroboard term of that evaluator throws as soon as a game is won.
- **HyggeBot2000, MyTunesITry, HyggeBot1000, ShadowBot and
  RandomBotOnSteroids.** These bots look one ply ahead. They combine "the
  moves with which a player would complete a line of a sub-board" with
  blocking, corners, safe moves and random choice in different orders.

The model follows the code's own shape:

- The simulator (`GameSimulator`, `GameState`) is a pair of classes over
  `array2` grids, and its methods update them in place. Each method is
  proved against a value-level description of the rules (module `Rules`).
  That description has its own lemmas: refused moves change nothing, decided
  sub-boards are final, and the activation rule.
- Both minimax methods and both root loops are proved against pure game-tree
  functions (module `GameTree`): `Prune` (alpha-beta), `Timed` (alpha-beta
  with HyggeBot's clock), `Scan` and `TimedScan` (the root passes). For
  these functions it proves:
  - the Knuth-Moore soundness of fail-soft alpha-beta;
  - agreement with plain minimax on the full window;
  - agreement between the clocked search and the unclocked one when none of
    the polls the search makes reads past the deadline;
  - that a root pass over subtrees whose leaves all score within Java's int
    range picks the first move of maximal minimax value, or none when every
    value is `Integer.MIN_VALUE`. HyggeBot's trees always qualify.
- Module `Search` ties a simulator to the one tree the search explores.
- The one-ply bots' `isWinningMove`/`findWinningMoves` loops are proved
  against the pure test `OnePlyWin` and the list `WinningMoves`. Every
  `doMove` states its whole priority order, whether it answers null or
  throws, and that every move it plays is available, except HyggeBot's
  centre opening, which checks only that the board is empty.

Behaviour the source has, and the model keeps:

- When its first clock reading is in time, ImprovedSneakyBot throws
  whenever one root move ends the game with a win
  (`ImprovedSneakyBot.ThrowsOnWinningMove`). When it is not, it plays a
  random available move, which may be that one.
- HyggeBot2000 blocks the first opponent threat before it takes its own win.
  MyTunesITry does the opposite.
- MyTunesITry's `willLeadToWin` ignores the mark it writes into its clone.
- `isCorner` tests absolute coordinates, so only the corners of the
  top-left sub-board count as corners.
- The one-ply test looks at both diagonals of the block even when the move
  is not on them (`OnePly.OnePlyWinIsWin` states exactly where it differs
  from the simulator's `isWin`).

The clock, the random generator and the host engine's classes are outside
the repository's code. The clock is a parameter (`Clocks.Clock`, a sequence
of readings). A random choice is an arbitrary choice (`:|`) over the
allowed range. The host's available-move list and active-sub-board test are
written out from the rules (`Grids.AvailableMoves`, `Grids.InActiveMicroboard`).

## Model

| member | source | states |
|---|---|---|
| Marks.BotPlayer | src/dk/easv/bll/bot/HyggeBot.java:249 | the bot to move plays "0" exactly on an even move number; the same getHyggeBot is at ImprovedSneakyBot.java:155, HyggeBot2000.java:164, MyTunesITry.java:128 and HyggeBot1000.java:73, and the "1 unless the move number is even" of ShadowBot.java:75-77 and RandomBotOnSteroids.java:62-64 names the same player |
| Marks.OpponentPlayer | src/dk/easv/bll/bot/HyggeBot.java:251 | always the other mark than the bot's, "0" exactly on odd move numbers; the same getOpponentBot is at ImprovedSneakyBot.java:157, HyggeBot2000.java:166, MyTunesITry.java:130 and HyggeBot1000.java:75 |
| Marks.Other | src/dk/easv/bll/bot/HyggeBot.java:351 | `(currentPlayer + 1) % 2` names the other player, never the same one |
| Grids.BlockStart | src/dk/easv/bll/bot/HyggeBot.java:267-268 | `c - c % 3` is the multiple of 3 at most 2 below c, so the block lies on the board |
| Grids.Place | src/dk/easv/bll/bot/HyggeBot.java:370 | writing one cell keeps the grid's shape and changes that cell and no other |
| Grids.AvailableMovesExact | src/dk/easv/bll/bot/HyggeBot.java:53 | a listed move is on the board, on an Empty cell, in an Available sub-board; every such cell is listed |
| Grids.AllAvailableOnBoard | src/dk/easv/bll/bot/HyggeBot.java:254-259 | every listed move lies on the board, so the one-ply test may index it |
| Arrays.SetCell | src/dk/easv/bll/bot/HyggeBot.java:265 | the assignment writes the mark at the move and leaves the rest of the array as it was |
| Arrays.CopyGrid | src/dk/easv/bll/bot/HyggeBot.java:25-26 | after the copy the destination holds exactly the source's cells |
| Arrays.CloneBoard | src/dk/easv/bll/bot/HyggeBot.java:280-284 | a fresh array with the same cells, so writing to it cannot touch the state's board; the same cloneBoard is at HyggeBot2000.java:157-163, MyTunesITry.java:121-127 and HyggeBot1000.java:66-72, and the stream-based row clone of ShadowBot.java:59 and RandomBotOnSteroids.java:30 does the same |
| Clocks.Clock.Now | src/dk/easv/bll/bot/HyggeBot.java:45 | each call returns the next reading and counts one more poll |
| Replies.RandomMove | src/dk/easv/bll/bot/HyggeBot.java:73-74 | a random pick is some element of the list, and it throws on an empty list; the same pick is at HyggeBot.java:38 and 60, MyTunesITry.java:22, 33, 40 and 45, HyggeBot1000.java:24 and 29, HyggeBot2000.java:73, RandomBotOnSteroids.java:19 and ImprovedSneakyBot.java:59-60 |
| Replies.RootMoves | src/dk/easv/bll/bot/HyggeBot.java:51-53 | the moves a pass iterates are those of the state, read through a fresh simulator's copy; the same code is at ImprovedSneakyBot.java:37-39 |
| Corners.CornerCells | src/dk/easv/bll/bot/HyggeBot2000.java:126-130 | isCorner accepts exactly (0,0), (0,2), (2,0) and (2,2); the same code is at ShadowBot.java:51-55 |
| Corners.CornerMovesExact | src/dk/easv/bll/bot/HyggeBot2000.java:112-123 | a move is in the corner list exactly when it is available and a corner; the same code is at ShadowBot.java:34-42 |
| Corners.CollectCorners | src/dk/easv/bll/bot/HyggeBot2000.java:113-120 | the loop yields the available corner moves in their listed order; the same code is at ShadowBot.java:35-41 |
| Lists.Shuffle | src/dk/easv/bll/bot/ShadowBot.java:44 | Collections.shuffle returns a permutation (same multiset) of its input; doMove shuffles the list again at ShadowBot.java:24 |
| Rules.CreateSimulator | src/dk/easv/bll/bot/HyggeBot.java:19-28 | a fresh simulator is Active, copies board, macroboard and both counters, and lets player `moveNumber % 2` move; the same code is at ImprovedSneakyBot.java:17-26 |
| Rules.CheckAndUpdateIfWin | src/dk/easv/bll/bot/HyggeBot.java:377-399 | only the played macro-cell can change, and only when it was undecided; the game-over flag only becomes Win or Tie; the same code is at ImprovedSneakyBot.java:282-304 |
| Rules.CheckAndUpdateIfWinSteps | src/dk/easv/bll/bot/HyggeBot.java:377-399 | the result is the sub-board decision on the board followed by the game decision on the updated macroboard |
| Rules.ResetAvailable | src/dk/easv/bll/bot/HyggeBot.java:461-466 | every Available macro-cell becomes Empty, every other cell is kept; the same code is at ImprovedSneakyBot.java:367-372 |
| Rules.Activate | src/dk/easv/bll/bot/HyggeBot.java:468-480 | the target macro-cell alone becomes Available if it is Empty; otherwise every Empty cell does; decided cells are kept; the same code is at ImprovedSneakyBot.java:374-386 |
| Rules.UpdateMacroboard | src/dk/easv/bll/bot/HyggeBot.java:460-481 | the next sub-board is the one at the move's position inside its block; decided cells keep their status; the same code is at ImprovedSneakyBot.java:366-387 |
| Rules.UpdateBoard | src/dk/easv/bll/bot/HyggeBot.java:368-375 | the mark is written, moveNumber grows by one, roundNumber grows on even move numbers, then the sub-board and the activation are updated; the same code is at ImprovedSneakyBot.java:270-280 |
| Rules.UpdateBoardSteps | src/dk/easv/bll/bot/HyggeBot.java:368-375 | updateBoard is the composition of its four steps in source order |
| Rules.UpdateGame | src/dk/easv/bll/bot/HyggeBot.java:347-353 | an illegal move returns false and changes nothing; a legal one is applied and passes the turn; the same code is at ImprovedSneakyBot.java:247-255 |
| Rules.Child | src/dk/easv/bll/bot/HyggeBot.java:62-63 | the child of a candidate move is a fresh simulator of the state after updateGame; the same code is at ImprovedSneakyBot.java:46-47 |
| Rules.IllegalMoveChangesNothing | src/dk/easv/bll/bot/HyggeBot.java:347-349 | a refused move leaves board, macroboard, counters, player and game-over flag unchanged; the same code is at ImprovedSneakyBot.java:247-249 |
| Rules.LegalMoveEffect | src/dk/easv/bll/bot/HyggeBot.java:347-375 | updateGame succeeds exactly on legal moves; the mover's mark lands in that cell only; the counters advance; the turn passes |
| Rules.DecidedCellsAreFinal | src/dk/easv/bll/bot/HyggeBot.java:377-481 | a won or tied macro-cell is changed neither by checkAndUpdateIfWin nor by updateMacroboard, so no move changes it |
| Rules.SubBoardResolution | src/dk/easv/bll/bot/HyggeBot.java:377-399 | an undecided played sub-board becomes the mover's on a completed line, else TIE when full, else keeps its status; the game ends only by the same tests on the macroboard; the same code is at ImprovedSneakyBot.java:282-304 |
| Rules.ActivationRule | src/dk/easv/bll/bot/HyggeBot.java:460-481 | if the target macro-cell is undecided it becomes the only Available cell; otherwise every undecided cell becomes Available; the same code is at ImprovedSneakyBot.java:366-387 |
| Rules.ListedMovesAreLegal | src/dk/easv/bll/bot/HyggeBot.java:355-366 | every move of the available list passes verifyMoveLegality; the same code is at ImprovedSneakyBot.java:257-268 |
| Simulator.GameState.constructor | src/dk/easv/bll/bot/HyggeBot.java:490-494 | a new state has a field of its own and both counters at zero |
| Simulator.GameState.SetBoard | src/dk/easv/bll/bot/HyggeBot.java:25 | the state's board takes the given cells |
| Simulator.GameState.SetMacroboard | src/dk/easv/bll/bot/HyggeBot.java:26 | the state's macroboard takes the given cells |
| Simulator.CopyState | src/dk/easv/bll/bot/HyggeBot.java:496-503 | the copy constructor gives fresh grids with the same cells and counters; HyggeBot2000's simulateMove (HyggeBot2000.java:17) calls the host engine's copy constructor instead, which the model assumes copies in the same way |
| Simulator.LinesOwnedIsWin | src/dk/easv/bll/bot/HyggeBot.java:417-458 | isWin's array reading agrees with the rule on the grid value |
| Simulator.GameSimulator.constructor | src/dk/easv/bll/bot/HyggeBot.java:345 | a new simulator wraps the given state with player 0 to move and the game Active; the same code is at ImprovedSneakyBot.java:243-245 |
| Simulator.GameSimulator.UpdateGame | src/dk/easv/bll/bot/HyggeBot.java:347-353 | the result and the new simulator are those of the rule `Rules.UpdateGame`; the same code is at ImprovedSneakyBot.java:247-255 |
| Simulator.GameSimulator.VerifyMoveLegality | src/dk/easv/bll/bot/HyggeBot.java:355-366 | true exactly for a move in an active sub-board, on the board, on an Empty cell; the same code is at ImprovedSneakyBot.java:257-268 |
| Simulator.GameSimulator.UpdateBoard | src/dk/easv/bll/bot/HyggeBot.java:368-375 | the new simulator is that of the rule `Rules.UpdateBoard`; the same code is at ImprovedSneakyBot.java:270-280 |
| Simulator.GameSimulator.DecideSubBoard | src/dk/easv/bll/bot/HyggeBot.java:385-390 | the played sub-board is won exactly when isWin holds, else tied exactly when it is full |
| Simulator.GameSimulator.DecideGame | src/dk/easv/bll/bot/HyggeBot.java:392-396 | the game is won exactly on a macro line through the sub-board, else tied when the macroboard is full, else unchanged |
| Simulator.GameSimulator.CheckAndUpdateIfWin | src/dk/easv/bll/bot/HyggeBot.java:377-399 | the new macroboard and game-over flag are those of `Rules.CheckAndUpdateIfWin`; the same code is at ImprovedSneakyBot.java:282-304 |
| Simulator.GameSimulator.IsWin | src/dk/easv/bll/bot/HyggeBot.java:417-458 | true exactly when the column or the row through the move, or a block diagonal the move lies on, is the player's; the same code is at ImprovedSneakyBot.java:323-364 |
| Simulator.GameSimulator.IsTie | src/dk/easv/bll/bot/HyggeBot.java:401-415 | true exactly when no cell of the move's block is Empty or Available; the same code is at ImprovedSneakyBot.java:306-320 |
| Simulator.GameSimulator.UpdateMacroboard | src/dk/easv/bll/bot/HyggeBot.java:460-481 | the new macroboard is that of `Rules.UpdateMacroboard`, whose activation rule is proved; the same code is at ImprovedSneakyBot.java:366-387 |
| Simulator.CreateSimulator | src/dk/easv/bll/bot/HyggeBot.java:19-28 | a fresh simulator over fresh grids, equal to `Rules.CreateSimulator` of the state; the same code is at ImprovedSneakyBot.java:17-26 |
| Simulator.CreateChild | src/dk/easv/bll/bot/HyggeBot.java:84-85 | the simulator a search branch builds is the pure `Rules.Child` of the state, with grids of its own; the same code is at ImprovedSneakyBot.java:73-74 |
| HyggeEval.ScoreForPlayer | src/dk/easv/bll/bot/HyggeBot.java:161-165 | +10 for the bot's mark, -10 for the opponent's, 0 for anything else |
| HyggeEval.LineScore | src/dk/easv/bll/bot/HyggeBot.java:138-152 | a line of three equal cells scores its first cell, any other line 0; always within -10..10 |
| HyggeEval.EvaluateMicroBoard | src/dk/easv/bll/bot/HyggeBot.java:133-159 | the eight lines of the sub-board, less 20 when it is the Available one; between -100 and 80 |
| HyggeEval.MicroBoardsScore | src/dk/easv/bll/bot/HyggeBot.java:112-116 | the sum over the nine sub-boards, between -900 and 720 |
| HyggeEval.MacroRowScore | src/dk/easv/bll/bot/HyggeBot.java:170-173 | one row of macro-cells adds 100 per bot cell and takes 100 per opponent cell |
| HyggeEval.EvaluateMacroboard | src/dk/easv/bll/bot/HyggeBot.java:167-176 | between -900 and 900 on a 3x3 macroboard, 100 per macro-cell at most |
| HyggeEval.EvaluateMacroboardCounts | src/dk/easv/bll/bot/HyggeBot.java:167-176 | the term is 100 times the bot's won sub-boards less 100 times the opponent's |
| HyggeEval.BlockThreats | src/dk/easv/bll/bot/HyggeBot.java:183-202 | at most 4 open opponent patterns in a block, and at most 2 in a block the diagonal tests skip |
| HyggeEval.Threats | src/dk/easv/bll/bot/HyggeBot.java:181-204 | all open patterns on the board, at most 24 |
| HyggeEval.EvaluatePreventiveMoves | src/dk/easv/bll/bot/HyggeBot.java:178-206 | 100 per open opponent pattern, a multiple of 100 between 0 and 2400 |
| HyggeEval.Evaluate | src/dk/easv/bll/bot/HyggeBot.java:107-131 | between -12000 and 4220, so inside Java's int range, and negative whenever the opponent holds a macro line |
| HyggeEval.EvaluateSplits | src/dk/easv/bll/bot/HyggeBot.java:107-131 | two positions differing only in macro ownership differ by 100 per macro-cell before the adjustments |
| SneakyEval.RowScore | src/dk/easv/bll/bot/ImprovedSneakyBot.java:144-150 | a row of cells scores ten times the leaf player's marks less ten times the other's |
| SneakyEval.EvaluateMicroBoard | src/dk/easv/bll/bot/ImprovedSneakyBot.java:137-153 | a block scores ten times the difference of the two players' mark counts in it |
| SneakyEval.EvaluateMacroBoard | src/dk/easv/bll/bot/ImprovedSneakyBot.java:119-135 | throws (None) exactly when the game is won, else adds 0 |
| SneakyEval.MicroBoardsScore | src/dk/easv/bll/bot/ImprovedSneakyBot.java:107-111 | the nine block scores, between -810 and 810 |
| SneakyEval.Evaluate | src/dk/easv/bll/bot/ImprovedSneakyBot.java:99-117 | None exactly on a won game, else the sub-board sum |
| SneakyEval.BlocksCoverBoard | src/dk/easv/bll/bot/ImprovedSneakyBot.java:107-111 | the nine blocks hold exactly the board's marks |
| SneakyEval.MicroBoardsCountPieces | src/dk/easv/bll/bot/ImprovedSneakyBot.java:107-111 | the sub-board sum is ten times the leaf player's marks on the board less ten times the other's |
| SneakyEval.EvaluateIsMicro | src/dk/easv/bll/bot/ImprovedSneakyBot.java:99-117 | on a game not won, evaluate is the sub-board sum |
| SneakyEval.EvaluateCountsPieces | src/dk/easv/bll/bot/ImprovedSneakyBot.java:99-117 | evaluate, when it returns, is the piece difference on the whole board times ten |
| GameTree.PruneSound | src/dk/easv/bll/bot/ImprovedSneakyBot.java:63-97 | fail-soft alpha-beta brackets the minimax value for any window: exact inside it, a bound on the right side outside; HyggeBot.java:77-105 runs the same search while its clock lasts |
| GameTree.MaxLoopSound | src/dk/easv/bll/bot/ImprovedSneakyBot.java:70-82 | the invariant of the maximizing loop: the pruned loop brackets the plain loop as alpha rises |
| GameTree.MinLoopSound | src/dk/easv/bll/bot/ImprovedSneakyBot.java:83-95 | the invariant of the minimizing loop, as beta falls |
| GameTree.PruneExact | src/dk/easv/bll/bot/ImprovedSneakyBot.java:63-97 | with the full int window the pruned search returns exactly the minimax value |
| GameTree.Timed | src/dk/easv/bll/bot/HyggeBot.java:77-105 | the poll count after the clocked search is never below the count before it; what the search computes is stated by GameTree.TimedIsPrune and GameTree.BoundedTimed |
| GameTree.TimedLoopExpired | src/dk/easv/bll/bot/HyggeBot.java:83 | a poll past the deadline ends the loop with the running value |
| GameTree.TimedMaxStep | src/dk/easv/bll/bot/HyggeBot.java:82-90 | one in-time step of the maximizing loop folds the child's value into maxEval and alpha |
| GameTree.TimedMinStep | src/dk/easv/bll/bot/HyggeBot.java:94-102 | one in-time step of the minimizing loop folds it into minEval and beta |
| GameTree.TimedIsPrune | src/dk/easv/bll/bot/HyggeBot.java:77-105 | when none of the polls the clocked search makes reads past the deadline, it returns what alpha-beta returns; nothing is assumed about later readings |
| GameTree.BoundedTimed | src/dk/easv/bll/bot/HyggeBot.java:77-105 | whatever the clock does, the clocked search of a tree whose leaves all score returns a value |
| GameTree.BoundedValue | src/dk/easv/bll/bot/ImprovedSneakyBot.java:63-97 | when every leaf scores within the int range, the minimax value exists and lies within it, also for a node without moves, which keeps its initial `Integer.MIN_VALUE` or `Integer.MAX_VALUE` |
| GameTree.BoundedPrune | src/dk/easv/bll/bot/ImprovedSneakyBot.java:63-97 | under the same condition the pruned search returns a value within the int range for every window, even an empty one |
| GameTree.AllBoundedValues | src/dk/easv/bll/bot/ImprovedSneakyBot.java:42-56 | root subtrees whose leaves all score within the int range have minimax values within it |
| GameTree.Scan | src/dk/easv/bll/bot/ImprovedSneakyBot.java:42-53 | a finished pass's best index, when there is one, names a root move |
| GameTree.TimedScan | src/dk/easv/bll/bot/HyggeBot.java:55-69 | the same for HyggeBot's clocked pass |
| GameTree.TimedScanIsScan | src/dk/easv/bll/bot/HyggeBot.java:57-69 | when none of the polls of HyggeBot's pass reads past the deadline, the pass ends as the unclocked pass does |
| GameTree.ScanFailsAt | src/dk/easv/bll/bot/ImprovedSneakyBot.java:45-53 | a subtree whose evaluation throws makes the pass throw |
| GameTree.ScanFindsBest | src/dk/easv/bll/bot/ImprovedSneakyBot.java:42-56 | when every leaf of the root subtrees scores within the int range, the pass goes through every move and has a best move exactly when some minimax value is above `Integer.MIN_VALUE`: the first root move of maximal minimax value. For ImprovedSneakyBot the condition means that no leaf of the unpruned depth-5 tree is a won game |
| GameTree.TimedScanStep | src/dk/easv/bll/bot/HyggeBot.java:62-68 | one in-time step of the root pass: a score above alpha becomes alpha and the best move |
| GameTree.TimedScanExpired | src/dk/easv/bll/bot/HyggeBot.java:58-61 | a poll past the deadline ends the root pass |
| GameTree.TimedScanFindsBest | src/dk/easv/bll/bot/HyggeBot.java:55-70 | under the same condition on the leaves, and when none of its polls reads past the deadline, HyggeBot's pass goes through every move and picks the first root move of maximal minimax value, or none when every value is `Integer.MIN_VALUE` |
| Search.Score | src/dk/easv/bll/bot/HyggeBot.java:107-131 | HyggeBot's leaf score never throws; ImprovedSneakyBot's (ImprovedSneakyBot.java:99-117) throws exactly on a won game; every score lies strictly inside Java's int range |
| Search.RootTrees | src/dk/easv/bll/bot/HyggeBot.java:57-64 | one subtree per root move, each searched minimizing from depth 0, as at ImprovedSneakyBot.java:45-48 too |
| Search.RootTreesAreSubtrees | src/dk/easv/bll/bot/ImprovedSneakyBot.java:45-48 | the root subtrees are the move-by-move described subtrees at depth 0 |
| Search.AreSubtreesUnique | src/dk/easv/bll/bot/ImprovedSneakyBot.java:45-48 | the described subtrees are determined by the moves |
| Search.SearchTreeIsSearchTree | src/dk/easv/bll/bot/HyggeBot.java:77-105 | the tree minimax explores satisfies the node-by-node description |
| Search.IsSearchTreeUnique | src/dk/easv/bll/bot/HyggeBot.java:77-105 | and it is the only tree that does |
| Search.SearchTreeNode | src/dk/easv/bll/bot/HyggeBot.java:79 | an inner node has one subtree per available move |
| Search.SearchTreeChild | src/dk/easv/bll/bot/HyggeBot.java:84-86 | the subtree of move i is the tree of that move's child one level deeper |
| Search.HyggeTreeBounded | src/dk/easv/bll/bot/HyggeBot.java:107-131 | every leaf of HyggeBot's search tree carries a score within the int range |
| Search.HyggeRootTreesBounded | src/dk/easv/bll/bot/HyggeBot.java:62-64 | so does every subtree HyggeBot's root pass searches |
| Search.SneakyWinningChildFails | src/dk/easv/bll/bot/ImprovedSneakyBot.java:119-135 | a root move that wins the game is a leaf whose evaluation throws |
| Search.SneakyPassFailsOnWinningMove | src/dk/easv/bll/bot/ImprovedSneakyBot.java:45-53 | the root pass throws whenever a root move wins the game |
| OnePly.WinningMovesExact | src/dk/easv/bll/bot/HyggeBot.java:254-259 | a move is in the winning list exactly when it is available and completes a line for the player; the same code is at HyggeBot2000.java:81-91, MyTunesITry.java:90-100, HyggeBot1000.java:35-45 |
| OnePly.WinningMovesFirst | src/dk/easv/bll/bot/HyggeBot2000.java:39-40 | the head of the list is the first winning move of the available list |
| OnePly.WinningMovesHead | src/dk/easv/bll/bot/HyggeBot1000.java:19-20 | the head is a winning move with no winning move before it |
| OnePly.WinningMovesNone | src/dk/easv/bll/bot/MyTunesITry.java:26-28 | the list is empty exactly when no available move wins |
| OnePly.FourLinesThrough | src/dk/easv/bll/bot/HyggeBot.java:270-277 | the chained-equals test on the array is the four-line test on its cells |
| OnePly.ClonedBoardTest | src/dk/easv/bll/bot/HyggeBot.java:262-277 | on a clone holding the placed mark, the array test is the one-ply test of the original board |
| OnePly.IsWinningMove | src/dk/easv/bll/bot/HyggeBot.java:261-278 | true exactly when placing the mark completes one of the four checked lines of the block; the state's board is unchanged; the same code is at HyggeBot2000.java:93-110, MyTunesITry.java:102-119, HyggeBot1000.java:47-64 |
| OnePly.FindWinningMoves | src/dk/easv/bll/bot/HyggeBot.java:254-259 | the available moves that win for the player, in listed order; the same code is at HyggeBot2000.java:81-91, MyTunesITry.java:90-100, HyggeBot1000.java:35-45 |
| OnePly.KeepWinning | src/dk/easv/bll/bot/HyggeBot.java:257 | the loop keeps exactly the winning moves, in order |
| OnePly.IsWinImpliesOnePlyWin | src/dk/easv/bll/bot/HyggeBot.java:261-278 | every move the simulator's isWin accepts after the mark is placed is a one-ply win |
| OnePly.OnePlyWinIsWin | src/dk/easv/bll/bot/HyggeBot.java:261-278 | if the cell was not the player's and the player held neither diagonal of the block, the one-ply test and isWin accept the same moves |
| OnePly.SimulatorWinIsFound | src/dk/easv/bll/bot/HyggeBot.java:387-388 | a legal move that the simulator records as winning its sub-board is one the one-ply test finds |
| HyggeBot.RootEvaluator | src/dk/easv/bll/bot/HyggeBot.java:34-35 | the evaluator is for the player to move, against the other player |
| HyggeBot.Minimax | src/dk/easv/bll/bot/HyggeBot.java:77-105 | the result and the clock afterwards are those of the clocked alpha-beta search of the simulator's tree |
| HyggeBot.MaximizeChildren | src/dk/easv/bll/bot/HyggeBot.java:80-91 | the maximizing loop ends as the clocked loop of the tree does |
| HyggeBot.MaximizeStep | src/dk/easv/bll/bot/HyggeBot.java:82-90 | one pass of the maximizing loop: a poll, then the child's value folded in or a stop |
| HyggeBot.MinimizeChildren | src/dk/easv/bll/bot/HyggeBot.java:92-104 | the minimizing loop ends as the clocked loop of the tree does |
| HyggeBot.MinimizeStep | src/dk/easv/bll/bot/HyggeBot.java:94-102 | one pass of the minimizing loop |
| HyggeBot.SearchChild | src/dk/easv/bll/bot/HyggeBot.java:84-86 | the child is searched one level deeper, with the other player to move |
| HyggeBot.DoMove | src/dk/easv/bll/bot/HyggeBot.java:33-41 | never null; a one-ply win when one exists; else the centre on an empty field; it throws exactly when there is no move and no centre opening; every other move is available. Otherwise, when the clock first reads in time, the reply is the best move of the first pass over the search trees of the state's moves (evaluated for the player to move) when it has one; when none of that pass's polls reads past the deadline, it is the first root move of maximal minimax value whenever some value is above `Integer.MIN_VALUE` |
| HyggeBot.PickWinningMove | src/dk/easv/bll/bot/HyggeBot.java:36-38 | finds a move exactly when the winning list is non-empty, and that move is available and wins |
| HyggeBot.CalculateWinningMove | src/dk/easv/bll/bot/HyggeBot.java:44-75 | centre on an empty field; else a move of the state or a throw on none; when in time, the first pass's best move over the state's search trees, and when none of that pass's polls reads past the deadline, the first root move of maximal minimax value whenever some value is above `Integer.MIN_VALUE` |
| HyggeBot.FirstPassFindsBest | src/dk/easv/bll/bot/HyggeBot.java:55-70 | when none of the first pass's polls reads past the deadline, the pass goes through every root move and has a best move exactly when some minimax value is above `Integer.MIN_VALUE`, and it is the first root move of maximal value |
| HyggeBot.RootLoop | src/dk/easv/bll/bot/HyggeBot.java:50-74 | in time, the loop's first pass decides the reply when it has a best move; out of time, a random move |
| HyggeBot.SearchFromFirstPass | src/dk/easv/bll/bot/HyggeBot.java:50-71 | the first pass's best move is the reply when it has one |
| HyggeBot.SearchRoot | src/dk/easv/bll/bot/HyggeBot.java:50-71 | the later iterations only ever reply with an available move, or throw on none |
| HyggeBot.NextPass | src/dk/easv/bll/bot/HyggeBot.java:51-70 | a later pass replies with an available move, or continues |
| HyggeBot.RunPass | src/dk/easv/bll/bot/HyggeBot.java:51-70 | one iteration: the pass's best move, a random move on timeout, or continue when the pass found none |
| HyggeBot.RootPass | src/dk/easv/bll/bot/HyggeBot.java:55-69 | one pass ends, with its best move, as the clocked pass `TimedScan` over the moves' subtrees ends |
| HyggeBot.SearchRootChild | src/dk/easv/bll/bot/HyggeBot.java:62-64 | root move i is searched minimizing from depth 0 |
| ImprovedSneakyBot.Evaluate | src/dk/easv/bll/bot/ImprovedSneakyBot.java:99-117 | the leaf score: the piece count, or a throw on a won game |
| ImprovedSneakyBot.Minimax | src/dk/easv/bll/bot/ImprovedSneakyBot.java:63-97 | the result is the alpha-beta value `Prune` of the simulator's tree, None when a leaf throws |
| ImprovedSneakyBot.MaximizeChildren | src/dk/easv/bll/bot/ImprovedSneakyBot.java:70-82 | the maximizing loop ends as the pruned loop of the tree does |
| ImprovedSneakyBot.MinimizeChildren | src/dk/easv/bll/bot/ImprovedSneakyBot.java:83-95 | the minimizing loop ends as the pruned loop of the tree does |
| ImprovedSneakyBot.SearchChild | src/dk/easv/bll/bot/ImprovedSneakyBot.java:73-75 | the child is searched one level deeper, with the other player to move |
| ImprovedSneakyBot.DoMove | src/dk/easv/bll/bot/ImprovedSneakyBot.java:29-31 | never null; every move played is available; in time the first pass decides: its best move, or a throw |
| ImprovedSneakyBot.CalculateWinningMove | src/dk/easv/bll/bot/ImprovedSneakyBot.java:33-61 | the same, for any time budget |
| ImprovedSneakyBot.SearchFromFirstPass | src/dk/easv/bll/bot/ImprovedSneakyBot.java:36-57 | the first pass's outcome decides the reply |
| ImprovedSneakyBot.SearchRoot | src/dk/easv/bll/bot/ImprovedSneakyBot.java:36-57 | the later iterations repeat the same pass until the clock runs out |
| ImprovedSneakyBot.RunPass | src/dk/easv/bll/bot/ImprovedSneakyBot.java:37-56 | one iteration: the best move, a throw, or continue when no score beat Integer.MIN_VALUE |
| ImprovedSneakyBot.RootPass | src/dk/easv/bll/bot/ImprovedSneakyBot.java:42-53 | one pass ends as `Scan` over the moves' subtrees ends |
| ImprovedSneakyBot.SearchRootChild | src/dk/easv/bll/bot/ImprovedSneakyBot.java:46-48 | root move i is searched minimizing from depth 0 with beta = Integer.MAX_VALUE |
| ImprovedSneakyBot.ThrowsOnWinningMove | src/dk/easv/bll/bot/ImprovedSneakyBot.java:119-135 | when an available move wins the game, the first pass throws, so when the first clock reading is in time that move is never played (otherwise the reply is a random available move) |
| HyggeBot2000.AfterMove | src/dk/easv/bll/bot/HyggeBot2000.java:16-30 | the simulated state is again a well-formed state (its cells are stated by `AfterMoveCells`) |
| HyggeBot2000.AfterMoveCells | src/dk/easv/bll/bot/HyggeBot2000.java:16-30 | only the move's cell changes, to the player's mark; moveNumber grows by one and roundNumber becomes half of it |
| HyggeBot2000.SimulateMove | src/dk/easv/bll/bot/HyggeBot2000.java:16-30 | a fresh state equal to `AfterMove`; the given state is not touched |
| HyggeBot2000.OpponentCannotWin | src/dk/easv/bll/bot/HyggeBot2000.java:48-50 | true exactly when, after the bot plays the move, the opponent has no one-ply win; the safe-move loop asks the same at HyggeBot2000.java:63-65 |
| HyggeBot2000.FirstSafeMove | src/dk/easv/bll/bot/HyggeBot2000.java:46-56 | the first own winning move after which the opponent has no win, or none |
| HyggeBot2000.SafeMoves | src/dk/easv/bll/bot/HyggeBot2000.java:60-69 | the available moves after which the opponent has no win, in order |
| HyggeBot2000.DoMove | src/dk/easv/bll/bot/HyggeBot2000.java:33-78 | the first opponent threat; else the first safe own win; else a random safe move; else null; never throws |
| HyggeBot2000.BlocksFirstThreat | src/dk/easv/bll/bot/HyggeBot2000.java:38-41 | the blocked move is the first available move with which the opponent would win |
| HyggeBot2000.SafeMovesExact | src/dk/easv/bll/bot/HyggeBot2000.java:59-74 | safe moves are exactly the available moves after which the opponent cannot win |
| HyggeBot2000.ManhattanDistance | src/dk/easv/bll/bot/HyggeBot2000.java:153-155 | never negative, and zero exactly for the same cell |
| HyggeBot2000.ManhattanSymmetric | src/dk/easv/bll/bot/HyggeBot2000.java:153-155 | the distance does not depend on the order of the two moves |
| HyggeBot2000.GetCorners | src/dk/easv/bll/bot/HyggeBot2000.java:112-123 | the available corner moves, in listed order |
| HyggeBot2000.GetCloseCorners | src/dk/easv/bll/bot/HyggeBot2000.java:133-150 | exactly the pairs of corners i < j at distance at most 2, both moves in that order |
| HyggeBot2000.PairsOfShape | src/dk/easv/bll/bot/HyggeBot2000.java:140-146 | the inner loop adds only close pairs with i < j, and all of them |
| HyggeBot2000.CloseCornersSound | src/dk/easv/bll/bot/HyggeBot2000.java:133-150 | the result has even length and every pair is two close corners i < j |
| HyggeBot2000.CloseCornersComplete | src/dk/easv/bll/bot/HyggeBot2000.java:133-150 | every close pair of corners i < j occurs in the result, first move first |
| MyTunesITry.WillLeadToWin | src/dk/easv/bll/bot/MyTunesITry.java:53-64 | true exactly when the opponent of the player to move would win a sub-board at the move, whatever player is passed |
| MyTunesITry.FilterSafeMoves | src/dk/easv/bll/bot/MyTunesITry.java:67-81 | the moves with which the opponent could not win, in order |
| MyTunesITry.FindWinningMicroboardMoves | src/dk/easv/bll/bot/MyTunesITry.java:85-88 | the placeholder always returns an empty list |
| MyTunesITry.DoMove | src/dk/easv/bll/bot/MyTunesITry.java:16-49 | a random own win; else the first threat; else a random safe move; else a random move; null exactly when no move is available |
| MyTunesITry.SafeIsComplementOfThreats | src/dk/easv/bll/bot/MyTunesITry.java:67-81 | a move is safe exactly when it is available and not an opponent winning move |
| MyTunesITry.NoThreatAllSafe | src/dk/easv/bll/bot/MyTunesITry.java:36-46 | with no threat every available move is safe, so the last random fallback only runs with no moves |
| HyggeBot1000.DoMove | src/dk/easv/bll/bot/HyggeBot1000.java:15-33 | the first opponent threat; else a random own win; else a random move; null exactly when no move is available |
| ShadowBot.IsWinningMove | src/dk/easv/bll/bot/ShadowBot.java:58-71 | true exactly when placing the mark completes one of the four checked lines; the state's board is unchanged |
| ShadowBot.DirectLinesAreFourLines | src/dk/easv/bll/bot/ShadowBot.java:67-70 | comparing every cell with the mark is the chained test of the other bots |
| ShadowBot.GetWinningMoves | src/dk/easv/bll/bot/ShadowBot.java:74-87 | the available moves that win for the player to move, in order |
| ShadowBot.GetCorners | src/dk/easv/bll/bot/ShadowBot.java:34-47 | a permutation of the available corner moves |
| ShadowBot.ShuffledCorners | src/dk/easv/bll/bot/ShadowBot.java:22-25 | after any shuffle, the list holds exactly the available corners |
| ShadowBot.DoMove | src/dk/easv/bll/bot/ShadowBot.java:16-31 | the first own win; else some available corner; else the first available move; it throws exactly when no move is available |
| RandomBotOnSteroids.IsWinningMove | src/dk/easv/bll/bot/RandomBotOnSteroids.java:28-59 | true exactly when placing the mark completes one of the four checked lines; the state's board is unchanged |
| RandomBotOnSteroids.TestLines | src/dk/easv/bll/bot/RandomBotOnSteroids.java:35-58 | the chain of early returns is the four-line test |
| RandomBotOnSteroids.GetWinningMoves | src/dk/easv/bll/bot/RandomBotOnSteroids.java:61-74 | the available moves that win for the player to move, in order |
| RandomBotOnSteroids.DoMove | src/dk/easv/bll/bot/RandomBotOnSteroids.java:13-24 | the first own win; else a random move; null exactly when no move is available |

## Left out

- The wall clock is a fixed, arbitrary sequence of readings. A search loop
  needs only that the readings reach its deadline by some poll (`ExpiresBy`).
  How long a search really takes is not modelled.
- `Random.nextInt` and `Collections.shuffle` are arbitrary choices: some
  index in range, some permutation. No distribution is modelled.
- The host engine's `Field` and `GameState` are outside the repository.
  - `getAvailableMoves` and `isInActiveMicroboard` are written out from the
    game's rules: on the board, on an Empty cell, in an Available sub-board;
    listed column by column.
  - `setBoard` and `setMacroboard` are modelled as copying the cells. So the
    simulators never write into the caller's board. Aliasing through a host
    that shares arrays is not modelled.
  - HyggeBot2000's `simulateMove` calls the host's `GameState` copy
    constructor. The model uses HyggeBot's own copy constructor
    (`Simulator.CopyState`) for it, which assumes that the host's
    constructor also copies the cells.
  - `Field.isEmpty` means that no mark is on the board.
- HyggeBot1000MiniMaxBetaPruning is not part of this model. It is not one of
  the modelled bots, and its `minimax` passes a board to `isWinningMove`
  where a move is expected.
- Marks are a closed datatype (Empty, Available, a player's mark, Tied), not
  strings. Cells are never null, so `equals` and `Objects.equals` agree.
- Java's 32-bit `int` is not modelled where values stay small. Board
  coordinates, move counters, `manhattanDistance` and the evaluator scores
  are all proved to stay far inside its range. The minimax windows start at
  `Integer.MIN_VALUE`/`Integer.MAX_VALUE` as constants.
- An exception is a reply (`Throws`) or a `None` score that ends the whole
  move. Which exception is thrown is not modelled.
- `currentPlayer`, the unused last parameter of HyggeBot's `minimax`, is
  dropped.
- `getBotName`, `Move.toString`, `hashCode` and the simulator's plain
  getters and setters are not modelled. `Move.equals` is value equality.
- MyTunesITry.DoMove: the branch that plays a winning sub-board move cannot
  run, because `findWinningMicroboardMoves` always returns an empty list. The
  model keeps the test and marks the branch unreachable.
- HyggeBot.CalculateWinningMove: the first iteration of the root loop is
  written out, so that the contract can name the subtrees of the first pass.
  Later iterations are promised only to answer with an available move or to
  throw when there is none.
- ImprovedSneakyBot.DoMove: when the clock has already run out at the first
  poll, it states only that the reply is a random available move. That
  follows from the loop, which then never runs.
- HyggeBot.DoMove: it states that the random winning move is some winning
  move, not which one. When the first pass finishes without a best move, it
  promises for the later passes only what CalculateWinningMove promises.
- GameTree.ScanFindsBest: for ImprovedSneakyBot it applies only when no leaf
  of the unpruned search tree is a won game, because evaluate throws there.
  When such a leaf exists but pruning skips it, the model states what `Scan`
  computes, not that the chosen move has the best minimax value.
- ShadowBot.DoMove: it states that the reply is some available corner, not
  which one; the two shuffles are arbitrary.
