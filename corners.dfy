/** The corner helpers of HyggeBot2000 and ShadowBot, which carry the same
    isCorner and the same loop of getCorners. */
module Corners {
  import opened Marks
  import opened Lists
  import Simulator

  /** isCorner: both coordinates are 0 or 2. They are absolute board
      coordinates, so only the corners of the top-left sub-board qualify. */
  predicate IsCorner(m: Move) {
    (m.x == 0 || m.x == 2) && (m.y == 0 || m.y == 2)
  }

  /** The four cells isCorner accepts. */
  lemma {:induction false} CornerCells(m: Move)
    ensures IsCorner(m) <==> m in [Move(0, 0), Move(0, 2), Move(2, 0), Move(2, 2)]
  {
    if IsCorner(m) {
      assert m == Move(m.x, m.y);
    }
  }

  /** The test as a value that filters can take. */
  function CornerTest(): Move -> bool {
    m => IsCorner(m)
  }

  /** The corner moves among the given ones, in order. */
  function CornerMoves(moves: seq<Move>): (r: seq<Move>)
    ensures |r| <= |moves|
  {
    Filter(moves, CornerTest())
  }

  /** A move is listed exactly when it is one of the moves and a corner. */
  lemma CornerMovesExact(moves: seq<Move>, m: Move)
    ensures m in CornerMoves(moves) <==> m in moves && IsCorner(m)
  {
    FilterMembers(moves, CornerTest(), m);
  }

  /** The loop of getCorners: the available moves of the state that are
      corners, in the order they are listed. */
  method CollectCorners(state: Simulator.GameState) returns (corners: seq<Move>)
    requires state.Valid()
    ensures corners == CornerMoves(state.AvailableMoves())
  {
    var avail := state.AvailableMoves();
    corners := [];
    for i := 0 to |avail|
      invariant corners == CornerMoves(avail[..i])
    {
      FilterPrefix(avail, CornerTest(), i);
      if IsCorner(avail[i]) {
        corners := corners + [avail[i]];
      }
    }
    assert avail[..|avail|] == avail;
  }
}
