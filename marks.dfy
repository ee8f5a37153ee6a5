/** Marks, players, moves and the small shared vocabulary of every bot.
    The source spells marks as strings ("0", "1", "TIE", and the host's
    empty and available sentinels); here they are one closed datatype. */
module Marks {

  /** The two players, written "0" and "1" in the source. */
  datatype Player = Zero | One {
    /** The other player: `(currentPlayer + 1) % 2`, or getOpponentBot. */
    function Other(): (q: Player)
      ensures q != this
    {
      if Zero? then One else Zero
    }
  }

  /** One cell of either grid. Board cells are Empty or Taken; the macroboard
      also uses Available (the next move may go in that sub-board) and Tied. */
  datatype Mark = Empty | Available | Taken(owner: Player) | Tied

  /** A macro-cell is decided once it is won by a player or tied. */
  predicate Decided(m: Mark) {
    m.Taken? || m.Tied?
  }

  /** The simulator's game-over flag. */
  datatype GameOverState = Active | Win | Tie

  /** A move: column-major coordinates on the 9x9 board, as IMove. */
  datatype Move = Move(x: int, y: int)

  predicate OnBoard(m: Move) {
    0 <= m.x < 9 && 0 <= m.y < 9
  }

  /** What doMove hands back to the host: a move, null, or an exception. */
  datatype Reply = Play(move: Move) | NoMove | Throws

  datatype Option<T> = None | Some(value: T)

  /** Java's Integer.MIN_VALUE and Integer.MAX_VALUE. */
  const MinInt: int := -0x8000_0000
  const MaxInt: int := 0x7fff_ffff

  function Max(a: int, b: int): int { if a >= b then a else b }
  function Min(a: int, b: int): int { if a <= b then a else b }

  /** getHyggeBot: the bot to move plays "0" exactly on even move numbers;
      the simulator's `moveNumber % 2` names the same player. */
  function BotPlayer(moveNumber: nat): (p: Player)
    ensures p == Zero <==> moveNumber % 2 == 0
  {
    if moveNumber % 2 == 0 then Zero else One
  }

  /** getOpponentBot: always the other mark than getHyggeBot. */
  function OpponentPlayer(moveNumber: nat): (p: Player)
    ensures p != BotPlayer(moveNumber)
    ensures p == Zero <==> moveNumber % 2 == 1
  {
    if BotPlayer(moveNumber) == Zero then One else Zero
  }
}
