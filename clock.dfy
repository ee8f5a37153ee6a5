/** The wall clock the search loops consult (System.currentTimeMillis), as a
    fixed but arbitrary sequence of readings: the n-th call returns
    `readings(n)`. Nothing is assumed about the readings except where a
    method needs the clock to run out in order to stop. */
module Clocks {

  class Clock {
    /** readings(n) is the value of the n-th poll. */
    const readings: nat -> int
    /** Number of polls made so far. */
    var polls: nat

    constructor (readings: nat -> int)
      ensures this.readings == readings && polls == 0
    {
      this.readings := readings;
      polls := 0;
    }

    /** System.currentTimeMillis(): the next reading. */
    method Now() returns (r: int)
      modifies this
      ensures polls == old(polls) + 1 && r == At(readings, old(polls))
    {
      r := readings(polls);
      polls := polls + 1;
    }
  }

  /** The n-th reading. */
  function At(readings: nat -> int, n: nat): int {
    readings(n)
  }

  /** From poll `expiry` on, every reading is at least `deadline`: the clock
      has passed the budget by then. */
  ghost predicate ExpiresBy(readings: nat -> int, deadline: int, expiry: nat) {
    forall k: nat :: k >= expiry ==> At(readings, k) >= deadline
  }
}
