/** Depth-limited minimax with alpha-beta pruning over an explicit game tree.
    Both bots search the tree that their simulator unfolds (module Search
    builds it); here the tree is a value, so the search and its theorems are
    stated once, independently of the rules of the game.

    `Value` is plain minimax (the reference), `Prune` is alpha-beta exactly as
    both bots' minimax runs it: fail-soft, with the accumulator starting at
    Integer.MIN_VALUE or Integer.MAX_VALUE and returned on a cutoff. `Timed`
    adds HyggeBot's clock polls, and `Scan`/`TimedScan` are the root loops of
    calculateWinningMove. A leaf whose evaluation throws scores None. */
module GameTree {
  import opened Marks
  import opened Clocks

  /** A searched position: a leaf carries its static evaluation, an inner
      node the subtrees of its legal moves in the order they are listed. */
  datatype Tree = Leaf(score: Option<int>) | Node(children: seq<Tree>)

  /** maxEval starts at Integer.MIN_VALUE, minEval at Integer.MAX_VALUE. */
  function Initial(maximizing: bool): int {
    if maximizing then MinInt else MaxInt
  }

  // ---------------------------------------------------------------------
  // Plain minimax (the reference)

  function Value(t: Tree, maximizing: bool): Option<int>
    decreases t, 1, 0
  {
    match t
    case Leaf(s) => s
    case Node(_) => ValueLoop(t, 0, maximizing, Initial(maximizing))
  }

  function ValueLoop(t: Tree, i: nat, maximizing: bool, acc: int): Option<int>
    requires t.Node? && i <= |t.children|
    decreases t, 0, |t.children| - i
  {
    if i == |t.children| then Some(acc)
    else
      match Value(t.children[i], !maximizing)
      case None => None
      case Some(v) => ValueLoop(t, i + 1, maximizing, if maximizing then Max(acc, v) else Min(acc, v))
  }

  // ---------------------------------------------------------------------
  // Alpha-beta as written in both bots' minimax

  function Prune(t: Tree, maximizing: bool, alpha: int, beta: int): Option<int>
    decreases t, 1, 0
  {
    match t
    case Leaf(s) => s
    case Node(_) => PruneLoop(t, 0, maximizing, alpha, beta, Initial(maximizing))
  }

  function PruneLoop(t: Tree, i: nat, maximizing: bool, alpha: int, beta: int, acc: int): Option<int>
    requires t.Node? && i <= |t.children|
    decreases t, 0, |t.children| - i
  {
    if i == |t.children| then Some(acc)
    else
      match Prune(t.children[i], !maximizing, alpha, beta)
      case None => None
      case Some(v) =>
        if maximizing then
          var acc', alpha' := Max(acc, v), Max(alpha, v);
          if beta <= alpha' then Some(acc')
          else PruneLoop(t, i + 1, maximizing, alpha', beta, acc')
        else
          var acc', beta' := Min(acc, v), Min(beta, v);
          if beta' <= alpha then Some(acc')
          else PruneLoop(t, i + 1, maximizing, alpha, beta', acc')
  }

  // ---------------------------------------------------------------------
  // Soundness of the pruning

  /** r is a fail-soft alpha-beta answer for true value v in window (a, b):
      exact inside the window, and on the correct side of it (between the
      bound and v) outside. */
  predicate Bracket(r: int, v: int, a: int, b: int) {
    && (v <= a ==> v <= r <= a)
    && (a < v < b ==> r == v)
    && (b <= v ==> b <= r <= v)
  }

  /** The rest of a max loop never lowers its accumulator, the rest of a min
      loop never raises it. */
  lemma {:induction false} ValueLoopMonotone(t: Tree, i: nat, maximizing: bool, acc: int)
    requires t.Node? && i <= |t.children|
    requires ValueLoop(t, i, maximizing, acc).Some?
    ensures maximizing ==> ValueLoop(t, i, maximizing, acc).value >= acc
    ensures !maximizing ==> ValueLoop(t, i, maximizing, acc).value <= acc
    decreases |t.children| - i
  {
    if i < |t.children| {
      var v := Value(t.children[i], !maximizing).value;
      ValueLoopMonotone(t, i + 1, maximizing, if maximizing then Max(acc, v) else Min(acc, v));
    }
  }

  /** One uncut step of a max loop keeps the bracket. */
  lemma MaxStep(accP: int, accV: int, a0: int, b: int, r: int, v: int)
    requires a0 < b && Bracket(accP, accV, a0, b) && Max(a0, accP) < b
    requires Bracket(r, v, Max(a0, accP), b) && Max(Max(a0, accP), r) < b
    ensures Bracket(Max(accP, r), Max(accV, v), a0, b)
  {
  }

  /** A cutoff in a max loop: the returned accumulator brackets whatever the
      unpruned loop would have reached. */
  lemma MaxCut(accP: int, accV: int, a0: int, b: int, r: int, v: int, final: int)
    requires a0 < b && Bracket(accP, accV, a0, b) && Max(a0, accP) < b
    requires Bracket(r, v, Max(a0, accP), b) && b <= Max(Max(a0, accP), r)
    requires final >= Max(accV, v)
    ensures Bracket(Max(accP, r), final, a0, b)
  {
  }

  /** One uncut step of a min loop keeps the bracket. */
  lemma MinStep(accP: int, accV: int, a: int, b0: int, r: int, v: int)
    requires a < b0 && Bracket(accP, accV, a, b0) && a < Min(b0, accP)
    requires Bracket(r, v, a, Min(b0, accP)) && a < Min(Min(b0, accP), r)
    ensures Bracket(Min(accP, r), Min(accV, v), a, b0)
  {
  }

  /** A cutoff in a min loop. */
  lemma MinCut(accP: int, accV: int, a: int, b0: int, r: int, v: int, final: int)
    requires a < b0 && Bracket(accP, accV, a, b0) && a < Min(b0, accP)
    requires Bracket(r, v, a, Min(b0, accP)) && Min(Min(b0, accP), r) <= a
    requires final <= Min(accV, v)
    ensures Bracket(Min(accP, r), final, a, b0)
  {
  }

  /** Fail-soft alpha-beta is sound (Knuth and Moore): for any window inside
      Java's int range, whenever plain minimax returns a value, the pruned
      search returns too, and its answer is exact when the value lies inside
      the window and a bound on the correct side otherwise. */
  lemma {:induction false} PruneSound(t: Tree, maximizing: bool, a: int, b: int)
    requires MinInt <= a < b <= MaxInt
    requires Value(t, maximizing).Some?
    ensures Prune(t, maximizing, a, b).Some?
    ensures Bracket(Prune(t, maximizing, a, b).value, Value(t, maximizing).value, a, b)
    decreases t, 1, 0
  {
    if t.Node? {
      if maximizing {
        MaxLoopSound(t, 0, a, a, b, MinInt, MinInt);
      } else {
        MinLoopSound(t, 0, a, b, b, MaxInt, MaxInt);
      }
    }
  }

  /** The invariant of a max loop: with alpha raised to al by the pruned
      accumulator accP, the rest of the pruned loop brackets the rest of the
      plain loop in the original window (a0, b). */
  lemma {:induction false} MaxLoopSound(t: Tree, i: nat, a0: int, al: int, b: int, accP: int, accV: int)
    requires t.Node? && i <= |t.children|
    requires MinInt <= a0 < b <= MaxInt && al == Max(a0, accP) && al < b
    requires Bracket(accP, accV, a0, b)
    requires ValueLoop(t, i, true, accV).Some?
    ensures PruneLoop(t, i, true, al, b, accP).Some?
    ensures Bracket(PruneLoop(t, i, true, al, b, accP).value, ValueLoop(t, i, true, accV).value, a0, b)
    decreases t, 0, |t.children| - i
  {
    if i < |t.children| {
      var c := t.children[i];
      PruneSound(c, false, al, b);
      var v := Value(c, false).value;
      var r := Prune(c, false, al, b).value;
      if b <= Max(al, r) {
        ValueLoopMonotone(t, i + 1, true, Max(accV, v));
        MaxCut(accP, accV, a0, b, r, v, ValueLoop(t, i, true, accV).value);
      } else {
        MaxStep(accP, accV, a0, b, r, v);
        MaxLoopSound(t, i + 1, a0, Max(al, r), b, Max(accP, r), Max(accV, v));
      }
    }
  }

  /** The invariant of a min loop, symmetric to MaxLoopSound. */
  lemma {:induction false} MinLoopSound(t: Tree, i: nat, a: int, b0: int, be: int, accP: int, accV: int)
    requires t.Node? && i <= |t.children|
    requires MinInt <= a < b0 <= MaxInt && be == Min(b0, accP) && a < be
    requires Bracket(accP, accV, a, b0)
    requires ValueLoop(t, i, false, accV).Some?
    ensures PruneLoop(t, i, false, a, be, accP).Some?
    ensures Bracket(PruneLoop(t, i, false, a, be, accP).value, ValueLoop(t, i, false, accV).value, a, b0)
    decreases t, 0, |t.children| - i
  {
    if i < |t.children| {
      var c := t.children[i];
      PruneSound(c, true, a, be);
      var v := Value(c, true).value;
      var r := Prune(c, true, a, be).value;
      if Min(be, r) <= a {
        ValueLoopMonotone(t, i + 1, false, Min(accV, v));
        MinCut(accP, accV, a, b0, r, v, ValueLoop(t, i, false, accV).value);
      } else {
        MinStep(accP, accV, a, b0, r, v);
        MinLoopSound(t, i + 1, a, b0, Min(be, r), Min(accP, r), Min(accV, v));
      }
    }
  }

  /** With the full window the pruned search returns exactly the minimax
      value, whenever that value lies strictly inside Java's int range. */
  lemma PruneExact(t: Tree, maximizing: bool)
    requires Value(t, maximizing).Some?
    requires MinInt < Value(t, maximizing).value < MaxInt
    ensures Prune(t, maximizing, MinInt, MaxInt) == Value(t, maximizing)
  {
    PruneSound(t, maximizing, MinInt, MaxInt);
  }

  // ---------------------------------------------------------------------
  // Trees whose every leaf evaluates within Java's int range

  /** Every leaf evaluates (HyggeBot's evaluate never throws), to a value
      within Java's int range. */
  predicate Bounded(t: Tree) {
    match t
    case Leaf(s) => s.Some? && MinInt <= s.value <= MaxInt
    case Node(kids) => forall k :: 0 <= k < |kids| ==> Bounded(kids[k])
  }

  /** The minimax value of such a tree exists and lies within the int range
      (a node without children has the initial value of its loop). */
  lemma {:induction false} BoundedValue(t: Tree, maximizing: bool)
    requires Bounded(t)
    ensures Value(t, maximizing).Some? && MinInt <= Value(t, maximizing).value <= MaxInt
    decreases t, 1, 0
  {
    if t.Node? {
      BoundedValueLoop(t, 0, maximizing, Initial(maximizing));
    }
  }

  lemma {:induction false} BoundedValueLoop(t: Tree, i: nat, maximizing: bool, acc: int)
    requires t.Node? && i <= |t.children| && Bounded(t) && MinInt <= acc <= MaxInt
    ensures ValueLoop(t, i, maximizing, acc).Some?
    ensures MinInt <= ValueLoop(t, i, maximizing, acc).value <= MaxInt
    decreases t, 0, |t.children| - i
  {
    if i < |t.children| {
      BoundedValue(t.children[i], !maximizing);
      var v := Value(t.children[i], !maximizing).value;
      BoundedValueLoop(t, i + 1, maximizing, if maximizing then Max(acc, v) else Min(acc, v));
    }
  }

  /** The pruned search of such a tree returns a value within the int range
      for every window, even an empty one. */
  lemma {:induction false} BoundedPrune(t: Tree, maximizing: bool, alpha: int, beta: int)
    requires Bounded(t)
    ensures Prune(t, maximizing, alpha, beta).Some?
    ensures MinInt <= Prune(t, maximizing, alpha, beta).value <= MaxInt
    decreases t, 1, 0
  {
    if t.Node? {
      BoundedPruneLoop(t, 0, maximizing, alpha, beta, Initial(maximizing));
    }
  }

  lemma {:induction false} BoundedPruneLoop(t: Tree, i: nat, maximizing: bool, alpha: int, beta: int, acc: int)
    requires t.Node? && i <= |t.children| && Bounded(t) && MinInt <= acc <= MaxInt
    ensures PruneLoop(t, i, maximizing, alpha, beta, acc).Some?
    ensures MinInt <= PruneLoop(t, i, maximizing, alpha, beta, acc).value <= MaxInt
    decreases t, 0, |t.children| - i
  {
    if i < |t.children| {
      BoundedPrune(t.children[i], !maximizing, alpha, beta);
      var v := Prune(t.children[i], !maximizing, alpha, beta).value;
      if maximizing {
        BoundedPruneLoop(t, i + 1, maximizing, Max(alpha, v), beta, Max(acc, v));
      } else {
        BoundedPruneLoop(t, i + 1, maximizing, alpha, Min(beta, v), Min(acc, v));
      }
    }
  }

  // ---------------------------------------------------------------------
  // HyggeBot's clock polls

  /** HyggeBot's minimax with its clock: `readings(n)` is the value of
      System.currentTimeMillis() at the n-th poll. Before each child a node
      polls the clock and, once the reading is past the deadline, returns the
      accumulator it has. The second component is the number of polls made
      so far. */
  function Timed(t: Tree, maximizing: bool, alpha: int, beta: int,
                 readings: nat -> int, deadline: int, n: nat): (r: (Option<int>, nat))
    ensures r.1 >= n
    decreases t, 1, 0
  {
    match t
    case Leaf(s) => (s, n)
    case Node(_) => TimedLoop(t, 0, maximizing, alpha, beta, Initial(maximizing), readings, deadline, n)
  }

  function TimedLoop(t: Tree, i: nat, maximizing: bool, alpha: int, beta: int, acc: int,
                     readings: nat -> int, deadline: int, n: nat): (r: (Option<int>, nat))
    requires t.Node? && i <= |t.children|
    ensures r.1 >= n
    decreases t, 0, |t.children| - i
  {
    if i == |t.children| then (Some(acc), n)
    else if At(readings, n) > deadline then (Some(acc), n + 1)
    else
      match Timed(t.children[i], !maximizing, alpha, beta, readings, deadline, n + 1)
      case (None, n') => (None, n')
      case (Some(v), n') =>
        if maximizing then
          var acc', alpha' := Max(acc, v), Max(alpha, v);
          if beta <= alpha' then (Some(acc'), n')
          else TimedLoop(t, i + 1, maximizing, alpha', beta, acc', readings, deadline, n')
        else
          var acc', beta' := Min(acc, v), Min(beta, v);
          if beta' <= alpha then (Some(acc'), n')
          else TimedLoop(t, i + 1, maximizing, alpha, beta', acc', readings, deadline, n')
  }

  /** One step of the clocked loop of a maximizing node: the clock is within
      the deadline and child i returns v. */
  lemma TimedMaxStep(t: Tree, i: nat, alpha: int, beta: int, acc: int,
                     readings: nat -> int, deadline: int, n: nat, v: int, n': nat)
    requires t.Node? && i < |t.children| && At(readings, n) <= deadline
    requires Timed(t.children[i], false, alpha, beta, readings, deadline, n + 1) == (Some(v), n')
    ensures TimedLoop(t, i, true, alpha, beta, acc, readings, deadline, n) ==
      if beta <= Max(alpha, v) then (Some(Max(acc, v)), n')
      else TimedLoop(t, i + 1, true, Max(alpha, v), beta, Max(acc, v), readings, deadline, n')
  {
  }

  /** One step of the clocked loop of a minimizing node. */
  lemma TimedMinStep(t: Tree, i: nat, alpha: int, beta: int, acc: int,
                     readings: nat -> int, deadline: int, n: nat, v: int, n': nat)
    requires t.Node? && i < |t.children| && At(readings, n) <= deadline
    requires Timed(t.children[i], true, alpha, beta, readings, deadline, n + 1) == (Some(v), n')
    ensures TimedLoop(t, i, false, alpha, beta, acc, readings, deadline, n) ==
      if Min(beta, v) <= alpha then (Some(Min(acc, v)), n')
      else TimedLoop(t, i + 1, false, alpha, Min(beta, v), Min(acc, v), readings, deadline, n')
  {
  }

  /** A poll past the deadline ends the clocked loop with the accumulator. */
  lemma TimedLoopExpired(t: Tree, i: nat, maximizing: bool, alpha: int, beta: int, acc: int,
                         readings: nat -> int, deadline: int, n: nat)
    requires t.Node? && i < |t.children| && At(readings, n) > deadline
    ensures TimedLoop(t, i, maximizing, alpha, beta, acc, readings, deadline, n) == (Some(acc), n + 1)
  {
  }

  /** The clock reads within the deadline at every poll from n up to, and
      not including, m: the polls a search starting at poll n and ending
      before poll m makes. */
  ghost predicate InTime(readings: nat -> int, deadline: int, n: nat, m: nat) {
    forall k: nat :: n <= k < m ==> At(readings, k) <= deadline
  }

  /** When none of the polls it makes reads past the deadline, the clocked
      search returns exactly what the unclocked alpha-beta search returns.
      Nothing is assumed about the readings after its last poll. */
  lemma {:induction false} TimedIsPrune(t: Tree, maximizing: bool, alpha: int, beta: int,
                                        readings: nat -> int, deadline: int, n: nat)
    requires InTime(readings, deadline, n, Timed(t, maximizing, alpha, beta, readings, deadline, n).1)
    ensures Timed(t, maximizing, alpha, beta, readings, deadline, n).0 == Prune(t, maximizing, alpha, beta)
    decreases t, 1, 0
  {
    if t.Node? {
      TimedLoopIsPruneLoop(t, 0, maximizing, alpha, beta, Initial(maximizing), readings, deadline, n);
    }
  }

  lemma {:induction false} TimedLoopIsPruneLoop(t: Tree, i: nat, maximizing: bool, alpha: int, beta: int, acc: int,
                                                readings: nat -> int, deadline: int, n: nat)
    requires t.Node? && i <= |t.children|
    requires InTime(readings, deadline, n, TimedLoop(t, i, maximizing, alpha, beta, acc, readings, deadline, n).1)
    ensures TimedLoop(t, i, maximizing, alpha, beta, acc, readings, deadline, n).0
         == PruneLoop(t, i, maximizing, alpha, beta, acc)
    decreases t, 0, |t.children| - i
  {
    if i < |t.children| {
      assert At(readings, n) <= deadline;
      var c := t.children[i];
      TimedIsPrune(c, !maximizing, alpha, beta, readings, deadline, n + 1);
      var (v, n') := Timed(c, !maximizing, alpha, beta, readings, deadline, n + 1);
      if v.Some? && !(if maximizing then beta <= Max(alpha, v.value) else Min(beta, v.value) <= alpha) {
        if maximizing {
          TimedLoopIsPruneLoop(t, i + 1, maximizing, Max(alpha, v.value), beta, Max(acc, v.value),
                               readings, deadline, n');
        } else {
          TimedLoopIsPruneLoop(t, i + 1, maximizing, alpha, Min(beta, v.value), Min(acc, v.value),
                               readings, deadline, n');
        }
      }
    }
  }

  /** Whatever the clock does, the clocked search of a tree whose leaves all
      evaluate returns a value. */
  lemma {:induction false} BoundedTimed(t: Tree, maximizing: bool, alpha: int, beta: int,
                                        readings: nat -> int, deadline: int, n: nat)
    requires Bounded(t)
    ensures Timed(t, maximizing, alpha, beta, readings, deadline, n).0.Some?
    decreases t, 1, 0
  {
    if t.Node? {
      BoundedTimedLoop(t, 0, maximizing, alpha, beta, Initial(maximizing), readings, deadline, n);
    }
  }

  lemma {:induction false} BoundedTimedLoop(t: Tree, i: nat, maximizing: bool, alpha: int, beta: int, acc: int,
                                            readings: nat -> int, deadline: int, n: nat)
    requires t.Node? && i <= |t.children| && Bounded(t)
    ensures TimedLoop(t, i, maximizing, alpha, beta, acc, readings, deadline, n).0.Some?
    decreases t, 0, |t.children| - i
  {
    if i < |t.children| && At(readings, n) <= deadline {
      var c := t.children[i];
      BoundedTimed(c, !maximizing, alpha, beta, readings, deadline, n + 1);
      var (v, n') := Timed(c, !maximizing, alpha, beta, readings, deadline, n + 1);
      if maximizing {
        BoundedTimedLoop(t, i + 1, maximizing, Max(alpha, v.value), beta, Max(acc, v.value), readings, deadline, n');
      } else {
        BoundedTimedLoop(t, i + 1, maximizing, alpha, Min(beta, v.value), Min(acc, v.value), readings, deadline, n');
      }
    }
  }

  // ---------------------------------------------------------------------
  // The root loop of calculateWinningMove

  /** How one pass of the root loop ends: it went through every move (and
      names the index of the best one, if any scored above Integer.MIN_VALUE),
      the clock ran out first, or a search threw. */
  datatype ScanEnd = Finished(best: Option<nat>) | Expired(best: Option<nat>) | Failed

  /** ImprovedSneakyBot's pass over the root moves: each subtree is searched
      minimizing with window (alpha, Integer.MAX_VALUE), and a score above
      alpha becomes the new alpha and the best index. */
  function Scan(kids: seq<Tree>, i: nat, alpha: int, best: Option<nat>): (r: ScanEnd)
    requires i <= |kids| && (best.Some? ==> best.value < i)
    ensures !r.Expired?
    ensures r.Finished? && r.best.Some? ==> r.best.value < |kids|
    decreases |kids| - i
  {
    if i == |kids| then Finished(best)
    else
      match Prune(kids[i], false, alpha, MaxInt)
      case None => Failed
      case Some(score) =>
        if score > alpha then Scan(kids, i + 1, score, Some(i))
        else Scan(kids, i + 1, alpha, best)
  }

  /** HyggeBot's pass: the same loop, with a clock poll before each move and
      the clocked search below it. */
  function TimedScan(kids: seq<Tree>, i: nat, alpha: int, best: Option<nat>,
                     readings: nat -> int, deadline: int, n: nat): (r: (ScanEnd, nat))
    requires i <= |kids| && (best.Some? ==> best.value < i)
    ensures r.0.Finished? && r.0.best.Some? ==> r.0.best.value < |kids|
    ensures r.0.Expired? && r.0.best.Some? ==> r.0.best.value < |kids|
    ensures r.1 >= n
    decreases |kids| - i
  {
    if i == |kids| then (Finished(best), n)
    else if At(readings, n) > deadline then (Expired(best), n + 1)
    else
      match Timed(kids[i], false, alpha, MaxInt, readings, deadline, n + 1)
      case (None, n') => (Failed, n')
      case (Some(score), n') =>
        if score > alpha then TimedScan(kids, i + 1, score, Some(i), readings, deadline, n')
        else TimedScan(kids, i + 1, alpha, best, readings, deadline, n')
  }

  /** When none of its polls reads past the deadline, HyggeBot's pass ends
      as the unclocked pass does. */
  lemma {:induction false} TimedScanIsScan(kids: seq<Tree>, i: nat, alpha: int, best: Option<nat>,
                                           readings: nat -> int, deadline: int, n: nat)
    requires i <= |kids| && (best.Some? ==> best.value < i)
    requires InTime(readings, deadline, n, TimedScan(kids, i, alpha, best, readings, deadline, n).1)
    ensures TimedScan(kids, i, alpha, best, readings, deadline, n).0 == Scan(kids, i, alpha, best)
    decreases |kids| - i
  {
    if i < |kids| {
      assert At(readings, n) <= deadline;
      TimedIsPrune(kids[i], false, alpha, MaxInt, readings, deadline, n + 1);
      var (v, n') := Timed(kids[i], false, alpha, MaxInt, readings, deadline, n + 1);
      if v.Some? {
        if v.value > alpha {
          TimedScanIsScan(kids, i + 1, v.value, Some(i), readings, deadline, n');
        } else {
          TimedScanIsScan(kids, i + 1, alpha, best, readings, deadline, n');
        }
      }
    }
  }

  /** A subtree whose evaluation throws, at or after position i, makes the
      pass throw (unless an earlier one already has). */
  lemma {:induction false} ScanFailsAt(kids: seq<Tree>, i: nat, alpha: int, best: Option<nat>, k: nat)
    requires i <= k < |kids| && (best.Some? ==> best.value < i) && kids[k] == Leaf(None)
    ensures Scan(kids, i, alpha, best) == Failed
    decreases k - i
  {
    if i < k {
      match Prune(kids[i], false, alpha, MaxInt)
      case None =>
      case Some(score) =>
        if score > alpha {
          ScanFailsAt(kids, i + 1, score, Some(i), k);
        } else {
          ScanFailsAt(kids, i + 1, alpha, best, k);
        }
    }
  }

  /** Every subtree is Bounded. */
  predicate AllBounded(kids: seq<Tree>) {
    forall k :: 0 <= k < |kids| ==> Bounded(kids[k])
  }

  /** Every subtree has a minimax value within Java's int range. */
  predicate ValuesInRange(kids: seq<Tree>) {
    forall k :: 0 <= k < |kids| ==> Value(kids[k], false).Some? && MinInt <= Value(kids[k], false).value <= MaxInt
  }

  lemma AllBoundedValues(kids: seq<Tree>)
    requires AllBounded(kids)
    ensures ValuesInRange(kids)
  {
    forall k | 0 <= k < |kids|
      ensures Value(kids[k], false).Some? && MinInt <= Value(kids[k], false).value <= MaxInt
    {
      BoundedValue(kids[k], false);
    }
  }

  /** kids[k] has the largest minimax value, and no earlier subtree has it. */
  predicate IsFirstBest(kids: seq<Tree>, k: int)
    requires ValuesInRange(kids)
  {
    && 0 <= k < |kids|
    && (forall j :: 0 <= j < |kids| ==> Value(kids[j], false).value <= Value(kids[k], false).value)
    && (forall j :: 0 <= j < k ==> Value(kids[j], false).value < Value(kids[k], false).value)
  }

  /** Some subtree has a minimax value above Integer.MIN_VALUE, the initial
      alpha of the pass. */
  predicate SomeAboveMin(kids: seq<Tree>)
    requires ValuesInRange(kids)
  {
    exists j :: 0 <= j < |kids| && Value(kids[j], false).value > MinInt
  }

  /** The invariant of the pass: with no best index yet, alpha is still
      Integer.MIN_VALUE and so is every value seen; otherwise alpha is the
      value of the best index, the largest seen and larger than every value
      before it. */
  lemma {:induction false} ScanLoop(kids: seq<Tree>, i: nat, alpha: int, best: Option<nat>)
    requires i <= |kids| && AllBounded(kids) && ValuesInRange(kids)
    requires best.None? ==> alpha == MinInt && (forall j :: 0 <= j < i ==> Value(kids[j], false).value == MinInt)
    requires best.Some? ==>
      && best.value < i && alpha == Value(kids[best.value], false).value && alpha > MinInt
      && (forall j :: 0 <= j < i ==> Value(kids[j], false).value <= alpha)
      && (forall j :: 0 <= j < best.value ==> Value(kids[j], false).value < alpha)
    ensures Scan(kids, i, alpha, best).Finished?
    ensures Scan(kids, i, alpha, best).best.Some? <==> SomeAboveMin(kids)
    ensures Scan(kids, i, alpha, best).best.Some? ==> IsFirstBest(kids, Scan(kids, i, alpha, best).best.value)
    decreases |kids| - i
  {
    if i < |kids| {
      var v := Value(kids[i], false).value;
      if alpha < MaxInt {
        PruneSound(kids[i], false, alpha, MaxInt);
        if v > alpha {
          ScanLoop(kids, i + 1, v, Some(i));
        } else {
          ScanLoop(kids, i + 1, alpha, best);
        }
      } else {
        BoundedPrune(kids[i], false, alpha, MaxInt);
        ScanLoop(kids, i + 1, alpha, best);
      }
    }
  }

  /** The root pass over subtrees whose leaves all evaluate within the int
      range goes through every move, and picks a best index exactly when
      some subtree's minimax value is above Integer.MIN_VALUE: the first
      subtree of maximal minimax value. */
  lemma ScanFindsBest(kids: seq<Tree>)
    requires AllBounded(kids)
    ensures ValuesInRange(kids)
    ensures Scan(kids, 0, MinInt, None).Finished?
    ensures Scan(kids, 0, MinInt, None).best.Some? <==> SomeAboveMin(kids)
    ensures Scan(kids, 0, MinInt, None).best.Some? ==> IsFirstBest(kids, Scan(kids, 0, MinInt, None).best.value)
  {
    AllBoundedValues(kids);
    ScanLoop(kids, 0, MinInt, None);
  }

  /** One step of HyggeBot's root pass: the clock is within the deadline
      and subtree i scores v. */
  lemma TimedScanStep(kids: seq<Tree>, i: nat, alpha: int, best: Option<nat>,
                      readings: nat -> int, deadline: int, n: nat, v: int, n': nat)
    requires i < |kids| && (best.Some? ==> best.value < i) && At(readings, n) <= deadline
    requires Timed(kids[i], false, alpha, MaxInt, readings, deadline, n + 1) == (Some(v), n')
    ensures TimedScan(kids, i, alpha, best, readings, deadline, n) ==
      if v > alpha then TimedScan(kids, i + 1, v, Some(i), readings, deadline, n')
      else TimedScan(kids, i + 1, alpha, best, readings, deadline, n')
  {
  }

  /** The root pass ends when the clock reads past the deadline. */
  lemma TimedScanExpired(kids: seq<Tree>, i: nat, alpha: int, best: Option<nat>,
                         readings: nat -> int, deadline: int, n: nat)
    requires i < |kids| && (best.Some? ==> best.value < i) && At(readings, n) > deadline
    ensures TimedScan(kids, i, alpha, best, readings, deadline, n) == (Expired(best), n + 1)
  {
  }

  /** When none of its polls reads past the deadline, HyggeBot's root pass
      goes through every move and picks the first subtree of maximal minimax
      value, or no move when every value is Integer.MIN_VALUE. */
  lemma TimedScanFindsBest(kids: seq<Tree>, readings: nat -> int, deadline: int, n: nat)
    requires AllBounded(kids)
    requires InTime(readings, deadline, n, TimedScan(kids, 0, MinInt, None, readings, deadline, n).1)
    ensures ValuesInRange(kids)
    ensures TimedScan(kids, 0, MinInt, None, readings, deadline, n).0.Finished?
    ensures var r := TimedScan(kids, 0, MinInt, None, readings, deadline, n).0;
      (r.best.Some? <==> SomeAboveMin(kids)) && (r.best.Some? ==> IsFirstBest(kids, r.best.value))
  {
    TimedScanIsScan(kids, 0, MinInt, None, readings, deadline, n);
    ScanFindsBest(kids);
  }
}
