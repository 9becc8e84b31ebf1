/**
 * The atomic reference count as compare-and-swap loops, run by any number of threads in any
 * interleaving, against the version that does the same under a lock.
 */
module Refcount {
  const REFCOUNT_MAX: nat := 0xffff_ffff

  datatype Op = Inc | Dec

  /** What an operation returns: nothing, whether the count reached zero, or not at all. */
  datatype Outcome = Nothing | Zero(reached: bool) | Abort

  // ---- the locked version ----

  /** A thread between calling an operation and returning from it; the effect is one atomic step. */
  datatype Phase = Idle | Called(op: Op) | Finished(op: Op, outcome: Outcome) | Dead

  /**
   * The counter and its threads. What follows is bookkeeping: the references each thread owns, and
   * how many decrements have reported zero.
   */
  datatype State<P> = State(count: nat, threads: seq<P>, refs: seq<nat>, zeros: nat)
  {
    predicate Valid() {
      |threads| == |refs| && count <= REFCOUNT_MAX
    }
  }

  /** The body of either operation under the lock. */
  function Locked(op: Op, count: nat): (nat, Outcome) {
    match op
    case Inc => (if count < REFCOUNT_MAX then count + 1 else count, Nothing)
    case Dec =>
      if count == 0 then (count, Abort)
      else
        var next := if count < REFCOUNT_MAX then count - 1 else count;
        (next, Zero(next == 0))
  }

  /** The same under the lock, as the operations are written. */
  class LockedCount {
    var count: nat

    method Increment()
      requires count <= REFCOUNT_MAX
      modifies this
      ensures (count, Nothing) == Locked(Inc, old(count))
    {
      if count < REFCOUNT_MAX {
        count := count + 1;
      }
    }

    method DecrementAndTestZero() returns (outcome: Outcome)
      requires count <= REFCOUNT_MAX
      modifies this
      ensures (count, outcome) == Locked(Dec, old(count))
    {
      if count == 0 {
        return Abort;
      }
      if count < REFCOUNT_MAX {
        count := count - 1;
      }
      return Zero(count == 0);
    }
  }

  /** The references of a thread once it has called `op`: the released one is no longer its own. */
  function OwnedAfterCall(op: Op, owned: nat): nat
    requires owned >= 1
  {
    if op.Dec? then owned - 1 else owned
  }

  function Gained(op: Op, owned: nat): nat {
    if op.Inc? then owned + 1 else owned
  }

  function ZeroCount(outcome: Outcome): nat {
    if outcome == Zero(true) then 1 else 0
  }

  /** Callers own what they release, and hold a reference while they add one. */
  predicate Calls<P(==)>(s: State<P>, next: State<P>, t: nat, op: Op, calling: P)
    requires s.Valid() && t < |s.threads|
  {
    s.refs[t] >= 1
    && next == s.(threads := s.threads[t := calling], refs := s.refs[t := OwnedAfterCall(op, s.refs[t])])
  }

  /** The moment the operation takes effect. */
  predicate TakesEffect<P(==)>(s: State<P>, next: State<P>, t: nat, op: Op, outcome: Outcome, finished: P)
    requires s.Valid() && t < |s.threads|
  {
    var (count, result) := Locked(op, s.count);
    && outcome == result
    && next == State(count, s.threads[t := finished],
                     s.refs[t := Gained(op, s.refs[t])], s.zeros + ZeroCount(result))
  }

  /** An idle owner hands a reference to another thread. */
  predicate HandsOver<P(==)>(s: State<P>, next: State<P>, t: nat, u: nat, idle: P)
    requires s.Valid() && t < |s.threads| && u < |s.threads|
  {
    t != u && s.threads[t] == idle && s.refs[t] >= 1
    && next == s.(refs := s.refs[t := s.refs[t] - 1][u := s.refs[u] + 1])
  }

  predicate LockedStep(s: State<Phase>, next: State<Phase>)
    requires s.Valid()
  {
    exists t: nat, u: nat, op: Op | t < |s.threads| && u < |s.threads| :: LockedMove(s, next, t, u, op)
  }

  predicate LockedMove(s: State<Phase>, next: State<Phase>, t: nat, u: nat, op: Op)
    requires s.Valid() && t < |s.threads| && u < |s.threads|
  {
    || (s.threads[t] == Idle && Calls(s, next, t, op, Called(op)))
    || (s.threads[t] == Called(op) && TakesEffect(s, next, t, op, Locked(op, s.count).1, Finished(op, Locked(op, s.count).1)))
    || (s.threads[t].Finished? && next == s.(threads := s.threads[t := if s.threads[t].outcome == Abort then Dead else Idle]))
    || HandsOver(s, next, t, u, Idle)
  }

  // ---- the compare-and-swap version ----

  /**
   * A thread inside its loop has not loaded the count yet, or holds the value it last saw. `Swapped`
   * is the moment behind a successful exchange.
   */
  datatype Local = Rest | Looping(op: Op, expected: Expected) | Swapped(op: Op, outcome: Outcome) | Aborted

  datatype Expected = NotLoaded | Seen(value: nat)

  /** The loop is left, without an exchange, when it sees a saturated count; a decrement aborts on zero. */
  predicate Stops(op: Op, value: nat) {
    value == REFCOUNT_MAX || (op.Dec? && value == 0)
  }

  /**
   * The atomic load, or a failed exchange, which may fail spuriously: `expected` becomes the current
   * count. If the loop stops at that value, this is the moment that counts.
   */
  predicate Looks(s: State<Local>, next: State<Local>, t: nat, op: Op)
    requires s.Valid() && t < |s.threads|
  {
    var l := s.threads[t];
    l.Looping? && l.op == op && (l.expected.Seen? ==> !Stops(op, l.expected.value))
    && next == s.(threads := s.threads[t := Looping(op, Seen(s.count))],
                  refs := if Stops(op, s.count) then s.refs[t := Gained(op, s.refs[t])] else s.refs)
  }

  /** A successful exchange. */
  predicate Swaps(s: State<Local>, next: State<Local>, t: nat, op: Op)
    requires s.Valid() && t < |s.threads|
  {
    var l := s.threads[t];
    && l.Looping? && l.op == op && l.expected == Seen(s.count) && !Stops(op, s.count)
    && (var value := if op.Inc? then s.count + 1 else s.count - 1;
        var outcome := if op.Inc? then Nothing else Zero(value == 0);
        next == State(value, s.threads[t := Swapped(op, outcome)],
                      s.refs[t := Gained(op, s.refs[t])], s.zeros + ZeroCount(outcome)))
  }

  /** Leaving the loop. */
  predicate Leaves(s: State<Local>, next: State<Local>, t: nat)
    requires s.Valid() && t < |s.threads|
  {
    var l := s.threads[t];
    || (l.Swapped? && next == s.(threads := s.threads[t := Rest]))
    || (l.Looping? && l.expected.Seen? && Stops(l.op, l.expected.value)
        && next == s.(threads := s.threads[t := if l.expected.value == 0 then Aborted else Rest]))
  }

  predicate Step(s: State<Local>, next: State<Local>)
    requires s.Valid()
  {
    exists t: nat, u: nat, op: Op | t < |s.threads| && u < |s.threads| :: Move(s, next, t, u, op)
  }

  predicate Move(s: State<Local>, next: State<Local>, t: nat, u: nat, op: Op)
    requires s.Valid() && t < |s.threads| && u < |s.threads|
  {
    || (s.threads[t] == Rest && Calls(s, next, t, op, Looping(op, NotLoaded)))
    || Looks(s, next, t, op) || Swaps(s, next, t, op) || Leaves(s, next, t)
    || HandsOver(s, next, t, u, Rest)
  }

  // ---- refinement ----

  /** The locked thread that a looping one stands for. */
  function AbsThread(l: Local): Phase {
    match l
    case Rest => Idle
    case Looping(op, expected) =>
      if expected.Seen? && Stops(op, expected.value) then
        Finished(op, if op.Inc? then Nothing else if expected.value == 0 then Abort else Zero(false))
      else Called(op)
    case Swapped(op, outcome) => Finished(op, outcome)
    case Aborted => Dead
  }

  function AbsThreads(threads: seq<Local>): (r: seq<Phase>)
    ensures |r| == |threads|
    ensures forall t | 0 <= t < |threads| :: r[t] == AbsThread(threads[t])
  {
    seq(|threads|, t requires 0 <= t < |threads| => AbsThread(threads[t]))
  }

  function Abs(s: State<Local>): State<Phase> {
    State(s.count, AbsThreads(s.threads), s.refs, s.zeros)
  }

  lemma AbsUpdate(threads: seq<Local>, t: nat, l: Local)
    requires t < |threads|
    ensures AbsThreads(threads[t := l]) == AbsThreads(threads)[t := AbsThread(l)]
  {
  }

  predicate Results(s: State<Local>) {
    forall t | 0 <= t < |s.threads| :: s.threads[t].Swapped? ==> s.threads[t].outcome != Abort
  }

  lemma {:induction false} LooksRefines(s: State<Local>, next: State<Local>, t: nat, u: nat, op: Op)
    requires s.Valid() && Results(s) && t < |s.threads| && u < |s.threads| && Looks(s, next, t, op)
    ensures next.Valid() && Results(next) && Abs(s).Valid()
    ensures Abs(next) == Abs(s) || LockedMove(Abs(s), Abs(next), t, u, op)
  {
    AbsUpdate(s.threads, t, Looping(op, Seen(s.count)));
    if !Stops(op, s.count) {
      assert AbsThreads(s.threads)[t := Called(op)] == AbsThreads(s.threads);
    }
  }

  lemma {:induction false} SwapsRefines(s: State<Local>, next: State<Local>, t: nat, u: nat, op: Op)
    requires s.Valid() && Results(s) && t < |s.threads| && u < |s.threads| && Swaps(s, next, t, op)
    ensures next.Valid() && Results(next) && Abs(s).Valid() && LockedMove(Abs(s), Abs(next), t, u, op)
  {
    AbsUpdate(s.threads, t, Swapped(op, Locked(op, s.count).1));
  }

  lemma {:induction false} LeavesRefines(s: State<Local>, next: State<Local>, t: nat, u: nat, op: Op)
    requires s.Valid() && Results(s) && t < |s.threads| && u < |s.threads| && Leaves(s, next, t)
    ensures next.Valid() && Results(next) && Abs(s).Valid() && LockedMove(Abs(s), Abs(next), t, u, op)
  {
    AbsUpdate(s.threads, t, next.threads[t]);
  }

  lemma {:induction false} MoveRefines(s: State<Local>, next: State<Local>, t: nat, u: nat, op: Op)
    requires s.Valid() && Results(s) && t < |s.threads| && u < |s.threads| && Move(s, next, t, u, op)
    ensures next.Valid() && Results(next) && Abs(s).Valid()
    ensures Abs(next) == Abs(s) || LockedMove(Abs(s), Abs(next), t, u, op)
  {
    hide Looks, Swaps, Leaves;
    if Looks(s, next, t, op) {
      LooksRefines(s, next, t, u, op);
    } else if Swaps(s, next, t, op) {
      SwapsRefines(s, next, t, u, op);
    } else if Leaves(s, next, t) {
      LeavesRefines(s, next, t, u, op);
    } else if s.threads[t] == Rest && Calls(s, next, t, op, Looping(op, NotLoaded)) {
      AbsUpdate(s.threads, t, Looping(op, NotLoaded));
    }
  }

  /**
   * Every step of the loops, whichever thread takes it and however often exchanges fail, is one step
   * of the locked version or changes nothing there.
   */
  lemma {:induction false} StepRefines(s: State<Local>, next: State<Local>)
    requires s.Valid() && Results(s) && Step(s, next)
    ensures next.Valid() && Results(next) && Abs(s).Valid()
    ensures Abs(next) == Abs(s) || LockedStep(Abs(s), Abs(next))
  {
    hide Move, LockedMove, Results;
    var t: nat, u: nat, op: Op :| t < |s.threads| && u < |s.threads| && Move(s, next, t, u, op);
    MoveRefines(s, next, t, u, op);
  }

  // ---- counting references ----

  function Sum(s: seq<nat>): nat {
    if s == [] then 0 else s[0] + Sum(s[1..])
  }

  lemma {:induction false} SumUpdate(s: seq<nat>, t: nat, n: nat)
    requires t < |s|
    ensures Sum(s[t := n]) == Sum(s) - s[t] + n && Sum(s) >= s[t]
  {
    if t == 0 {
      assert s[0 := n][1..] == s[1..];
    } else {
      SumUpdate(s[1..], t - 1, n);
      assert s[t := n][1..] == s[1..][t - 1 := n];
    }
  }

  lemma {:induction false} SumZero(s: seq<nat>)
    ensures Sum(s) == 0 <==> forall t | 0 <= t < |s| :: s[t] == 0
  {
    if s != [] {
      SumZero(s[1..]);
      assert (forall t | 0 <= t < |s| :: s[t] == 0) ==> forall t | 0 <= t < |s[1..]| :: s[1..][t] == s[t + 1];
      assert s[0] == 0 && (forall t | 0 <= t < |s[1..]| :: s[1..][t] == 0) ==> forall t | 0 <= t < |s| :: s[t] == if t == 0 then 0 else s[1..][t - 1];
    }
  }

  /** The references a thread accounts for: its own, and the one it is about to release. */
  function Weight(p: Phase, owned: nat): nat {
    if p == Called(Dec) then owned + 1 else owned
  }

  function Weights(s: State<Phase>): (w: seq<nat>)
    requires s.Valid()
    ensures |w| == |s.threads|
    ensures forall t | 0 <= t < |s.threads| :: w[t] == Weight(s.threads[t], s.refs[t])
  {
    seq(|s.threads|, t requires 0 <= t < |s.threads| => Weight(s.threads[t], s.refs[t]))
  }

  /** All references in the system. */
  function Live(s: State<Phase>): nat
    requires s.Valid()
  {
    Sum(Weights(s))
  }

  predicate ThreadOk(p: Phase, owned: nat) {
    p != Dead && (p.Finished? ==> p.outcome != Abort) && (p == Called(Inc) ==> owned >= 1)
  }

  /** Until it saturates, the count is the number of references, and one decrement has seen zero once they are gone. */
  predicate Counted(s: State<Phase>) {
    && s.Valid()
    && (s.count < REFCOUNT_MAX ==> s.count == Live(s) && s.zeros == if Live(s) == 0 then 1 else 0)
    && (s.count == REFCOUNT_MAX ==> s.zeros == 0)
    && (forall t | 0 <= t < |s.threads| :: ThreadOk(s.threads[t], s.refs[t]))
  }

  /** The effect on the total of changing one thread. */
  lemma {:induction false} LiveUpdate(s: State<Phase>, next: State<Phase>, t: nat)
    requires s.Valid() && next.Valid() && t < |s.threads| == |next.threads|
    requires next.threads == s.threads[t := next.threads[t]] && next.refs == s.refs[t := next.refs[t]]
    ensures Live(next) == Live(s) - Weight(s.threads[t], s.refs[t]) + Weight(next.threads[t], next.refs[t])
    ensures Live(s) >= Weight(s.threads[t], s.refs[t])
  {
    SumUpdate(Weights(s), t, Weight(next.threads[t], next.refs[t]));
    assert Weights(next) == Weights(s)[t := Weight(next.threads[t], next.refs[t])];
  }

  lemma {:induction false} LockedMoveCounts(s: State<Phase>, next: State<Phase>, t: nat, u: nat, op: Op)
    requires Counted(s) && t < |s.threads| && u < |s.threads| && LockedMove(s, next, t, u, op)
    ensures Counted(next)
    ensures s.count == REFCOUNT_MAX ==> next.count == REFCOUNT_MAX
  {
    hide Live, Weights;
    assert ThreadOk(s.threads[t], s.refs[t]);
    if HandsOver(s, next, t, u, Idle) {
      var mid := s.(refs := s.refs[t := s.refs[t] - 1]);
      assert ThreadOk(s.threads[u], s.refs[u]);
      LiveUpdate(s, mid, t);
      LiveUpdate(mid, next, u);
    } else {
      ThreadsUpdated(s, next, t, u, op);
      LiveUpdate(s, next, t);
    }
  }

  lemma ThreadsUpdated(s: State<Phase>, next: State<Phase>, t: nat, u: nat, op: Op)
    requires s.Valid() && t < |s.threads| && u < |s.threads| && LockedMove(s, next, t, u, op) && !HandsOver(s, next, t, u, Idle)
    requires s.count <= REFCOUNT_MAX
    ensures next.Valid() && |next.threads| == |s.threads|
    ensures next.threads == s.threads[t := next.threads[t]] && next.refs == s.refs[t := next.refs[t]]
  {
  }

  // ---- whole runs of the loops ----

  predicate Initial(s: State<Local>) {
    && s.Valid() && 1 <= s.count < REFCOUNT_MAX && s.count == Sum(s.refs) && s.zeros == 0
    && forall t | 0 <= t < |s.threads| :: s.threads[t] == Rest
  }

  predicate Run(trace: seq<State<Local>>) {
    && |trace| > 0 && Initial(trace[0])
    && forall i | 0 <= i < |trace| - 1 :: trace[i].Valid() && Step(trace[i], trace[i + 1])
  }

  predicate Good(s: State<Local>) {
    s.Valid() && Results(s) && Counted(Abs(s))
  }

  lemma {:induction false} InitialGood(s: State<Local>)
    requires Initial(s)
    ensures Good(s)
  {
    assert Weights(Abs(s)) == s.refs;
  }

  lemma {:induction false} StepGood(s: State<Local>, next: State<Local>)
    requires Good(s) && Step(s, next)
    ensures Good(next)
    ensures s.count == REFCOUNT_MAX ==> next.count == REFCOUNT_MAX
  {
    hide Counted, Step, LockedMove;
    StepRefines(s, next);
    if Abs(next) != Abs(s) {
      var t: nat, u: nat, op: Op :| t < |Abs(s).threads| && u < |Abs(s).threads| && LockedMove(Abs(s), Abs(next), t, u, op);
      LockedMoveCounts(Abs(s), Abs(next), t, u, op);
    }
  }

  lemma {:induction false} RunGood(trace: seq<State<Local>>, i: nat)
    requires Run(trace) && i < |trace|
    ensures Good(trace[i])
  {
    hide Good, Step, Initial;
    if i == 0 {
      InitialGood(trace[0]);
    } else {
      RunGood(trace, i - 1);
      StepGood(trace[i - 1], trace[i - 1 + 1]);
    }
  }

  /** The count is the number of live references in every reachable state that has not saturated; nobody aborts. */
  lemma {:induction false} CountIsLive(trace: seq<State<Local>>, i: nat)
    requires Run(trace) && i < |trace|
    ensures Abs(trace[i]).Valid()
    ensures trace[i].count < REFCOUNT_MAX ==> trace[i].count == Live(Abs(trace[i]))
    ensures forall t | 0 <= t < |trace[i].threads| :: trace[i].threads[t] != Aborted
  {
    RunGood(trace, i);
    forall t | 0 <= t < |trace[i].threads| ensures trace[i].threads[t] != Aborted {
      assert ThreadOk(Abs(trace[i]).threads[t], trace[i].refs[t]);
    }
  }

  /** When all references have been released and the count never saturated, exactly one decrement reported zero. */
  lemma {:induction false} ZeroReportedOnce(trace: seq<State<Local>>, i: nat)
    requires Run(trace) && i < |trace|
    requires trace[i].Valid()
    requires forall t | 0 <= t < |trace[i].threads| :: trace[i].threads[t] == Rest && trace[i].refs[t] == 0
    ensures trace[i].count < REFCOUNT_MAX ==> trace[i].count == 0 && trace[i].zeros == 1
  {
    RunGood(trace, i);
    SumZero(Weights(Abs(trace[i])));
  }

  /** Zero is never reported while a reference is left, nor ever twice. */
  lemma {:induction false} ZeroOnlyAtTheEnd(trace: seq<State<Local>>, i: nat)
    requires Run(trace) && i < |trace|
    ensures trace[i].zeros <= 1 && Abs(trace[i]).Valid()
    ensures trace[i].zeros == 1 <==> Live(Abs(trace[i])) == 0 && trace[i].count < REFCOUNT_MAX
  {
    RunGood(trace, i);
  }

  /** A saturated count stays saturated, and no decrement reports zero any more. */
  lemma {:induction false} SaturationSticks(trace: seq<State<Local>>, i: nat, j: nat)
    requires Run(trace) && i <= j < |trace| && trace[i].count == REFCOUNT_MAX
    ensures trace[j].count == REFCOUNT_MAX && trace[j].zeros == 0
    decreases j
  {
    hide Step;
    RunGood(trace, j);
    if i < j {
      SaturationSticks(trace, i, j - 1);
      RunGood(trace, j - 1);
      StepGood(trace[j - 1], trace[j - 1 + 1]);
    }
  }
}
