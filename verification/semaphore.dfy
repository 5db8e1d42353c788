/** The counting semaphore that hands out the one permit to prepare a connection. */
module PermitSemaphore {

  /** `Semaphore`. The ghost counters record the completed calls of all threads; `patience` bounds how
      often a waiting thread is woken in vain. */
  class Semaphore {
    var count: nat
    ghost const initial: nat
    ghost var waits: nat
    ghost var notifies: nat
    var patience: nat

    ghost predicate Valid()
      reads this
    {
      count == initial + notifies - waits
    }

    constructor (count: nat, patience: nat)
      ensures Valid() && initial == count && waits == notifies == 0 && this.patience == patience
    {
      this.count, initial, waits, notifies, this.patience := count, count, 0, 0, patience;
    }

    method Notify()
      requires Valid()
      modifies this
      ensures Valid() && notifies == old(notifies) + 1 && waits == old(waits) && count == old(count) + 1
    {
      count, notifies := count + 1, notifies + 1;
    }

    /** `cv.wait`: the lock is released, other threads call `wait` and `notify`, the thread wakes up again. */
    method Sleep()
      requires Valid() && count == 0
      modifies this
      ensures Valid() && waits >= old(waits) && notifies >= old(notifies)
      ensures count > 0 || patience < old(patience)
    {
      var given: nat :| patience > 0 || given > 0;
      var taken: nat :| taken <= given && (patience > 0 || taken < given);
      count, notifies, waits := given - taken, notifies + given, waits + taken;
      patience := if patience > 0 then patience - 1 else 0;
    }

    /** The permit taken is one that was there or came in: calls of `wait` never outnumber permits. */
    method Wait()
      requires Valid()
      modifies this
      ensures Valid() && waits > old(waits) && notifies >= old(notifies)
      ensures old(count) > 0 ==> waits == old(waits) + 1 && notifies == old(notifies) && count == old(count) - 1
    {
      while count == 0
        invariant Valid() && waits >= old(waits) && notifies >= old(notifies)
        invariant old(count) > 0 ==> waits == old(waits) && notifies == old(notifies) && count == old(count)
        decreases count == 0, patience
      {
        Sleep();
      }
      count, waits := count - 1, waits + 1;
    }
  }

  /** Any number of threads around one semaphore. A sleeping thread has given up the mutex inside
      `cv.wait`; a woken one still has to take the mutex and look at the count again. */
  datatype State = State(count: nat, sleeping: set<nat>, woken: set<nat>, passed: nat, notified: nat)

  datatype Step =
    | Wait(thread: nat)     // enters `wait`
    | Recheck(thread: nat)  // a woken thread is back in the loop
    | Notify(wake: nat)     // increments, and wakes this sleeper if there is any
    | Spurious(thread: nat)

  predicate Enabled(s: State, step: Step) {
    match step
    case Wait(t) => t !in s.sleeping && t !in s.woken
    case Recheck(t) => t in s.woken
    case Notify(t) => s.sleeping != {} ==> t in s.sleeping
    case Spurious(t) => t in s.sleeping
  }

  function Apply(s: State, step: Step): State
    requires Enabled(s, step)
  {
    match step
    case Wait(t) =>
      if s.count == 0 then s.(sleeping := s.sleeping + {t}) else s.(count := s.count - 1, passed := s.passed + 1)
    case Recheck(t) =>
      if s.count == 0 then s.(woken := s.woken - {t}, sleeping := s.sleeping + {t})
      else s.(woken := s.woken - {t}, count := s.count - 1, passed := s.passed + 1)
    case Notify(t) =>
      var s' := s.(count := s.count + 1, notified := s.notified + 1);
      if s.sleeping == {} then s' else s'.(sleeping := s.sleeping - {t}, woken := s.woken + {t})
    case Spurious(t) => s.(sleeping := s.sleeping - {t}, woken := s.woken + {t})
  }

  ghost predicate Inv(s: State, initial: nat) {
    && s.sleeping !! s.woken
    && s.count + s.passed == initial + s.notified
    && (s.sleeping != {} ==> s.count <= |s.woken|)
  }

  lemma StepKeepsInv(s: State, step: Step, initial: nat)
    requires Inv(s, initial) && Enabled(s, step)
    ensures Inv(Apply(s, step), initial)
  {
  }

  ghost predicate Run(initial: nat, steps: seq<Step>, states: seq<State>) {
    && |states| == |steps| + 1
    && states[0] == State(initial, {}, {}, 0, 0)
    && forall i :: 0 <= i < |steps| ==> Enabled(states[i], steps[i]) && states[i + 1] == Apply(states[i], steps[i])
  }

  /** Although `notify_one` wakes a single thread that others may overtake, no permit is ever left lying
      while every waiting thread sleeps; and permits are conserved. */
  lemma {:induction false} NoLostWakeup(initial: nat, steps: seq<Step>, states: seq<State>)
    requires Run(initial, steps, states)
    ensures Inv(states[|steps|], initial)
    ensures states[|steps|].count > 0 && states[|steps|].sleeping != {} ==> states[|steps|].woken != {}
    ensures states[|steps|].passed <= initial + states[|steps|].notified
  {
    var n := |steps|;
    if n > 0 {
      NoLostWakeup(initial, steps[..n - 1], states[..n]);
      StepKeepsInv(states[n - 1], steps[n - 1], initial);
    }
  }
}
