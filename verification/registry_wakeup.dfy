/** Threads that wait in `GetOwnerSidebandDataToken` and threads that call `RegisterSidebandData`, step by
    step around the mutex and the condition variable. */
module RegistryWakeup {

  datatype WaiterPc =
    | Arriving             // has not got the mutex yet
    | Testing              // has the mutex, about to look the id up
    | Asleep               // inside `wait`: no mutex, not notified
    | Woken                // notified, or woken spuriously; needs the mutex again
    | Returned(token: int)

  datatype RegistrarPc = Starting | Inserting | Notifying | Leaving | Done

  datatype Waiter = Waiter(id: string, pc: WaiterPc)
  datatype Registrar = Registrar(id: string, token: int, pc: RegistrarPc)

  datatype Owner = Free | ByWaiter(w: nat) | ByRegistrar(r: nat)

  datatype State = State(
    mutex: Owner,
    buffers: map<string, int>,
    usageIds: map<int, string>,  // of every session ever registered
    waiters: map<nat, Waiter>,
    registrars: map<nat, Registrar>
  )

  datatype Step =
    | NewWaiter(w: nat, id: string)
    | NewRegistrar(r: nat, id: string, token: int)
    | LockWaiter(w: nat)
    | Test(w: nat)
    | Spurious(w: nat)
    | LockRegistrar(r: nat)
    | Insert(r: nat)
    | NotifyAll(r: nat)
    | Unlock(r: nat)
    | Close(id: string)  // a whole CloseSidebandData call

  predicate Enabled(s: State, step: Step) {
    match step
    case NewWaiter(w, _) => w !in s.waiters
    case NewRegistrar(r, _, token) =>
      r !in s.registrars && token !in s.usageIds
      && forall q :: q in s.registrars ==> s.registrars[q].token != token
    case LockWaiter(w) => w in s.waiters && (s.waiters[w].pc.Arriving? || s.waiters[w].pc.Woken?) && s.mutex.Free?
    case Test(w) => w in s.waiters && s.waiters[w].pc.Testing?
    case Spurious(w) => w in s.waiters && s.waiters[w].pc.Asleep?
    case LockRegistrar(r) => r in s.registrars && s.registrars[r].pc.Starting? && s.mutex.Free?
    case Insert(r) => r in s.registrars && s.registrars[r].pc.Inserting? && s.registrars[r].id !in s.buffers
    case NotifyAll(r) => r in s.registrars && s.registrars[r].pc.Notifying?
    case Unlock(r) => r in s.registrars && s.registrars[r].pc.Leaving?
    case Close(id) => id in s.buffers && s.mutex.Free?
  }

  function AtWaiter(s: State, w: nat, pc: WaiterPc): State
    requires w in s.waiters
  {
    s.(waiters := s.waiters[w := s.waiters[w].(pc := pc)])
  }

  function AtRegistrar(s: State, r: nat, pc: RegistrarPc): State
    requires r in s.registrars
  {
    s.(registrars := s.registrars[r := s.registrars[r].(pc := pc)])
  }

  function Apply(s: State, step: Step): State
    requires Enabled(s, step)
  {
    match step
    case NewWaiter(w, id) => s.(waiters := s.waiters[w := Waiter(id, Arriving)])
    case NewRegistrar(r, id, token) => s.(registrars := s.registrars[r := Registrar(id, token, Starting)])
    case LockWaiter(w) => AtWaiter(s, w, Testing).(mutex := ByWaiter(w))
    case Test(w) =>
      var id := s.waiters[w].id;
      AtWaiter(s, w, if id in s.buffers then Returned(s.buffers[id]) else Asleep).(mutex := Free)
    case Spurious(w) => AtWaiter(s, w, Woken)
    case LockRegistrar(r) => AtRegistrar(s, r, Inserting).(mutex := ByRegistrar(r))
    case Insert(r) =>
      var g := s.registrars[r];
      AtRegistrar(s, r, Notifying).(buffers := s.buffers[g.id := g.token], usageIds := s.usageIds[g.token := g.id])
    case NotifyAll(r) =>
      AtRegistrar(s, r, Leaving).(
        waiters := map w | w in s.waiters ::
          if s.waiters[w].pc.Asleep? then s.waiters[w].(pc := Woken) else s.waiters[w])
    case Unlock(r) => AtRegistrar(s, r, Done).(mutex := Free)
    case Close(id) => s.(buffers := s.buffers - {id})
  }

  /** The mutex has the one owner that is in its critical section. */
  ghost predicate MutexInv(s: State) {
    && (forall w :: w in s.waiters ==> (s.waiters[w].pc.Testing? <==> s.mutex == ByWaiter(w)))
    && (forall r :: r in s.registrars ==>
          (s.registrars[r].pc in {Inserting, Notifying, Leaving} <==> s.mutex == ByRegistrar(r)))
    && (s.mutex.ByWaiter? ==> s.mutex.w in s.waiters)
    && (s.mutex.ByRegistrar? ==> s.mutex.r in s.registrars)
  }

  /** Sessions are registered at most once, each under its own id. */
  ghost predicate TableInv(s: State) {
    && (forall id :: id in s.buffers ==> s.buffers[id] in s.usageIds && s.usageIds[s.buffers[id]] == id)
    && (forall r :: r in s.registrars && s.registrars[r].pc in {Starting, Inserting} ==>
          s.registrars[r].token !in s.usageIds)
    && (forall r, q :: r in s.registrars && q in s.registrars && r != q ==>
          s.registrars[r].token != s.registrars[q].token)
  }

  /** Every token returned is that of a session registered under the id asked for. */
  ghost predicate TokensMatch(s: State) {
    forall w :: w in s.waiters && s.waiters[w].pc.Returned? ==>
      s.waiters[w].pc.token in s.usageIds && s.usageIds[s.waiters[w].pc.token] == s.waiters[w].id
  }

  /** Who sleeps although the id is in the table is about to be notified. */
  ghost predicate SleepInv(s: State) {
    forall w :: w in s.waiters && s.waiters[w].pc.Asleep? && s.waiters[w].id in s.buffers ==>
      && s.mutex.ByRegistrar? && s.mutex.r in s.registrars
      && s.registrars[s.mutex.r].pc.Notifying? && s.registrars[s.mutex.r].id == s.waiters[w].id
  }

  ghost predicate Inv(s: State) {
    MutexInv(s) && TableInv(s) && TokensMatch(s) && SleepInv(s)
  }

  lemma StepKeepsMutex(s: State, step: Step)
    requires MutexInv(s) && Enabled(s, step)
    ensures MutexInv(Apply(s, step))
  {
  }

  lemma StepKeepsTable(s: State, step: Step)
    requires TableInv(s) && Enabled(s, step)
    ensures TableInv(Apply(s, step))
  {
  }

  lemma StepKeepsTokens(s: State, step: Step)
    requires TableInv(s) && TokensMatch(s) && Enabled(s, step)
    ensures TokensMatch(Apply(s, step))
  {
  }

  lemma StepKeepsSleep(s: State, step: Step)
    requires MutexInv(s) && SleepInv(s) && Enabled(s, step)
    ensures SleepInv(Apply(s, step))
  {
  }

  lemma StepKeepsInv(s: State, step: Step)
    requires Inv(s) && Enabled(s, step)
    ensures Inv(Apply(s, step))
  {
    StepKeepsMutex(s, step);
    StepKeepsTable(s, step);
    StepKeepsTokens(s, step);
    StepKeepsSleep(s, step);
  }

  ghost predicate Run(steps: seq<Step>, states: seq<State>) {
    && |states| == |steps| + 1
    && states[0] == State(Free, map[], map[], map[], map[])
    && forall i :: 0 <= i < |steps| ==> Enabled(states[i], steps[i]) && states[i + 1] == Apply(states[i], steps[i])
  }

  /** A waiter may be asleep while its id is in the table only in the moment between the insertion and the
      notification that the very thread holding the mutex is about to send. */
  ghost predicate NoLostWakeup(s: State) {
    forall w :: w in s.waiters && s.waiters[w].pc.Asleep? && s.waiters[w].id in s.buffers ==>
      && s.mutex.ByRegistrar? && s.mutex.r in s.registrars
      && Enabled(s, NotifyAll(s.mutex.r))
      && Apply(s, NotifyAll(s.mutex.r)).waiters[w].pc == Woken
  }

  lemma SleepersAreNotified(s: State)
    requires Inv(s)
    ensures NoLostWakeup(s)
  {
  }

  lemma {:induction false} RunsLoseNoWakeup(steps: seq<Step>, states: seq<State>)
    requires Run(steps, states)
    ensures Inv(states[|steps|]) && NoLostWakeup(states[|steps|]) && TokensMatch(states[|steps|])
  {
    var n := |steps|;
    if n > 0 {
      RunsLoseNoWakeup(steps[..n - 1], states[..n]);
      StepKeepsInv(states[n - 1], steps[n - 1]);
    }
    SleepersAreNotified(states[n]);
  }

  /** A session stays in the table until it is closed itself, and a registration adds nothing but its own. */
  lemma StepKeepsEntries(s: State, step: Step, id: string)
    requires Enabled(s, step)
    ensures id in s.buffers && step != Close(id) ==>
      id in Apply(s, step).buffers && Apply(s, step).buffers[id] == s.buffers[id]
    ensures id in s.buffers && step == Close(id) ==> id !in Apply(s, step).buffers
    ensures id !in s.buffers && id in Apply(s, step).buffers ==>
      step.Insert? && s.registrars[step.r].id == id && Apply(s, step).buffers[id] == s.registrars[step.r].token
  {
  }

  /** What a thread waits for, or registers, is what it was called with, from its first step to its last. */
  lemma StepKeepsCalls(s: State, step: Step)
    requires Enabled(s, step)
    ensures forall w :: w in s.waiters ==>
      w in Apply(s, step).waiters && Apply(s, step).waiters[w].id == s.waiters[w].id
    ensures forall r :: r in s.registrars ==>
      && r in Apply(s, step).registrars
      && Apply(s, step).registrars[r].id == s.registrars[r].id
      && Apply(s, step).registrars[r].token == s.registrars[r].token
    ensures step.NewWaiter? ==> step.w in Apply(s, step).waiters && Apply(s, step).waiters[step.w].id == step.id
    ensures step.NewRegistrar? ==>
      && step.r in Apply(s, step).registrars
      && Apply(s, step).registrars[step.r].id == step.id && Apply(s, step).registrars[step.r].token == step.token
  {
  }

  /** A waiter whose id is in the table has a way to go on: once the mutex is free it is not asleep. */
  lemma WaiterCanGoOn(s: State, w: nat)
    requires Inv(s) && w in s.waiters && s.waiters[w].id in s.buffers && s.mutex.Free?
    ensures s.waiters[w].pc.Returned? || Enabled(s, LockWaiter(w))
    ensures Enabled(s, LockWaiter(w)) ==>
      var s' := Apply(s, LockWaiter(w));
      Enabled(s', Test(w)) && Apply(s', Test(w)).waiters[w].pc == Returned(s.buffers[s.waiters[w].id])
  {
  }

  /** A registrar that gets the mutex goes through to the end: its session is in the table, the mutex is free,
      and no waiter is left asleep. */
  lemma RegistrationWakesEveryone(s: State, r: nat)
    requires Inv(s) && Enabled(s, LockRegistrar(r)) && s.registrars[r].id !in s.buffers
    ensures var s1 := Apply(s, LockRegistrar(r));
      && Enabled(s1, Insert(r))
      && var s2 := Apply(s1, Insert(r));
         && Enabled(s2, NotifyAll(r))
         && var s3 := Apply(s2, NotifyAll(r));
            && Enabled(s3, Unlock(r))
            && var s4 := Apply(s3, Unlock(r));
               && s4.mutex.Free? && s4.registrars[r].pc.Done?
               && s4.buffers == s.buffers[s.registrars[r].id := s.registrars[r].token]
               && forall w :: w in s.waiters ==>
                    w in s4.waiters && !s4.waiters[w].pc.Asleep?
                    && (!s.waiters[w].pc.Asleep? ==> s4.waiters[w] == s.waiters[w])
  {
  }

  /** InitOwnerSidebandData and InitClientSidebandData insert shared-memory and client sessions without
      notifying anybody. That loses a wakeup exactly when some thread is already asleep waiting for the id. */
  lemma QuietInsertionLosesWakeupExactly(s: State, id: string, token: int)
    requires Inv(s) && s.mutex.Free? && id !in s.buffers
    ensures NoLostWakeup(s.(buffers := s.buffers[id := token])) <==>
      forall w :: w in s.waiters && s.waiters[w].pc.Asleep? ==> s.waiters[w].id != id
  {
    var s' := s.(buffers := s.buffers[id := token]);
    assert forall w :: w in s.waiters && s.waiters[w].pc.Asleep? ==>
      (s.waiters[w].id in s'.buffers <==> s.waiters[w].id == id);
  }
}
