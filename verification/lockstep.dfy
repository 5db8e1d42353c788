/** A client that writes a request and then reads the reply, and the server's initial-write loop, over two
    message queues. */
module Lockstep {
  import opened MessageFifo
  import opened MonikerLoop
  import opened Options

  /** The server's endpoints. */
  datatype Service<!V> = Service(readers: seq<Endpoint>, writers: seq<Endpoint>, world: World<V>)

  datatype Client = Ready | Awaiting | Finished
  datatype Server<V> = Reading | Serving(values: seq<V>) | Done

  datatype State<V> = State(client: Client, server: Server<V>, up: Fifo<Request<V>>, down: Fifo<seq<V>>)

  datatype Step<V> = ClientWrite(values: seq<V>) | ClientCancel | ServerRead | ServerServe | ClientRead

  function Init<V>(): State<V> {
    State(Ready, Reading, Empty(), Empty())
  }

  /** A client sends a value for every writer. */
  ghost predicate Enabled<V>(s: State<V>, step: Step<V>, service: Service<V>) {
    match step
    case ClientWrite(values) => s.client.Ready? && |values| >= |service.writers|
    case ClientCancel => s.client.Ready?
    case ServerRead => s.server.Reading? && s.up.Valid() && s.up.Queued() != []
    case ServerServe => s.server.Serving?
    case ClientRead => s.client.Awaiting? && s.down.Valid() && s.down.Queued() != []
  }

  /** Without readers there is no reply; if a reply had no bytes the server would close the session. */
  ghost function Apply<V>(s: State<V>, step: Step<V>, service: Service<V>): State<V>
    requires Enabled(s, step, service)
  {
    match step
    case ClientWrite(values) => s.(client := Awaiting, up := s.up.Push(Request(false, values)))
    case ClientCancel => s.(client := Finished, up := s.up.Push(Request(true, [])))
    case ServerRead =>
      var request := s.up.Queued()[0];
      s.(server := if request.cancel then Done else Serving(request.values), up := s.up.Deliver(request))
    case ServerServe =>
      if service.readers == [] then s.(server := Reading)
      else
        var reply := Samples(|service.readers|, service.world, |s.down.sent|, s.server.values);
        s.(server := if ReplySize(service.world, reply) == 0 then Done else Reading, down := s.down.Push(reply))
    case ClientRead => s.(client := Ready, down := s.down.Deliver(s.down.Queued()[0]))
  }

  ghost predicate Run<V(!new)>(service: Service<V>, steps: seq<Step<V>>, states: seq<State<V>>) {
    && |states| == |steps| + 1
    && states[0] == Init()
    && forall i :: 0 <= i < |steps| ==>
         Enabled(states[i], steps[i], service) && states[i + 1] == Apply(states[i], steps[i], service)
  }

  /** Both sides are done and nothing is left in the queues. */
  ghost predicate Over<V>(s: State<V>) {
    s.client.Finished? && s.server.Done? && s.up.sent == s.up.received && s.down.sent == s.down.received
  }

  ghost predicate Deadlocked<V(!new)>(s: State<V>, service: Service<V>) {
    !Over(s) && forall step :: !Enabled(s, step, service)
  }

  /** Of the requests that the server has read, it still has this many on its hands. */
  function Unserved<V>(server: Server<V>): nat {
    if server.Reading? then 0 else 1
  }

  /** Requests have a value for every writer; the server has served all those read but the one in its hands,
      which is a cancellation if it has closed. */
  ghost predicate Serves<V>(s: State<V>, service: Service<V>) {
    var n := |s.up.received| - Unserved(s.server);
    && s.up.Valid() && n >= 0
    && (forall r :: r in s.up.sent ==> r.cancel || |r.values| >= |service.writers|)
    && (forall k :: 0 <= k < n ==> !s.up.received[k].cancel)
    && (s.server.Serving? ==> s.up.received[n] == Request(false, s.server.values))
    && (s.server.Done? ==> s.up.received[n].cancel)
    && (service.readers == [] ==> s.down.sent == [])
    && (service.readers != [] ==>
          |s.down.sent| == n &&
          forall k :: 0 <= k < n ==>
            s.down.sent[k] == Samples(|service.readers|, service.world, k, s.up.received[k].values))
  }

  lemma ServerKeepsServes<V(!new)>(s: State<V>, step: Step<V>, service: Service<V>)
    requires Serves(s, service) && Enabled(s, step, service) && (step.ServerRead? || step.ServerServe?)
    ensures Serves(Apply(s, step, service), service)
  {
    if step.ServerServe? {
      ReplyHasBytes(service.world, Samples(|service.readers|, service.world, |s.down.sent|, s.server.values));
    } else {
      assert s.up.Queued()[0] in s.up.sent;
    }
  }

  lemma StepKeepsServes<V(!new)>(s: State<V>, step: Step<V>, service: Service<V>)
    requires Serves(s, service) && Enabled(s, step, service)
    ensures Serves(Apply(s, step, service), service)
  {
    if step.ServerRead? || step.ServerServe? {
      ServerKeepsServes(s, step, service);
    }
  }

  lemma {:induction false} RunKeepsServes<V(!new)>(service: Service<V>, steps: seq<Step<V>>, states: seq<State<V>>)
    requires Run(service, steps, states)
    ensures Serves(states[|steps|], service)
  {
    var n := |steps|;
    if n > 0 {
      RunKeepsServes(service, steps[..n - 1], states[..n]);
      StepKeepsServes(states[n - 1], steps[n - 1], service);
    }
  }

  /** The requests that the server has read and dealt with. */
  function DealtWith<V>(s: State<V>): seq<Request<V>> {
    if s.server.Serving? && s.up.received != [] then s.up.received[..|s.up.received| - 1] else s.up.received
  }

  /** The server of this system is the read/write loop: in every run, with readers or without, the replies
      sent are the ones the loop makes of the requests dealt with. */
  lemma ServerRunsTheLoop<V(!new)>(service: Service<V>, steps: seq<Step<V>>, states: seq<State<V>>)
    requires Run(service, steps, states)
    ensures var s := states[|steps|];
      && s.up.Valid() && Servable(DealtWith(s), |service.writers|)
      && s.down.sent == Replies(LoopActions(service.readers, service.writers, service.world, DealtWith(s), 0))
  {
    RunKeepsServes(service, steps, states);
    var s, requests := states[|steps|], DealtWith(states[|steps|]);
    DealtWithIsServed(s, service);
    RepliesHoldAllReaders(service.readers, service.writers, service.world, requests, 0);
    var replies := Replies(LoopActions(service.readers, service.writers, service.world, requests, 0));
    forall k | 0 <= k < |replies|
      ensures s.down.sent[k] == replies[k]
    {
      SameValues(s.down.sent[k], replies[k]);
    }
  }

  lemma SameValues<V>(a: seq<V>, b: seq<V>)
    ensures |a| == |b| && (forall i :: 0 <= i < |a| ==> a[i] == b[i]) ==> a == b
  {
  }

  lemma DealtWithIsServed<V>(s: State<V>, service: Service<V>)
    requires Serves(s, service)
    ensures Servable(DealtWith(s), |service.writers|)
    ensures FirstCancel(DealtWith(s)) == |s.up.received| - Unserved(s.server)
  {
    var n, requests := |s.up.received| - Unserved(s.server), DealtWith(s);
    forall k | 0 <= k < n
      ensures |requests[k].values| >= |service.writers|
    {
      assert requests[k] == s.up.sent[k];
    }
    ServableExactly(requests, |service.writers|);
  }

  /** Where the one message in flight is. */
  ghost predicate Inv<V>(s: State<V>, service: Service<V>) {
    && Serves(s, service)
    && s.down.Valid()
    && var sent, taken, replied, read := |s.up.sent|, |s.up.received|, |s.down.sent|, |s.down.received|;
       match s.client
       case Ready => s.server.Reading? && sent == taken == replied == read
       case Awaiting =>
         && sent == read + 1
         && (match s.server
             case Reading => (taken == replied == read && !s.up.sent[read].cancel) || taken == replied == sent
             case Serving(_) => taken == sent && replied == read
             case Done => false)
       case Finished =>
         && sent == read + 1 && replied == read && s.up.sent[read].cancel
         && (match s.server
             case Reading => taken == read
             case Serving(_) => false
             case Done => taken == sent)
  }

  lemma StepKeepsInv<V(!new)>(s: State<V>, step: Step<V>, service: Service<V>)
    requires service.readers != [] && Inv(s, service) && Enabled(s, step, service)
    ensures Inv(Apply(s, step, service), service)
  {
    StepKeepsServes(s, step, service);
    if step.ServerServe? {
      ReplyHasBytes(service.world, Samples(|service.readers|, service.world, |s.down.sent|, s.server.values));
    }
  }

  lemma {:induction false} RunKeepsInv<V(!new)>(service: Service<V>, steps: seq<Step<V>>, states: seq<State<V>>)
    requires service.readers != [] && Run(service, steps, states)
    ensures Inv(states[|steps|], service)
  {
    var n := |steps|;
    if n > 0 {
      RunKeepsInv(service, steps[..n - 1], states[..n]);
      StepKeepsInv(states[n - 1], steps[n - 1], service);
    }
  }

  /** The calls of the client along a run: the values it writes, or nothing for a cancellation. */
  ghost function Calls<V>(steps: seq<Step<V>>): (calls: seq<Option<seq<V>>>)
    ensures forall i :: 0 <= i < |steps| && steps[i].ClientWrite? ==> Some(steps[i].values) in calls
  {
    if steps == [] then []
    else
      var earlier, last := Calls(steps[..|steps| - 1]), steps[|steps| - 1];
      assert forall i :: 0 <= i < |steps| - 1 ==> steps[i] == steps[..|steps| - 1][i];
      if last.ClientWrite? then earlier + [Some(last.values)]
      else if last.ClientCancel? then earlier + [None]
      else earlier
  }

  /** What has been sent to the server is what the client asked for, in its order. */
  lemma {:induction false} RequestsAreTheClients<V(!new)>(service: Service<V>, steps: seq<Step<V>>,
                                                          states: seq<State<V>>)
    requires Run(service, steps, states)
    ensures var sent, calls := states[|steps|].up.sent, Calls(steps);
      && |sent| == |calls|
      && forall i :: 0 <= i < |sent| ==>
           (calls[i].None? <==> sent[i].cancel) && (calls[i].Some? ==> sent[i].values == calls[i].value)
  {
    var n := |steps|;
    if n > 0 {
      RequestsAreTheClients(service, steps[..n - 1], states[..n]);
    }
  }

  /** At every moment at most one message is in flight, requests sent are zero or one ahead of replies read,
      and the `k`-th reply is what the readers yield for the `k`-th request. */
  lemma OneMessageInFlight<V(!new)>(service: Service<V>, steps: seq<Step<V>>, states: seq<State<V>>)
    requires service.readers != [] && Run(service, steps, states)
    ensures var s := states[|steps|];
      && s.up.Valid() && s.down.Valid()
      && |s.up.Queued()| + |s.down.Queued()| <= 1
      && 0 <= |s.up.sent| - |s.down.received| <= 1
      && forall k :: 0 <= k < |s.down.received| ==>
           && !s.up.sent[k].cancel
           && |s.down.received[k]| == |service.readers|
           && forall i :: 0 <= i < |service.readers| ==>
                s.down.received[k][i] == service.world.sample(k, s.up.sent[k].values, i)
  {
    RunKeepsInv(service, steps, states);
  }

  /** The next thing that happens, unless all is over. */
  ghost function NextStep<V>(s: State<V>): Step<V>
    requires s.up.Valid() && s.down.Valid()
  {
    if s.client.Ready? then ClientCancel
    else if s.server.Serving? then ServerServe
    else if s.up.Queued() != [] then ServerRead
    else ClientRead
  }

  lemma NeverDeadlocked<V(!new)>(service: Service<V>, steps: seq<Step<V>>, states: seq<State<V>>)
    requires service.readers != [] && Run(service, steps, states)
    ensures !Deadlocked(states[|steps|], service)
  {
    RunKeepsInv(service, steps, states);
    var s := states[|steps|];
    assert s.client.Finished? && s.server.Done? ==> s.up.received == s.up.sent && s.down.received == s.down.sent;
    assert Over(s) || Enabled(s, NextStep(s), service);
  }

  lemma Extend<V(!new)>(service: Service<V>, steps: seq<Step<V>>, states: seq<State<V>>, step: Step<V>)
      returns (steps': seq<Step<V>>, states': seq<State<V>>)
    requires Run(service, steps, states) && Enabled(states[|steps|], step, service)
    ensures Run(service, steps', states') && states'[|steps'|] == Apply(states[|steps|], step, service)
  {
    steps', states' := steps + [step], states + [Apply(states[|steps|], step, service)];
  }

  /** Without readers the first request already ends in deadlock: the client waits for a reply, and the server
      for a request. */
  lemma SilenceDeadlocks<V(!new)>(service: Service<V>, values: seq<V>)
      returns (steps: seq<Step<V>>, states: seq<State<V>>)
    requires service.readers == [] && |values| >= |service.writers|
    ensures Run(service, steps, states) && Deadlocked(states[|steps|], service)
  {
    steps, states := Extend(service, [], [Init()], ClientWrite(values));
    assert states[|steps|].up.Queued() == [Request(false, values)];
    steps, states := Extend(service, steps, states, ServerRead);
    steps, states := Extend(service, steps, states, ServerServe);
  }

  /** The composition is free of deadlock exactly if there are readers. */
  lemma DeadlockFreeExactly<V(!new)>(service: Service<V>, v: V)
    ensures service.readers != [] <==>
      forall steps, states :: Run(service, steps, states) ==> !Deadlocked(states[|steps|], service)
  {
    if service.readers != [] {
      forall steps, states | Run(service, steps, states)
        ensures !Deadlocked(states[|steps|], service)
      {
        NeverDeadlocked(service, steps, states);
      }
    } else {
      var steps, states := SilenceDeadlocks(service, seq(|service.writers|, _ => v));
      assert Run(service, steps, states) && Deadlocked(states[|steps|], service);
    }
  }
}
