/** The lockstep client and server over a socket connection, byte by byte: two streams, serialised messages, and
    calls that block until their bytes have been moved. */
module SocketLockstep {
  import opened Bytes
  import opened ConnectionId
  import opened MessageFifo
  import opened MonikerLoop
  import opened Messages
  import opened Options
  import opened SocketStream
  import Lockstep

  /** The two message types and the size of the sessions' buffers. */
  datatype Wire<!V> = Wire(requests: Codec<Request<V>>, replies: Codec<seq<V>>, bufferSize: nat)

  datatype State<V> = State(
    client: Lockstep.Client,
    server: Lockstep.Server<V>,
    up: SocketStream.State,   // from the client, beginning with its id
    down: SocketStream.State  // from the server
  )

  /** WriteSidebandMessage hands the whole message to WriteToSocket; `Up` and `Down` are the bytes moved and the
      reads finished on the two streams. Calls that would block change nothing and are left out. */
  datatype Step<V> =
    | ClientWrite(values: seq<V>)
    | ClientCancel
    | ServerServe
    | Up(step: SocketStream.Step)
    | Down(step: SocketStream.Step)

  /** The system: the endpoints, the wire and the id of the client. */
  datatype System<!V> = System(service: Lockstep.Service<V>, wire: Wire<V>, id: seq<Byte>)

  function Init<V>(system: System<V>): State<V> {
    State.State(Lockstep.Ready, Lockstep.Reading, SocketStream.Init(system.id),
                SocketStream.State.State([], [], ReadingPrefix, [], system.id, Empty()))
  }

  function Serialized<V>(system: System<V>, request: Request<V>): Message {
    system.wire.requests.serialize(request)
  }

  function Reply<V>(system: System<V>, round: nat, values: seq<V>): seq<V> {
    Samples(|system.service.readers|, system.service.world, round, values)
  }

  predicate Fits<V>(system: System<V>, m: Message) {
    |m| <= system.wire.bufferSize && IsInt64(|m|)
  }

  /** What is assumed of messages: parsing inverts serialising, and cancellations and the readers' replies to
      requests that fit do fit the buffer. */
  ghost predicate Sound<V(!new)>(system: System<V>) {
    && |system.id| == ID_LENGTH
    && Inverse(system.wire.requests) && Inverse(system.wire.replies)
    && Fits(system, Serialized(system, Request(true, [])))
    && forall k, values :: Fits(system, Serialized(system, Request(false, values))) ==>
         Fits(system, system.wire.replies.serialize(Reply(system, k, values)))
  }

  /** A side reads only when it is not writing: reading comes after WriteToSocket has returned. */
  ghost predicate Enabled<V>(s: State<V>, step: Step<V>, system: System<V>) {
    match step
    case ClientWrite(values) =>
      var m := Serialized(system, Request(false, values));
      && s.client.Ready? && |values| >= |system.service.writers|
      && Fits(system, m) && SocketStream.Enabled(s.up, WriteMessage(m))
    case ClientCancel =>
      s.client.Ready? && SocketStream.Enabled(s.up, WriteMessage(Serialized(system, Request(true, []))))
    case ServerServe =>
      && s.server.Serving?
      && (system.service.readers != [] ==>
            var reply := Reply(system, |s.down.messages.sent|, s.server.values);
            SocketStream.Enabled(s.down, WriteMessage(system.wire.replies.serialize(reply))))
    case Up(x) =>
      Progress(x) && SocketStream.Enabled(s.up, x) && (x.Send? || (s.server.Reading? && s.down.unsent == []))
    case Down(x) =>
      Progress(x) && SocketStream.Enabled(s.down, x) && (x.Send? || (s.client.Awaiting? && s.up.unsent == []))
  }

  /** What the server does with a message it has read: it goes on to serve it, unless it is a cancellation or
      cannot be parsed. */
  function Taken<V>(message: Option<Request<V>>): Lockstep.Server<V> {
    if EndsLoop(message) then Lockstep.Done else Lockstep.Serving(message.value.values)
  }

  predicate EndsMessage(s: SocketStream.State, x: SocketStream.Step) {
    x.Finish? && s.phase.ReadingPayload?
  }

  ghost function Apply<V>(s: State<V>, step: Step<V>, system: System<V>): State<V>
    requires Enabled(s, step, system)
  {
    match step
    case ClientWrite(values) =>
      var m := Serialized(system, Request(false, values));
      s.(client := Lockstep.Awaiting, up := SocketStream.Apply(s.up, WriteMessage(m)))
    case ClientCancel =>
      var m := Serialized(system, Request(true, []));
      s.(client := Lockstep.Finished, up := SocketStream.Apply(s.up, WriteMessage(m)))
    case ServerServe =>
      if system.service.readers == [] then s.(server := Lockstep.Reading)
      else
        var reply := Reply(system, |s.down.messages.sent|, s.server.values);
        s.(server := if ReplySize(system.service.world, reply) == 0 then Lockstep.Done else Lockstep.Reading,
           down := SocketStream.Apply(s.down, WriteMessage(system.wire.replies.serialize(reply))))
    case Up(x) =>
      s.(up := SocketStream.Apply(s.up, x),
         server := if EndsMessage(s.up, x) then Taken(system.wire.requests.parse(s.up.got)) else s.server)
    case Down(x) =>
      s.(down := SocketStream.Apply(s.down, x),
         client := if EndsMessage(s.down, x) then Lockstep.Ready else s.client)
  }

  ghost predicate Run<V(!new)>(system: System<V>, steps: seq<Step<V>>, states: seq<State<V>>) {
    && |states| == |steps| + 1
    && states[0] == Init(system)
    && forall i :: 0 <= i < |steps| ==>
         Enabled(states[i], steps[i], system) && states[i + 1] == Apply(states[i], steps[i], system)
  }

  /** These bytes are these messages, serialised. */
  ghost predicate Encodes<M>(codec: Codec<M>, ms: seq<M>, bytes: seq<Message>) {
    |bytes| == |ms| && forall i :: 0 <= i < |ms| ==> bytes[i] == codec.serialize(ms[i])
  }

  ghost predicate Carries<M>(codec: Codec<M>, fifo: Fifo<M>, stream: SocketStream.State) {
    && fifo.Valid()
    && Encodes(codec, fifo.sent, stream.messages.sent) && Encodes(codec, fifo.received, stream.messages.received)
  }

  /** Each side is where it is in the lockstep system, and the streams carry what is in its queues. */
  ghost predicate Simulates<V>(s: State<V>, h: Lockstep.State<V>, system: System<V>) {
    && SocketStream.Inv(s.up, system.id) && SocketStream.Inv(s.down, system.id)
    && s.client == h.client && s.server == h.server
    && Carries(system.wire.requests, h.up, s.up) && Carries(system.wire.replies, h.down, s.down)
    && (s.server.Serving? ==> Fits(system, Serialized(system, Request(false, s.server.values))))
    && (forall i :: 0 <= i < |s.up.messages.sent| ==> Fits(system, s.up.messages.sent[i]))
  }

  lemma WriteCarries<M>(codec: Codec<M>, fifo: Fifo<M>, stream: SocketStream.State, m: M, id: seq<Byte>)
    requires SocketStream.Inv(stream, id) && Carries(codec, fifo, stream)
    requires SocketStream.Enabled(stream, WriteMessage(codec.serialize(m)))
    ensures var stream' := SocketStream.Apply(stream, WriteMessage(codec.serialize(m)));
      SocketStream.Inv(stream', id) && Carries(codec, fifo.Push(m), stream')
  {
    SocketStream.StepRefinesFifo(stream, WriteMessage(codec.serialize(m)), id);
  }

  /** Moving bytes changes nothing that the sides can see, and a finished message is the head of the queue. */
  lemma MoveCarries<M(!new)>(codec: Codec<M>, fifo: Fifo<M>, stream: SocketStream.State, x: SocketStream.Step,
                      id: seq<Byte>)
    requires Inverse(codec) && SocketStream.Inv(stream, id) && Carries(codec, fifo, stream)
    requires Progress(x) && SocketStream.Enabled(stream, x)
    ensures SocketStream.Inv(SocketStream.Apply(stream, x), id)
    ensures SocketStream.Apply(stream, x).messages.sent == stream.messages.sent
    ensures !EndsMessage(stream, x) ==> Carries(codec, fifo, SocketStream.Apply(stream, x))
    ensures EndsMessage(stream, x) ==>
      && fifo.Queued() != []
      && stream.got == codec.serialize(fifo.Queued()[0]) == stream.messages.Queued()[0]
      && codec.parse(stream.got) == Some(fifo.Queued()[0])
      && Carries(codec, fifo.Deliver(fifo.Queued()[0]), SocketStream.Apply(stream, x))
  {
    SocketStream.StepRefinesFifo(stream, x, id);
    if EndsMessage(stream, x) {
      SocketStream.FinishKeepsInv(stream, id);
      var i := |fifo.received|;
      assert stream.got == stream.messages.sent[i] == codec.serialize(fifo.sent[i]);
      assert fifo.Queued()[0] == fifo.sent[i];
      assert codec.parse(codec.serialize(fifo.sent[i])) == Some(fifo.sent[i]);
    }
  }

  /** A step of the lockstep system, or none. */
  ghost predicate LockstepOrNone<V(!new)>(h: Lockstep.State<V>, h': Lockstep.State<V>, service: Lockstep.Service<V>) {
    h' == h || exists x :: Lockstep.Enabled(h, x, service) && h' == Lockstep.Apply(h, x, service)
  }

  lemma ClientSimulates<V(!new)>(s: State<V>, step: Step<V>, h: Lockstep.State<V>, system: System<V>)
      returns (h': Lockstep.State<V>)
    requires Sound(system) && Simulates(s, h, system) && Enabled(s, step, system)
    requires step.ClientWrite? || step.ClientCancel?
    ensures Simulates(Apply(s, step, system), h', system) && LockstepOrNone(h, h', system.service)
  {
    var x := if step.ClientWrite? then Lockstep.ClientWrite(step.values) else Lockstep.ClientCancel;
    assert Lockstep.Enabled(h, x, system.service);
    h' := Lockstep.Apply(h, x, system.service);
    var request := if step.ClientWrite? then Request(false, step.values) else Request(true, []);
    WriteCarries(system.wire.requests, h.up, s.up, request, system.id);
  }

  lemma ServeSimulates<V(!new)>(s: State<V>, h: Lockstep.State<V>, system: System<V>) returns (h': Lockstep.State<V>)
    requires Sound(system) && Simulates(s, h, system) && Enabled(s, ServerServe, system)
    ensures Simulates(Apply(s, ServerServe, system), h', system) && LockstepOrNone(h, h', system.service)
  {
    assert Lockstep.Enabled(h, Lockstep.ServerServe, system.service);
    h' := Lockstep.Apply(h, Lockstep.ServerServe, system.service);
    if system.service.readers != [] {
      var reply := Reply(system, |s.down.messages.sent|, s.server.values);
      WriteCarries(system.wire.replies, h.down, s.down, reply, system.id);
    }
  }

  lemma UpSimulates<V(!new)>(s: State<V>, x: SocketStream.Step, h: Lockstep.State<V>, system: System<V>)
      returns (h': Lockstep.State<V>)
    requires Sound(system) && Simulates(s, h, system) && Enabled(s, Up(x), system)
    ensures Simulates(Apply(s, Up(x), system), h', system) && LockstepOrNone(h, h', system.service)
  {
    MoveCarries(system.wire.requests, h.up, s.up, x, system.id);
    h' := h;
    if EndsMessage(s.up, x) {
      assert Lockstep.Enabled(h, Lockstep.ServerRead, system.service);
      h' := Lockstep.Apply(h, Lockstep.ServerRead, system.service);
      var request := h.up.Queued()[0];
      assert Fits(system, s.up.messages.Queued()[0]);
      assert !request.cancel ==> request == Request(false, request.values);
    }
  }

  lemma DownSimulates<V(!new)>(s: State<V>, x: SocketStream.Step, h: Lockstep.State<V>, system: System<V>)
      returns (h': Lockstep.State<V>)
    requires Sound(system) && Simulates(s, h, system) && Enabled(s, Down(x), system)
    ensures Simulates(Apply(s, Down(x), system), h', system) && LockstepOrNone(h, h', system.service)
  {
    MoveCarries(system.wire.replies, h.down, s.down, x, system.id);
    h' := h;
    if EndsMessage(s.down, x) {
      assert Lockstep.Enabled(h, Lockstep.ClientRead, system.service);
      h' := Lockstep.Apply(h, Lockstep.ClientRead, system.service);
    }
  }

  /** Every byte-level step is a step of the lockstep system over its two message queues, or none. */
  lemma StepSimulates<V(!new)>(s: State<V>, step: Step<V>, h: Lockstep.State<V>, system: System<V>)
      returns (h': Lockstep.State<V>)
    requires Sound(system) && Simulates(s, h, system) && Enabled(s, step, system)
    ensures Simulates(Apply(s, step, system), h', system) && LockstepOrNone(h, h', system.service)
  {
    match step
    case ServerServe => h' := ServeSimulates(s, h, system);
    case Up(x) => h' := UpSimulates(s, x, h, system);
    case Down(x) => h' := DownSimulates(s, x, h, system);
    case _ => h' := ClientSimulates(s, step, h, system);
  }

  lemma InitSimulates<V(!new)>(system: System<V>)
    requires Sound(system)
    ensures Simulates(Init(system), Lockstep.Init<V>(), system)
  {
    assert [] + [] + system.id == system.id + Frames([]);
  }

  lemma ExtendHigh<V(!new)>(service: Lockstep.Service<V>, highSteps: seq<Lockstep.Step<V>>,
                     highStates: seq<Lockstep.State<V>>,
                            h': Lockstep.State<V>)
      returns (highSteps': seq<Lockstep.Step<V>>, highStates': seq<Lockstep.State<V>>)
    requires Lockstep.Run(service, highSteps, highStates)
    requires LockstepOrNone(highStates[|highSteps|], h', service)
    ensures Lockstep.Run(service, highSteps', highStates') && highStates'[|highSteps'|] == h'
  {
    highSteps', highStates' := highSteps, highStates;
    var h := highStates[|highSteps|];
    if h' != h {
      var x :| Lockstep.Enabled(h, x, service) && h' == Lockstep.Apply(h, x, service);
      highSteps', highStates' := Lockstep.Extend(service, highSteps, highStates, x);
    }
  }

  lemma SimulateNext<V(!new)>(system: System<V>, s: State<V>, step: Step<V>,
                              highSteps: seq<Lockstep.Step<V>>, highStates: seq<Lockstep.State<V>>)
      returns (highSteps': seq<Lockstep.Step<V>>, highStates': seq<Lockstep.State<V>>)
    requires Sound(system) && Enabled(s, step, system) && Lockstep.Run(system.service, highSteps, highStates)
    requires Simulates(s, highStates[|highSteps|], system)
    ensures Lockstep.Run(system.service, highSteps', highStates')
    ensures Simulates(Apply(s, step, system), highStates'[|highSteps'|], system)
  {
    var h' := StepSimulates(s, step, highStates[|highSteps|], system);
    highSteps', highStates' := ExtendHigh(system.service, highSteps, highStates, h');
  }

  lemma LastStep<V(!new)>(system: System<V>, steps: seq<Step<V>>, states: seq<State<V>>)
    requires Run(system, steps, states) && steps != []
    ensures var n := |steps| - 1;
      && Run(system, steps[..n], states[..n + 1])
      && Enabled(states[n], steps[n], system) && states[n + 1] == Apply(states[n], steps[n], system)
  {
  }

  /** Every byte-level run is a run of the lockstep system. */
  lemma {:induction false} RunSimulates<V(!new)>(system: System<V>, steps: seq<Step<V>>, states: seq<State<V>>)
      returns (highSteps: seq<Lockstep.Step<V>>, highStates: seq<Lockstep.State<V>>)
    requires Sound(system) && Run(system, steps, states)
    ensures Lockstep.Run(system.service, highSteps, highStates)
    ensures Simulates(states[|steps|], highStates[|highSteps|], system)
  {
    if steps == [] {
      InitSimulates(system);
      highSteps, highStates := [], [Lockstep.Init()];
    } else {
      var n := |steps| - 1;
      LastStep(system, steps, states);
      var before := states[..n + 1];
      assert before[n] == states[n];
      highSteps, highStates := RunSimulates(system, steps[..n], before);
      highSteps, highStates := SimulateNext(system, states[n], steps[n], highSteps, highStates);
    }
  }

  /** The cancellation has been written and read, and no message is left on either stream. */
  ghost predicate Over<V>(s: State<V>) {
    && s.client.Finished? && s.server.Done?
    && s.up.messages.received == s.up.messages.sent && s.down.messages.received == s.down.messages.sent
  }

  ghost predicate Stuck<V(!new)>(s: State<V>, system: System<V>) {
    !Over(s) && forall step :: !Enabled(s, step, system)
  }

  /** A stream whose reader may read and on which nothing moves has delivered everything. */
  lemma QuietStream(stream: SocketStream.State, id: seq<Byte>)
    requires SocketStream.Inv(stream, id)
    requires forall x :: Progress(x) ==> !SocketStream.Enabled(stream, x)
    ensures stream.unsent == [] && stream.messages.received == stream.messages.sent
  {
    SocketStream.StuckOnlyWhenDelivered(stream, id);
    assert !SocketStream.Enabled(stream, Send(|stream.unsent|));
  }

  /** When no byte can be moved, all have been sent, and a side that reads has read everything. */
  lemma QuietNetwork<V(!new)>(s: State<V>, system: System<V>)
    requires SocketStream.Inv(s.up, system.id) && SocketStream.Inv(s.down, system.id)
    requires forall x :: !Enabled(s, Up(x), system) && !Enabled(s, Down(x), system)
    ensures s.up.unsent == [] && s.down.unsent == []
    ensures s.server.Reading? ==> s.up.messages.received == s.up.messages.sent
    ensures s.client.Awaiting? ==> s.down.messages.received == s.down.messages.sent
  {
    assert !Enabled(s, Up(Send(|s.up.unsent|)), system);
    assert !Enabled(s, Down(Send(|s.down.unsent|)), system);
    if s.server.Reading? {
      forall x | Progress(x)
        ensures !SocketStream.Enabled(s.up, x)
      {
        assert !Enabled(s, Up(x), system);
      }
      QuietStream(s.up, system.id);
    }
    if s.client.Awaiting? {
      forall x | Progress(x)
        ensures !SocketStream.Enabled(s.down, x)
      {
        assert !Enabled(s, Down(x), system);
      }
      QuietStream(s.down, system.id);
    }
  }

  /** With readers, no reachable byte-level state is stuck before the cancellation has been read. */
  lemma NeverStuck<V(!new)>(system: System<V>, steps: seq<Step<V>>, states: seq<State<V>>)
    requires Sound(system) && system.service.readers != [] && Run(system, steps, states)
    ensures !Stuck(states[|steps|], system)
  {
    var highSteps, highStates := RunSimulates(system, steps, states);
    Lockstep.RunKeepsInv(system.service, highSteps, highStates);
    var s, h := states[|steps|], highStates[|highSteps|];
    if forall step :: !Enabled(s, step, system) {
      assert forall x :: !Enabled(s, Up(x), system) && !Enabled(s, Down(x), system);
      QuietNetwork(s, system);
      assert !Enabled(s, ClientCancel, system) && !Enabled(s, ServerServe, system);
      SilentIsOver(s, h, system);
    }
  }

  lemma SilentIsOver<V(!new)>(s: State<V>, h: Lockstep.State<V>, system: System<V>)
    requires Sound(system) && system.service.readers != []
    requires Simulates(s, h, system) && Lockstep.Inv(h, system.service)
    requires s.up.unsent == [] && s.down.unsent == []
    requires s.server.Reading? ==> s.up.messages.received == s.up.messages.sent
    requires s.client.Awaiting? ==> s.down.messages.received == s.down.messages.sent
    requires !Enabled(s, ClientCancel, system) && !Enabled(s, ServerServe, system)
    ensures Over(s)
  {
    assert !s.client.Ready? && !s.server.Serving?;
    assert s.client.Finished? && s.server.Done?;
    assert s.up.messages.received == s.up.messages.sent[..|s.up.messages.received|];
    assert s.down.messages.received == s.down.messages.sent[..|s.down.messages.received|];
  }

  /** A message on the way up is these values, serialised, and one on the way down the readers' reply to them. */
  ghost predicate Answers<V>(system: System<V>, k: nat, request: Message, reply: Message,
                             values: seq<V>, results: seq<V>) {
    && request == system.wire.requests.serialize(Request(false, values))
    && reply == system.wire.replies.serialize(results)
    && |results| == |system.service.readers|
    && forall i :: 0 <= i < |results| ==> results[i] == system.service.world.sample(k, values, i)
  }

  ghost predicate Answered<V(!new)>(system: System<V>, s: State<V>, k: nat) {
    && k < |s.up.messages.sent| && k < |s.down.messages.received|
    && exists values, results ::
         Answers(system, k, s.up.messages.sent[k], s.down.messages.received[k], values, results)
  }

  lemma AnswersCarry<V(!new)>(s: State<V>, h: Lockstep.State<V>, system: System<V>, k: nat)
    requires Simulates(s, h, system) && k < |h.down.received| && k < |h.up.sent| && !h.up.sent[k].cancel
    requires |h.down.received[k]| == |system.service.readers|
    requires forall i :: 0 <= i < |system.service.readers| ==>
      h.down.received[k][i] == system.service.world.sample(k, h.up.sent[k].values, i)
    ensures Answered(system, s, k)
  {
    assert h.up.sent[k] == Request(false, h.up.sent[k].values);
    assert Answers(system, k, s.up.messages.sent[k], s.down.messages.received[k],
                   h.up.sent[k].values, h.down.received[k]);
  }

  /** At every moment at most one message has been written and not yet read, and the `k`-th message the client has
      read is the serialised reply of the readers to its `k`-th request. */
  lemma RepliesAnswer<V(!new)>(system: System<V>, steps: seq<Step<V>>, states: seq<State<V>>)
    requires Sound(system) && system.service.readers != [] && Run(system, steps, states)
    ensures var s := states[|steps|];
      && |s.up.messages.received| + |s.down.messages.received| <= |s.up.messages.sent| + |s.down.messages.sent|
         <= |s.up.messages.received| + |s.down.messages.received| + 1
      && 0 <= |s.up.messages.sent| - |s.down.messages.received| <= 1
      && forall k :: 0 <= k < |s.down.messages.received| ==> Answered(system, s, k)
  {
    var highSteps, highStates := RunSimulates(system, steps, states);
    Lockstep.OneMessageInFlight(system.service, highSteps, highStates);
    var s, h := states[|steps|], highStates[|highSteps|];
    forall k | 0 <= k < |s.down.messages.received|
      ensures Answered(system, s, k)
    {
      AnswersCarry(s, h, system, k);
    }
  }

  /** A step other than the start of a call of WriteSidebandMessage by the client. */
  predicate Follows<V>(step: Step<V>) {
    !step.ClientWrite? && !step.ClientCancel?
  }

  /** Requests written and not yet dealt with. */
  ghost function Outstanding<V>(s: State<V>): nat
    requires s.up.messages.Valid()
  {
    |s.up.messages.sent| - |s.up.messages.received| + Lockstep.Unserved(s.server)
  }

  /** Whatever else happens uses up work: a request is dealt with, or the way up, or the way down, has less to do. */
  lemma StepsUseWork<V(!new)>(s: State<V>, step: Step<V>, h: Lockstep.State<V>, system: System<V>)
    requires Sound(system) && Simulates(s, h, system) && Enabled(s, step, system) && Follows(step)
    ensures var s' := Apply(s, step, system);
      && s'.up.messages.Valid()
      && (|| Outstanding(s') < Outstanding(s)
          || (Outstanding(s') == Outstanding(s) && Work(s'.up) < Work(s.up))
          || (Outstanding(s') == Outstanding(s) && Work(s'.up) == Work(s.up) && Work(s'.down) < Work(s.down)))
  {
    match step
    case ServerServe => ReplyHasBytes(system.service.world, Reply(system, |s.down.messages.sent|, s.server.values));
    case Up(x) =>
      MoveCarries(system.wire.requests, h.up, s.up, x, system.id);
      ProgressUsesWork(s.up, x, system.id);
    case Down(x) => ProgressUsesWork(s.down, x, system.id);
  }

  /** Without readers nothing comes back, so a client that waits goes on waiting. */
  lemma SilenceLasts<V(!new)>(s: State<V>, step: Step<V>, h: Lockstep.State<V>, system: System<V>)
    requires Sound(system) && Simulates(s, h, system) && Lockstep.Serves(h, system.service)
    requires system.service.readers == [] && Enabled(s, step, system) && Follows(step)
    ensures Apply(s, step, system).client == s.client
  {
    if step.Down? {
      MoveCarries(system.wire.replies, h.down, s.down, step.step, system.id);
    }
  }

  lemma Extend<V(!new)>(system: System<V>, steps: seq<Step<V>>, states: seq<State<V>>, step: Step<V>)
      returns (steps': seq<Step<V>>, states': seq<State<V>>)
    requires Run(system, steps, states) && Enabled(states[|steps|], step, system)
    ensures Run(system, steps', states') && states'[|steps'|] == Apply(states[|steps|], step, system)
  {
    steps', states' := steps + [step], states + [Apply(states[|steps|], step, system)];
  }

  /** Left to itself, every run comes to rest after finitely many steps, whichever they are. */
  lemma {:induction false} ComesToRest<V(!new)>(system: System<V>, steps: seq<Step<V>>, states: seq<State<V>>,
                                         s: State<V>)
      returns (steps': seq<Step<V>>, states': seq<State<V>>)
    requires Sound(system) && Run(system, steps, states) && s == states[|steps|] && s.up.messages.Valid()
    ensures Run(system, steps', states')
    ensures forall step :: Enabled(states'[|steps'|], step, system) ==> !Follows(step)
    ensures system.service.readers == [] ==> states'[|steps'|].client == s.client
    decreases Outstanding(s), Work(s.up), Work(s.down)
  {
    steps', states' := steps, states;
    if step :| Enabled(s, step, system) && Follows(step) {
      var highSteps, highStates := RunSimulates(system, steps, states);
      Lockstep.RunKeepsServes(system.service, highSteps, highStates);
      var h := highStates[|highSteps|];
      StepsUseWork(s, step, h, system);
      if system.service.readers == [] {
        SilenceLasts(s, step, h, system);
      }
      steps', states' := Extend(system, steps, states, step);
      steps', states' := ComesToRest(system, steps', states', Apply(s, step, system));
    }
  }

  /** The system over sockets is free of deadlock exactly if there are readers. */
  lemma DeadlockFreeExactly<V(!new)>(system: System<V>, v: V)
    requires Sound(system)
    requires Fits(system, Serialized(system, Request(false, seq(|system.service.writers|, _ => v))))
    ensures system.service.readers != [] <==>
      forall steps, states :: Run(system, steps, states) ==> !Stuck(states[|steps|], system)
  {
    if system.service.readers != [] {
      forall steps, states | Run(system, steps, states)
        ensures !Stuck(states[|steps|], system)
      {
        NeverStuck(system, steps, states);
      }
    } else {
      var steps, states := Extend(system, [], [Init(system)], Up(Send(ID_LENGTH)));
      assert states[|steps|].up.unsent == [];
      steps, states := Extend(system, steps, states, ClientWrite(seq(|system.service.writers|, _ => v)));
      var highSteps, highStates := RunSimulates(system, steps, states);
      steps, states := ComesToRest(system, steps, states, states[|steps|]);
      assert states[|steps|].client.Awaiting?;
      assert Run(system, steps, states) && Stuck(states[|steps|], system);
    }
  }
}
