/** A socket connection seen from both ends at once: a client that writes its connection id and then
    length-prefixed messages, a TCP stream that hands bytes on in pieces of any size, and a server that
    reads the id and then prefix and payload in turn. */
module SocketStream {
  import opened Bytes
  import opened ConnectionId
  import opened MessageFifo

  /** The read the server is in: its target is fixed once the previous read has finished. */
  datatype Phase = ReadingId | ReadingPrefix | ReadingPayload(size: int)

  datatype State = State(
    unsent: seq<Byte>,  // accepted by WriteToSocket, not yet by send
    wire: seq<Byte>,    // accepted by send, not yet returned by recv
    phase: Phase,
    got: seq<Byte>,     // the part of the current ReadFromSocket that recv has returned
    wireId: seq<Byte>,  // `_id`, once read
    messages: Fifo<Message>
  )

  datatype Step =
    | WriteMessage(message: Message)  // WriteLengthPrefixed is called
    | Send(count: nat)                // send accepts this many bytes
    | WouldBlock                      // recv reports EAGAIN, or send accepts nothing
    | Receive(count: nat)             // recv returns this many bytes
    | Finish                          // the current ReadFromSocket has all its bytes

  ghost predicate Framable(ms: seq<Message>) {
    forall i :: 0 <= i < |ms| ==> IsInt64(|ms[i]|)
  }

  ghost function Frames(ms: seq<Message>): seq<Byte>
    requires Framable(ms)
  {
    if ms == [] then [] else Frame(ms[0]) + Frames(ms[1..])
  }

  /** The bytes the current read asks for. */
  function Target(s: State): int {
    match s.phase
    case ReadingId => ID_LENGTH
    case ReadingPrefix => PREFIX_SIZE
    case ReadingPayload(size) => size
  }

  function Init(id: seq<Byte>): State {
    State(id, [], ReadingId, [], [], Empty())
  }

  predicate Enabled(s: State, step: Step) {
    match step
    case WriteMessage(m) => s.unsent == [] && IsInt64(|m|)
    case Send(k) => 0 < k <= |s.unsent|
    case WouldBlock => true
    case Receive(k) => 0 < k <= |s.wire| && |s.got| + k <= Target(s)
    case Finish => |s.got| == Target(s)
  }

  function Apply(s: State, step: Step): State
    requires Enabled(s, step)
  {
    match step
    case WriteMessage(m) => s.(unsent := s.unsent + Frame(m), messages := s.messages.Push(m))
    case Send(k) => s.(unsent := s.unsent[k..], wire := s.wire + s.unsent[..k])
    case WouldBlock => s
    case Receive(k) => s.(wire := s.wire[k..], got := s.got + s.wire[..k])
    case Finish =>
      match s.phase
      case ReadingId => s.(phase := ReadingPrefix, got := [], wireId := s.got)
      case ReadingPrefix => s.(phase := ReadingPayload(Decode64(s.got)), got := [])
      case ReadingPayload(_) => s.(phase := ReadingPrefix, got := [], messages := s.messages.Deliver(s.got))
  }

  /** What the server still has to read from the start of its current read. */
  ghost function Remaining(phase: Phase, queue: seq<Message>, id: seq<Byte>): seq<Byte>
    requires Framable(queue)
    requires phase.ReadingPayload? ==> queue != []
  {
    match phase
    case ReadingId => id + Frames(queue)
    case ReadingPrefix => Frames(queue)
    case ReadingPayload(_) => queue[0] + Frames(queue[1..])
  }

  /** The bytes the server has not yet made use of are exactly the encoding of what remains. */
  ghost predicate Inv(s: State, id: seq<Byte>) {
    && |id| == ID_LENGTH
    && s.messages.Valid()
    && Framable(s.messages.sent)
    && |s.got| <= Target(s)
    && (s.phase.ReadingId? ==> s.messages.received == [])
    && (!s.phase.ReadingId? ==> s.wireId == id)
    && (s.phase.ReadingPayload? ==> s.messages.Queued() != [] && s.phase.size == |s.messages.Queued()[0]|)
    && s.got + s.wire + s.unsent == Remaining(s.phase, s.messages.Queued(), id)
  }

  lemma {:induction false} FramesSnoc(ms: seq<Message>, m: Message)
    requires Framable(ms) && IsInt64(|m|)
    ensures Framable(ms + [m])
    ensures Frames(ms + [m]) == Frames(ms) + Frame(m)
  {
    if ms == [] {
      assert Frames([m]) == Frame(m) + Frames([]);
    } else {
      assert (ms + [m])[1..] == ms[1..] + [m];
      FramesSnoc(ms[1..], m);
    }
  }

  lemma RemainingSnoc(phase: Phase, queue: seq<Message>, m: Message, id: seq<Byte>)
    requires Framable(queue) && IsInt64(|m|)
    requires phase.ReadingPayload? ==> queue != []
    ensures Framable(queue + [m])
    ensures Remaining(phase, queue + [m], id) == Remaining(phase, queue, id) + Frame(m)
  {
    FramesSnoc(queue, m);
    match phase
    case ReadingId =>
      assert id + (Frames(queue) + Frame(m)) == id + Frames(queue) + Frame(m);
    case ReadingPrefix =>
    case ReadingPayload(_) =>
      assert (queue + [m])[1..] == queue[1..] + [m];
      FramesSnoc(queue[1..], m);
      assert queue[0] + (Frames(queue[1..]) + Frame(m)) == queue[0] + Frames(queue[1..]) + Frame(m);
  }

  lemma WriteKeepsInv(s: State, m: Message, id: seq<Byte>)
    requires Inv(s, id) && Enabled(s, WriteMessage(m))
    ensures Inv(Apply(s, WriteMessage(m)), id)
  {
    var s' := Apply(s, WriteMessage(m));
    assert s'.messages.Queued() == s.messages.Queued() + [m];
    RemainingSnoc(s.phase, s.messages.Queued(), m, id);
    assert s.got + s.wire + (s.unsent + Frame(m)) == s.got + s.wire + s.unsent + Frame(m);
  }

  lemma Regroup(got: seq<Byte>, wire: seq<Byte>, unsent: seq<Byte>, k: nat)
    ensures k <= |unsent| ==> got + (wire + unsent[..k]) + unsent[k..] == got + wire + unsent
    ensures k <= |wire| ==> (got + wire[..k]) + wire[k..] + unsent == got + wire + unsent
  {
  }

  lemma TransferKeepsInv(s: State, step: Step, id: seq<Byte>)
    requires Inv(s, id) && Enabled(s, step) && (step.Send? || step.Receive? || step.WouldBlock?)
    ensures Inv(Apply(s, step), id)
  {
    if !step.WouldBlock? {
      Regroup(s.got, s.wire, s.unsent, step.count);
    }
  }

  /** A finished prefix read has the length of the oldest message not yet received. */
  lemma PrefixIsLength(got: seq<Byte>, rest: seq<Byte>, queue: seq<Message>)
    requires Framable(queue) && |got| == PREFIX_SIZE && got + rest == Frames(queue)
    ensures queue != [] && Decode64(got) == |queue[0]| && rest == queue[0] + Frames(queue[1..])
  {
    var prefix := Encode64(|queue[0]|);
    var tail := queue[0] + Frames(queue[1..]);
    assert prefix + queue[0] + Frames(queue[1..]) == prefix + tail;
    TakeDrop(got, rest, prefix, tail);
    PrefixRoundTrip(|queue[0]|);
  }

  /** A finished payload read has returned the oldest message not yet received. */
  lemma FinishKeepsInv(s: State, id: seq<Byte>)
    requires Inv(s, id) && Enabled(s, Finish)
    ensures Inv(Apply(s, Finish), id)
    ensures s.phase.ReadingPayload? ==> s.got == s.messages.Queued()[0]
  {
    var s' := Apply(s, Finish);
    var queue := s.messages.Queued();
    var rest := s.wire + s.unsent;
    assert s.got + s.wire + s.unsent == s.got + rest;
    assert s'.got + s'.wire + s'.unsent == rest;
    match s.phase
    case ReadingId =>
      TakeDrop(s.got, rest, id, Frames(queue));
    case ReadingPrefix =>
      PrefixIsLength(s.got, rest, queue);
    case ReadingPayload(_) =>
      TakeDrop(s.got, rest, queue[0], Frames(queue[1..]));
      assert s'.messages.Queued() == queue[1..];
  }

  lemma TakeDrop(a: seq<Byte>, b: seq<Byte>, c: seq<Byte>, d: seq<Byte>)
    requires |a| == |c| && a + b == c + d
    ensures a == c && b == d
  {
    assert a == (a + b)[..|a|] && b == (a + b)[|a|..];
    assert c == (c + d)[..|c|] && d == (c + d)[|c|..];
  }

  /** Every step of the byte stream is a step of the message queue it implements. */
  lemma StepRefinesFifo(s: State, step: Step, id: seq<Byte>)
    requires Inv(s, id) && Enabled(s, step)
    ensures Inv(Apply(s, step), id)
    ensures Next(s.messages, Apply(s, step).messages)
    ensures step.WriteMessage? ==> Apply(s, step).messages == s.messages.Push(step.message)
    ensures step == Finish && s.phase.ReadingPayload? ==>
      Apply(s, step).messages == s.messages.Deliver(s.messages.Queued()[0])
  {
    match step
    case WriteMessage(m) => WriteKeepsInv(s, m, id);
    case Finish => FinishKeepsInv(s, id);
    case _ => TransferKeepsInv(s, step, id);
  }

  ghost predicate Run(id: seq<Byte>, steps: seq<Step>, states: seq<State>) {
    && |states| == |steps| + 1
    && states[0] == Init(id)
    && forall i :: 0 <= i < |steps| ==>
         Enabled(states[i], steps[i]) && states[i + 1] == Apply(states[i], steps[i])
  }

  /** The messages passed to WriteLengthPrefixed along a run. */
  ghost function Written(steps: seq<Step>): seq<Message> {
    if steps == [] then []
    else if steps[|steps| - 1].WriteMessage? then Written(steps[..|steps| - 1]) + [steps[|steps| - 1].message]
    else Written(steps[..|steps| - 1])
  }

  /** In every run, under every fragmentation, the server has read a prefix of the messages written, each
      of them whole, and its `_id` is the client's once it has read anything. */
  lemma {:induction false} RunDeliversInOrder(id: seq<Byte>, steps: seq<Step>, states: seq<State>)
    requires |id| == ID_LENGTH && Run(id, steps, states)
    ensures var s := states[|steps|];
      && Inv(s, id)
      && s.messages.sent == Written(steps)
      && s.messages.received <= Written(steps)
      && (!s.phase.ReadingId? ==> s.wireId == id)
  {
    var n := |steps|;
    if n == 0 {
      assert id + Frames([]) == id;
      assert [] + [] + id == id;
    } else {
      assert Run(id, steps[..n - 1], states[..n]);
      RunDeliversInOrder(id, steps[..n - 1], states[..n]);
      StepRefinesFifo(states[n - 1], steps[n - 1], id);
    }
  }

  /** A step that moves bytes along or finishes a read. */
  predicate Progress(step: Step) {
    step.Send? || step.Receive? || step.Finish?
  }

  ghost function Work(s: State): nat {
    4 * |s.unsent| + 3 * |s.wire| + 2 * |s.got| + if s.phase.ReadingPayload? then 1 else 0
  }

  /** Each such step uses up work, so between two writes there are only finitely many of them. */
  lemma ProgressUsesWork(s: State, step: Step, id: seq<Byte>)
    requires Inv(s, id) && Enabled(s, step) && Progress(step)
    ensures Work(Apply(s, step)) < Work(s)
  {
  }

  /** The stream cannot get stuck: when no such step is left, everything written has been read. */
  lemma StuckOnlyWhenDelivered(s: State, id: seq<Byte>)
    requires Inv(s, id)
    requires forall step :: Progress(step) ==> !Enabled(s, step)
    ensures s.phase == ReadingPrefix && s.wireId == id
    ensures s.messages.received == s.messages.sent
  {
    var queue := s.messages.Queued();
    assert queue != [] ==> |Frames(queue)| >= PREFIX_SIZE;
    assert !Enabled(s, Send(|s.unsent|));
    assert !Enabled(s, Receive(1));
    assert !Enabled(s, Finish);
    assert s.got + s.wire + s.unsent == s.got;
  }

  /** Once a run has nothing left to move, every message written has been read, in order and whole. */
  lemma RunDeliversEverything(id: seq<Byte>, steps: seq<Step>, states: seq<State>)
    requires |id| == ID_LENGTH && Run(id, steps, states)
    requires forall step :: Progress(step) ==> !Enabled(states[|steps|], step)
    ensures states[|steps|].wireId == id
    ensures states[|steps|].messages.received == Written(steps)
  {
    RunDeliversInOrder(id, steps, states);
    StuckOnlyWhenDelivered(states[|steps|], id);
  }

  /** The bytes a client sends for the `k`-th identifier of a server. */
  function IdBytes(k: nat): (b: seq<Byte>)
    ensures Text(b) == NthId(k)
  {
    IdIsAscii(k);
    TextBytes(NthId(k))
  }

  /** With an identifier a server really hands out, `_id` ends up as that identifier. */
  lemma IdentifierArrives(k: nat, steps: seq<Step>, states: seq<State>)
    requires 1 <= k <= INT_MAX && Run(IdBytes(k), steps, states)
    ensures !states[|steps|].phase.ReadingId? ==> Text(states[|steps|].wireId) == NthId(k)
  {
    LengthIs13(k);
    RunDeliversInOrder(IdBytes(k), steps, states);
  }
}
