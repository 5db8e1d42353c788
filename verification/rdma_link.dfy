/** An RDMA connection seen from both ends: a writer using BeginDirectWrite/FinishDirectWrite, the
    network, and a reader using BeginDirectReadLengthPrefixed/FinishDirectRead, each over two regions. */
module RdmaLink {
  import opened Bytes
  import opened MessageFifo
  import opened RdmaPool
  import opened Options

  datatype Writer = Idle | Acquired(region: nat) | Serialized(region: nat, message: Message)
  datatype Reader = Waiting | Holding(region: nat) | Parsed(region: nat)

  datatype State = State(
    sender: Pool,
    receiver: Pool,
    writer: Writer,
    reader: Reader,
    messages: Fifo<Message>
  )

  datatype Step =
    | BeginDirectWrite(region: nat)
    | Serialize(message: Message)
    | FinishDirectWrite
    | Transmit(region: nat)  // into this posted region
    | BeginDirectRead
    | Parse
    | FinishDirectRead

  function Init(size: nat): State {
    State(Configured(size), Configured(size), Idle, Waiting, Empty())
  }

  /** The message a reader finds in a region: length at offset 0, payload at offset 8. */
  function Contained(memory: seq<Byte>): Message
    requires |memory| >= PREFIX_SIZE && 0 <= Decode64(memory[..PREFIX_SIZE]) <= |memory| - PREFIX_SIZE
  {
    memory[PREFIX_SIZE..PREFIX_SIZE + Decode64(memory[..PREFIX_SIZE])]
  }

  ghost predicate Enabled(s: State, step: Step) {
    match step
    case BeginDirectWrite(r) => s.writer.Idle? && r in s.sender.idle
    case Serialize(m) =>
      s.writer.Acquired? && s.writer.region < |s.sender.memory|
      && IsInt64(|m|) && PREFIX_SIZE + |m| <= |s.sender.memory[s.writer.region]|
    case FinishDirectWrite =>
      s.writer.Serialized? && s.writer.region < |s.sender.memory| && IsInt64(|s.writer.message|)
      && PREFIX_SIZE + |s.writer.message| <= |s.sender.memory[s.writer.region]|
    case Transmit(r) =>
      s.sender.pending != [] && r in s.receiver.idle && r < |s.receiver.memory|
      && var slot := s.sender.pending[0];
         slot.region < |s.sender.memory| && slot.used <= |s.sender.memory[slot.region]|
         && slot.used <= |s.receiver.memory[r]|
    case BeginDirectRead => s.reader.Waiting? && s.receiver.pending != []
    case Parse =>
      s.reader.Holding? && s.reader.region < |s.receiver.memory|
      && var memory := s.receiver.memory[s.reader.region];
         |memory| >= PREFIX_SIZE && 0 <= Decode64(memory[..PREFIX_SIZE]) <= |memory| - PREFIX_SIZE
    case FinishDirectRead => s.reader.Parsed?
  }

  ghost function Apply(s: State, step: Step): State
    requires Enabled(s, step)
  {
    match step
    case BeginDirectWrite(r) => s.(sender := s.sender.Acquire(r), writer := Acquired(r))
    case Serialize(m) =>
      s.(sender := s.sender.Poke(s.writer.region, PREFIX_SIZE, m), writer := Serialized(s.writer.region, m))
    case FinishDirectWrite =>
      var r, m := s.writer.region, s.writer.message;
      s.(sender := s.sender.Poke(r, 0, Encode64(|m|)).Queue(r, PREFIX_SIZE + |m|),
         writer := Idle, messages := s.messages.Push(m))
    case Transmit(r) =>
      s.(sender := s.sender.Transmitted(), receiver := s.receiver.Fill(r, s.sender.Data(s.sender.pending[0])))
    case BeginDirectRead =>
      s.(receiver := s.receiver.AcquireReceived(), reader := Holding(s.receiver.pending[0].region))
    case Parse =>
      s.(reader := Parsed(s.reader.region),
         messages := s.messages.Deliver(Contained(s.receiver.memory[s.reader.region])))
    case FinishDirectRead => s.(receiver := s.receiver.Release(Some(s.reader.region)), reader := Waiting)
  }

  /** Each of these data is the frame of the message at the same place. */
  ghost predicate Frames(data: seq<seq<Byte>>, ms: seq<Message>) {
    |data| == |ms| && forall i :: 0 <= i < |ms| ==> IsInt64(|ms[i]|) && data[i] == Frame(ms[i])
  }

  /** Both pools conserve their regions, and an end owns the one region it is working on, or none. */
  ghost predicate Pools(s: State, size: nat) {
    && s.sender.Valid(size) && s.receiver.Valid(size)
    && s.sender.taken == (if s.writer.Idle? then {} else {s.writer.region})
    && s.receiver.taken == (if s.reader.Waiting? then {} else {s.reader.region})
  }

  /** The data in filled regions and behind it the data in queued regions. */
  ghost function Behind(s: State, size: nat): seq<seq<Byte>>
    requires Pools(s, size)
  {
    s.receiver.PendingData(size) + s.sender.PendingData(size)
  }

  ghost predicate Held(memory: seq<Byte>, m: Message) {
    IsInt64(|m|) && Frame(m) <= memory
  }

  /** A held region that is not parsed yet has the oldest message, the data behind it have the others. */
  ghost predicate Inv(s: State, size: nat) {
    && Pools(s, size)
    && s.messages.Valid()
    && (s.writer.Serialized? ==>
          var m := s.writer.message;
          IsInt64(|m|) && PREFIX_SIZE + |m| <= size && s.writer.region in ALL_REGIONS
          && s.sender.memory[s.writer.region][PREFIX_SIZE..PREFIX_SIZE + |m|] == m)
    && var queue := s.messages.Queued();
       if s.reader.Holding? then
         && queue != [] && s.reader.region in ALL_REGIONS
         && Held(s.receiver.memory[s.reader.region], queue[0])
         && Frames(Behind(s, size), queue[1..])
       else Frames(Behind(s, size), queue)
  }

  lemma WriterKeepsInv(s: State, step: Step, size: nat)
    requires Inv(s, size) && Enabled(s, step) && (step.BeginDirectWrite? || step.Serialize?)
    ensures Inv(Apply(s, step), size)
  {
    var s' := Apply(s, step);
    if step.BeginDirectWrite? {
      AcquireConserves(s.sender, step.region, size);
    } else {
      PokeConserves(s.sender, s.writer.region, PREFIX_SIZE, step.message, size);
    }
    SamePending(s.sender, s'.sender, size);
  }

  lemma FinishWriteAddsData(p: Pool, region: nat, m: Message, size: nat)
    requires p.Valid(size) && region in p.taken && region in ALL_REGIONS
    requires IsInt64(|m|) && PREFIX_SIZE + |m| <= size
    requires p.memory[region][PREFIX_SIZE..PREFIX_SIZE + |m|] == m
    ensures var q := p.Poke(region, 0, Encode64(|m|)).Queue(region, PREFIX_SIZE + |m|);
      q.Valid(size) && q.PendingData(size) == p.PendingData(size) + [Frame(m)]
  {
    var stored := p.Poke(region, 0, Encode64(|m|));
    PokeConserves(p, region, 0, Encode64(|m|), size);
    SamePending(p, stored, size);
    QueueConserves(stored, region, PREFIX_SIZE + |m|, size);
    StoreThenPrefix(p.memory[region], m);
  }

  lemma FramesPushed(data: seq<seq<Byte>>, ms: seq<Message>, m: Message)
    requires Frames(data, ms) && IsInt64(|m|)
    ensures Frames(data + [Frame(m)], ms + [m])
  {
  }

  lemma FinishWriteKeepsPools(s: State, size: nat)
    requires Inv(s, size) && Enabled(s, FinishDirectWrite)
    ensures Pools(Apply(s, FinishDirectWrite), size)
    ensures Behind(Apply(s, FinishDirectWrite), size) == Behind(s, size) + [Frame(s.writer.message)]
  {
    FinishWriteAddsData(s.sender, s.writer.region, s.writer.message, size);
    var received, sent := s.receiver.PendingData(size), s.sender.PendingData(size);
    var frame := Frame(s.writer.message);
    assert received + (sent + [frame]) == received + sent + [frame];
  }

  lemma FinishWriteKeepsInv(s: State, size: nat)
    requires Inv(s, size) && Enabled(s, FinishDirectWrite)
    ensures Inv(Apply(s, FinishDirectWrite), size)
  {
    FinishWriteKeepsPools(s, size);
    var m, queue := s.writer.message, s.messages.Queued();
    assert s.messages.Push(m).Queued() == queue + [m];
    if s.reader.Holding? {
      FramesPushed(Behind(s, size), queue[1..], m);
      assert (queue + [m])[1..] == queue[1..] + [m];
    } else {
      FramesPushed(Behind(s, size), queue, m);
    }
  }

  lemma TransmitMovesData(sender: Pool, receiver: Pool, region: nat, size: nat)
    requires sender.Valid(size) && receiver.Valid(size) && sender.pending != [] && region in receiver.idle
    ensures sender.pending[0].region in ALL_REGIONS && sender.pending[0].used <= size
    ensures var data := sender.Data(sender.pending[0]);
      && receiver.Fill(region, data).Valid(size) && sender.Transmitted().Valid(size)
      && receiver.Fill(region, data).PendingData(size) + sender.Transmitted().PendingData(size)
         == receiver.PendingData(size) + sender.PendingData(size)
  {
    sender.PendingInRange(size);
    TransmittedConserves(sender, size);
    FillConserves(receiver, region, sender.PendingData(size)[0], size);
    HeadMoves(receiver.PendingData(size), sender.PendingData(size));
  }

  lemma TransmitKeepsInv(s: State, region: nat, size: nat)
    requires Inv(s, size) && Enabled(s, Transmit(region))
    ensures Inv(Apply(s, Transmit(region)), size)
  {
    TransmitMovesData(s.sender, s.receiver, region, size);
    var s' := Apply(s, Transmit(region));
    assert Behind(s', size) == Behind(s, size);
    assert s.reader.Holding? ==> s'.receiver.memory[s.reader.region] == s.receiver.memory[s.reader.region];
  }

  lemma HeadFirst(a: seq<seq<Byte>>, b: seq<seq<Byte>>)
    requires a != []
    ensures [a[0]] + (a[1..] + b) == a + b
  {
  }

  lemma HeadMoves(a: seq<seq<Byte>>, b: seq<seq<Byte>>)
    requires b != []
    ensures (a + [b[0]]) + b[1..] == a + b
  {
  }

  lemma BeginReadTakesHead(sender: Pool, receiver: Pool, size: nat)
    requires sender.Valid(size) && receiver.Valid(size) && receiver.pending != []
    ensures receiver.pending[0].region in ALL_REGIONS && receiver.pending[0].used <= size
    ensures receiver.AcquireReceived().Valid(size)
    ensures receiver.PendingData(size) + sender.PendingData(size)
         == [receiver.Data(receiver.pending[0])] +
            (receiver.AcquireReceived().PendingData(size) + sender.PendingData(size))
  {
    receiver.PendingInRange(size);
    AcquireReceivedConserves(receiver, size);
    HeadFirst(receiver.PendingData(size), sender.PendingData(size));
  }

  lemma FinishReadKeepsData(s: State, size: nat)
    requires Pools(s, size) && Enabled(s, FinishDirectRead)
    ensures Pools(Apply(s, FinishDirectRead), size)
    ensures Behind(Apply(s, FinishDirectRead), size) == Behind(s, size)
  {
    ReleaseConserves(s.receiver, Some(s.reader.region), size);
    SamePending(s.receiver, s.receiver.Release(Some(s.reader.region)), size);
  }

  lemma FramesTaken(data: seq<seq<Byte>>, ms: seq<Message>, head: seq<Byte>, rest: seq<seq<Byte>>)
    requires Frames(data, ms) && data == [head] + rest
    ensures ms != [] && IsInt64(|ms[0]|) && head == Frame(ms[0]) && Frames(rest, ms[1..])
  {
    assert data[0] == head && data[1..] == rest;
  }

  lemma BeginReadKeepsInv(s: State, size: nat)
    requires Inv(s, size) && Enabled(s, BeginDirectRead)
    ensures Inv(Apply(s, BeginDirectRead), size)
  {
    BeginReadTakesHead(s.sender, s.receiver, size);
    var s' := Apply(s, BeginDirectRead);
    assert Pools(s', size);
    var slot := s.receiver.pending[0];
    FramesTaken(Behind(s, size), s.messages.Queued(), s.receiver.Data(slot), Behind(s', size));
    assert s.receiver.Data(slot) <= s.receiver.memory[slot.region];
  }

  lemma FinishReadKeepsInv(s: State, size: nat)
    requires Inv(s, size) && Enabled(s, FinishDirectRead)
    ensures Inv(Apply(s, FinishDirectRead), size)
  {
    FinishReadKeepsData(s, size);
  }

  /** What the reader parses is the oldest message not yet received, whole. */
  lemma ParseDeliversHead(s: State, size: nat)
    requires Inv(s, size) && s.reader.Holding?
    ensures Enabled(s, Parse)
    ensures Inv(Apply(s, Parse), size)
    ensures Contained(s.receiver.memory[s.reader.region]) == s.messages.Queued()[0]
  {
    var queue := s.messages.Queued();
    FrameReadsBack(s.receiver.memory[s.reader.region], queue[0]);
    assert Apply(s, Parse).messages.Queued() == queue[1..];
  }

  /** Every step keeps both pools conserved and is a step of the message queue. */
  lemma StepRefinesFifo(s: State, step: Step, size: nat)
    requires Inv(s, size) && Enabled(s, step)
    ensures Inv(Apply(s, step), size)
    ensures Next(s.messages, Apply(s, step).messages)
    ensures step.FinishDirectWrite? ==>
      Apply(s, step).messages == s.messages.Push(s.writer.message)
    ensures step.Parse? ==>
      s.messages.Queued() != [] && Apply(s, step).messages == s.messages.Deliver(s.messages.Queued()[0])
  {
    match step
    case FinishDirectWrite => FinishWriteKeepsInv(s, size);
    case Transmit(r) => TransmitKeepsInv(s, r, size);
    case Parse => ParseDeliversHead(s, size);
    case BeginDirectRead => BeginReadKeepsInv(s, size);
    case FinishDirectRead => FinishReadKeepsInv(s, size);
    case BeginDirectWrite(_) => WriterKeepsInv(s, step, size);
    case Serialize(_) => WriterKeepsInv(s, step, size);
  }

  ghost predicate Run(size: nat, steps: seq<Step>, states: seq<State>) {
    && |states| == |steps| + 1
    && states[0] == Init(size)
    && forall i :: 0 <= i < |steps| ==>
         Enabled(states[i], steps[i]) && states[i + 1] == Apply(states[i], steps[i])
  }

  /** The messages whose write was finished, from the arguments of the calls alone. */
  ghost function Written(steps: seq<Step>, filled: Message): seq<Message> {
    if steps == [] then []
    else match steps[0]
      case Serialize(m) => Written(steps[1..], m)
      case FinishDirectWrite => [filled] + Written(steps[1..], filled)
      case _ => Written(steps[1..], filled)
  }

  /** From a state on, the messages sent grow by exactly the messages serialized and finished. */
  lemma {:induction false} SentGrows(steps: seq<Step>, states: seq<State>, filled: Message)
    requires |states| == |steps| + 1
    requires forall i :: 0 <= i < |steps| ==>
      Enabled(states[i], steps[i]) && states[i + 1] == Apply(states[i], steps[i])
    requires states[0].writer.Serialized? ==> states[0].writer.message == filled
    ensures states[|steps|].messages.sent == states[0].messages.sent + Written(steps, filled)
  {
    if steps != [] {
      var filled' := if steps[0].Serialize? then steps[0].message else filled;
      SentGrows(steps[1..], states[1..], filled');
    }
  }

  /** In every run both pools keep each region in exactly one place, and the reader has parsed a prefix
      of the messages written. */
  lemma {:induction false} RunDeliversInOrder(size: nat, steps: seq<Step>, states: seq<State>)
    requires Run(size, steps, states)
    ensures Inv(states[|steps|], size)
    ensures states[|steps|].messages.sent == Written(steps, [])
    ensures states[|steps|].messages.received <= Written(steps, [])
  {
    RunKeepsInv(size, steps, states);
    SentGrows(steps, states, []);
  }

  lemma InitHolds(size: nat)
    ensures Inv(Init(size), size)
  {
  }

  lemma {:induction false} RunKeepsInv(size: nat, steps: seq<Step>, states: seq<State>)
    requires Run(size, steps, states)
    ensures Inv(states[|steps|], size)
  {
    InitHolds(size);
    var n := |steps|;
    if n > 0 {
      RunKeepsInv(size, steps[..n - 1], states[..n]);
      StepRefinesFifo(states[n - 1], steps[n - 1], size);
    }
  }

  ghost function Work(s: State): nat {
    4 * |s.sender.pending| + 3 * |s.receiver.pending|
    + (match s.writer case Idle => 0 case Acquired(_) => 6 case Serialized(_, _) => 5)
    + (match s.reader case Waiting => 0 case Holding(_) => 2 case Parsed(_) => 1)
  }

  /** Everything but the start of another write uses up work. */
  lemma StepsUseWork(s: State, step: Step, size: nat)
    requires Inv(s, size) && Enabled(s, step) && !step.BeginDirectWrite?
    ensures Work(Apply(s, step)) < Work(s)
  {
  }

  /** With a live reader nothing gets stuck: when only a new write could happen, one can, no region is in
      use, and every message written has been parsed. */
  lemma StuckOnlyWhenDelivered(s: State, size: nat)
    requires size >= PREFIX_SIZE && Inv(s, size)
    requires forall step :: Enabled(s, step) ==> step.BeginDirectWrite?
    ensures s.sender.idle == s.receiver.idle == ALL_REGIONS
    ensures s.writer.Idle? && s.reader.Waiting?
    ensures s.messages.received == s.messages.sent
    ensures forall r :: r in ALL_REGIONS ==> Enabled(s, BeginDirectWrite(r))
  {
    StuckReader(s, size);
    StuckWriter(s, size);
    assert !Enabled(s, Transmit(0));
    s.sender.PendingInRange(size);
    assert s.sender.pending == [];
  }

  lemma StuckReader(s: State, size: nat)
    requires Inv(s, size)
    requires forall step :: Enabled(s, step) ==> step.BeginDirectWrite?
    ensures s.reader.Waiting? && s.receiver.pending == [] && s.receiver.idle == ALL_REGIONS
  {
    assert !Enabled(s, FinishDirectRead);
    if s.reader.Holding? {
      ParseDeliversHead(s, size);
    }
    assert s.reader.Waiting?;
    assert !Enabled(s, BeginDirectRead);
  }

  lemma StuckWriter(s: State, size: nat)
    requires size >= PREFIX_SIZE && Inv(s, size)
    requires forall step :: Enabled(s, step) ==> step.BeginDirectWrite?
    ensures s.writer.Idle?
  {
    assert !s.writer.Idle? ==> s.writer.region in s.sender.taken;
    assert !Enabled(s, Serialize([])) && !Enabled(s, FinishDirectWrite);
  }

  /** A receiving pool whose owner only makes copying reads: ReadLengthPrefix acquires a region and
      ReadFromLengthPrefixed copies out of it, and neither releases it. */
  datatype CopyStep = Arrive(region: nat, data: seq<Byte>) | CopyRead

  ghost predicate CopyEnabled(p: Pool, step: CopyStep) {
    match step
    case Arrive(r, data) => r in p.idle && r < |p.memory| && |data| <= |p.memory[r]|
    case CopyRead => p.pending != []
  }

  ghost predicate CopyRun(size: nat, steps: seq<CopyStep>, pools: seq<Pool>) {
    && |pools| == |steps| + 1
    && pools[0] == Configured(size)
    && forall i :: 0 <= i < |steps| ==>
         && CopyEnabled(pools[i], steps[i])
         && pools[i + 1] == (match steps[i]
                             case Arrive(r, data) => pools[i].Fill(r, data)
                             case CopyRead => pools[i].AcquireReceived())
  }

  ghost function CopyReads(steps: seq<CopyStep>): nat {
    if steps == [] then 0
    else CopyReads(steps[..|steps| - 1]) + if steps[|steps| - 1].CopyRead? then 1 else 0
  }

  /** Every copying read keeps a region for good, so there are never more than two of them; after the
      second, no message can arrive or be read any more. */
  lemma {:induction false} CopyReadsUseUpRegions(size: nat, steps: seq<CopyStep>, pools: seq<Pool>)
    requires CopyRun(size, steps, pools)
    ensures pools[|steps|].Valid(size)
    ensures CopyReads(steps) == |pools[|steps|].taken| <= 2
    ensures CopyReads(steps) == 2 ==> forall step :: !CopyEnabled(pools[|steps|], step)
  {
    var n := |steps|;
    if n > 0 {
      CopyReadsUseUpRegions(size, steps[..n - 1], pools[..n]);
      CopyStepCounts(pools[n - 1], steps[n - 1], size);
    }
    TakenAtMostTwo(pools[n], size);
  }

  lemma CopyStepCounts(p: Pool, step: CopyStep, size: nat)
    requires p.Valid(size) && CopyEnabled(p, step)
    ensures step.Arrive? ==> p.Fill(step.region, step.data).Valid(size)
    ensures step.CopyRead? ==> p.AcquireReceived().Valid(size) && |p.AcquireReceived().taken| == |p.taken| + 1
  {
    match step
    case Arrive(r, data) => FillConserves(p, r, data, size);
    case CopyRead =>
      AcquireReceivedConserves(p, size);
      HeadLeaves(p, size);
  }

  lemma TakenAtMostTwo(p: Pool, size: nat)
    requires p.Valid(size)
    ensures |p.taken| <= 2
    ensures |p.taken| == 2 ==> p.idle == {} && p.pending == []
  {
    assert |p.taken| + |ALL_REGIONS - p.taken| == |ALL_REGIONS| by {
      assert ALL_REGIONS == p.taken + (ALL_REGIONS - p.taken);
    }
    if |p.taken| == 2 {
      assert ALL_REGIONS - p.taken == {};
      assert p.idle <= ALL_REGIONS - p.taken && p.PendingRegions() <= ALL_REGIONS - p.taken;
      CountRegions(p.pending);
    }
  }
}
