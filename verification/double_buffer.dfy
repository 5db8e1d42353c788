/** Two processes copying through the double buffer at the same time, byte by byte. */
module DoubleBuffer {
  import opened Bytes
  import opened MessageFifo

  /** Each side has its own `_current`; both start at buffer A. */
  datatype Buffer = A | B {
    function Other(): Buffer {
      if A? then B else A
    }
  }

  /** A `memcpy` in progress: the message and how much of it has been copied. */
  datatype Writer = NotWriting | Writing(message: Message, done: nat)
  datatype Reader = NotReading | Reading(count: nat, got: seq<Byte>)

  datatype State = State(
    a: seq<Byte>,
    b: seq<Byte>,
    writerCurrent: Buffer,
    readerCurrent: Buffer,
    writer: Writer,
    reader: Reader,
    messages: Fifo<Message>  // completely written, completely read
  ) {
    function Memory(buffer: Buffer): seq<Byte> {
      if buffer.A? then a else b
    }
  }

  datatype Step = BeginWrite(message: Message) | WriteByte | EndWrite | BeginRead(count: nat) | ReadByte | EndRead

  function Init(size: nat): State {
    State(Zeros(size), Zeros(size), A, A, NotWriting, NotReading, Empty())
  }

  /** A write starts only while fewer than two messages are unread, a read only while one is; the reader
      asks for as many bytes as the message has. */
  ghost predicate Enabled(s: State, step: Step) {
    match step
    case BeginWrite(m) =>
      s.writer.NotWriting? && |s.messages.sent| < |s.messages.received| + 2 && |m| <= |s.Memory(s.writerCurrent)|
    case WriteByte =>
      s.writer.Writing? && s.writer.done < |s.writer.message| && s.writer.done < |s.Memory(s.writerCurrent)|
    case EndWrite => s.writer.Writing? && s.writer.done == |s.writer.message|
    case BeginRead(n) =>
      s.reader.NotReading? && |s.messages.received| < |s.messages.sent|
      && n == |s.messages.sent[|s.messages.received|]|
    case ReadByte =>
      s.reader.Reading? && |s.reader.got| < s.reader.count && |s.reader.got| < |s.Memory(s.readerCurrent)|
    case EndRead => s.reader.Reading? && |s.reader.got| == s.reader.count
  }

  ghost function Apply(s: State, step: Step): State
    requires Enabled(s, step)
  {
    match step
    case BeginWrite(m) => s.(writer := Writing(m, 0))
    case WriteByte =>
      var i := s.writer.done;
      var memory := s.Memory(s.writerCurrent)[i := s.writer.message[i]];
      var s' := s.(writer := s.writer.(done := i + 1));
      if s.writerCurrent.A? then s'.(a := memory) else s'.(b := memory)
    case EndWrite =>
      s.(writer := NotWriting, writerCurrent := s.writerCurrent.Other(), messages := s.messages.Push(s.writer.message))
    case BeginRead(n) => s.(reader := Reading(n, []))
    case ReadByte =>
      s.(reader := s.reader.(got := s.reader.got + [s.Memory(s.readerCurrent)[|s.reader.got|]]))
    case EndRead =>
      s.(reader := NotReading, readerCurrent := s.readerCurrent.Other(), messages := s.messages.Deliver(s.reader.got))
  }

  /** The buffer the `i`-th message goes through. */
  function BufferOf(i: nat): Buffer {
    if i % 2 == 0 then A else B
  }

  ghost predicate Inv(s: State, size: nat) {
    var w, r := |s.messages.sent|, |s.messages.received|;
    && |s.a| == |s.b| == size
    && s.writerCurrent == BufferOf(w) && s.readerCurrent == BufferOf(r)
    && s.messages.Valid() && w <= r + 2
    && (forall i :: r <= i < w ==> s.messages.sent[i] <= s.Memory(BufferOf(i)))
    && (s.writer.Writing? ==>
          w < r + 2 && s.writer.done <= |s.writer.message| <= size
          && s.writer.message[..s.writer.done] <= s.Memory(s.writerCurrent))
    && (s.reader.Reading? ==>
          r < w && s.reader.count == |s.messages.sent[r]| && s.reader.got <= s.messages.sent[r])
  }

  /** Unread messages are in the other buffer. */
  lemma WriteByteKeepsInv(s: State, size: nat)
    requires Inv(s, size) && Enabled(s, WriteByte)
    ensures Inv(Apply(s, WriteByte), size)
  {
    var w, r := |s.messages.sent|, |s.messages.received|;
    var s' := Apply(s, WriteByte);
    var k, m := s.writer.done, s.writer.message;
    assert s'.Memory(s.writerCurrent)[..k + 1] == m[..k] + [m[k]] == m[..k + 1];
    forall i | r <= i < w
      ensures s.messages.sent[i] <= s'.Memory(BufferOf(i))
    {
      assert BufferOf(i) != s.writerCurrent;
    }
  }

  lemma EndWriteKeepsInv(s: State, size: nat)
    requires Inv(s, size) && Enabled(s, EndWrite)
    ensures Inv(Apply(s, EndWrite), size)
  {
    assert s.writer.message[..s.writer.done] == s.writer.message;
  }

  lemma WriterKeepsInv(s: State, step: Step, size: nat)
    requires Inv(s, size) && Enabled(s, step) && (step.BeginWrite? || step.WriteByte? || step.EndWrite?)
    ensures Inv(Apply(s, step), size)
  {
    match step
    case BeginWrite(_) =>
    case WriteByte => WriteByteKeepsInv(s, size);
    case EndWrite => EndWriteKeepsInv(s, size);
  }

  /** A completed read has returned the oldest unread message intact. */
  lemma ReaderKeepsInv(s: State, step: Step, size: nat)
    requires Inv(s, size) && Enabled(s, step) && (step.BeginRead? || step.ReadByte? || step.EndRead?)
    ensures Inv(Apply(s, step), size)
    ensures step.EndRead? ==> s.messages.Queued() != [] && s.reader.got == s.messages.Queued()[0]
  {
    var r := |s.messages.received|;
    match step
    case BeginRead(_) =>
    case ReadByte =>
      var m, k := s.messages.sent[r], |s.reader.got|;
      assert m == s.Memory(s.readerCurrent)[..|m|];
      assert s.reader.got + [m[k]] == m[..k + 1];
    case EndRead =>
      assert s.reader.got == s.messages.sent[r];
      assert s.messages.received + [s.messages.sent[r]] == s.messages.sent[..r + 1];
  }

  /** Every byte-level step is a step of a queue that never has more than two messages. */
  lemma StepRefinesFifo(s: State, step: Step, size: nat)
    requires Inv(s, size) && Enabled(s, step)
    ensures Inv(Apply(s, step), size)
    ensures Next(s.messages, Apply(s, step).messages)
    ensures |Apply(s, step).messages.Queued()| <= 2
    ensures step.BeginWrite? ==> Apply(s, step).writer == Writing(step.message, 0)
    ensures step.EndWrite? ==> Apply(s, step).messages == s.messages.Push(s.writer.message)
    ensures step.EndRead? ==>
      s.messages.Queued() != [] && Apply(s, step).messages == s.messages.Deliver(s.messages.Queued()[0])
  {
    if step.BeginWrite? || step.WriteByte? || step.EndWrite? {
      WriterKeepsInv(s, step, size);
    } else {
      ReaderKeepsInv(s, step, size);
    }
  }

  ghost predicate Run(size: nat, steps: seq<Step>, states: seq<State>) {
    && |states| == |steps| + 1
    && states[0] == Init(size)
    && forall i :: 0 <= i < |steps| ==> Enabled(states[i], steps[i]) && states[i + 1] == Apply(states[i], steps[i])
  }

  /** The messages whose write has begun, and those whose write has ended. */
  ghost function Begun(steps: seq<Step>): seq<Message> {
    if steps == [] then []
    else
      var earlier := Begun(steps[..|steps| - 1]);
      if steps[|steps| - 1].BeginWrite? then earlier + [steps[|steps| - 1].message] else earlier
  }

  /** The messages whose write has begun, as the state shows them. */
  ghost function BegunAt(s: State): seq<Message> {
    s.messages.sent + if s.writer.Writing? then [s.writer.message] else []
  }

  lemma StepBegins(s: State, step: Step)
    requires Enabled(s, step)
    ensures BegunAt(Apply(s, step)) == BegunAt(s) + if step.BeginWrite? then [step.message] else []
  {
  }

  lemma {:induction false} RunKeepsInv(size: nat, steps: seq<Step>, states: seq<State>)
    requires Run(size, steps, states)
    ensures Inv(states[|steps|], size)
  {
    var n := |steps|;
    if n > 0 {
      RunKeepsInv(size, steps[..n - 1], states[..n]);
      StepRefinesFifo(states[n - 1], steps[n - 1], size);
    }
  }

  lemma {:induction false} RunBegins(size: nat, steps: seq<Step>, states: seq<State>)
    requires Run(size, steps, states)
    ensures BegunAt(states[|steps|]) == Begun(steps)
  {
    var n := |steps|;
    if n > 0 {
      RunBegins(size, steps[..n - 1], states[..n]);
      StepBegins(states[n - 1], steps[n - 1]);
    }
  }

  /** In every interleaving of half-finished copies, the messages read are the first ones written, byte for
      byte, and the `i`-th of them went through the `i`-th buffer in turn. */
  lemma RunReadsWhatWasWritten(size: nat, steps: seq<Step>, states: seq<State>)
    requires Run(size, steps, states)
    ensures var s := states[|steps|];
      && Inv(s, size)
      && s.messages.received <= s.messages.sent <= Begun(steps)
      && BegunAt(s) == Begun(steps)
  {
    RunKeepsInv(size, steps, states);
    RunBegins(size, steps, states);
  }

  /** Nothing gets stuck: when only another write could begin, every message written has been read. */
  lemma StuckOnlyWhenDelivered(s: State, size: nat)
    requires Inv(s, size)
    requires forall step :: Enabled(s, step) ==> step.BeginWrite?
    ensures s.writer.NotWriting? && s.reader.NotReading? && s.messages.received == s.messages.sent
  {
    assert !Enabled(s, WriteByte) && !Enabled(s, EndWrite);
    assert !Enabled(s, ReadByte) && !Enabled(s, EndRead);
    var r := |s.messages.received|;
    assert r < |s.messages.sent| ==> !Enabled(s, BeginRead(|s.messages.sent[r]|));
  }

  /** Both sides are at the same buffer unless exactly one message is unread. */
  lemma WriterStandsOnReadersBuffer(s: State, size: nat)
    requires Inv(s, size)
    ensures s.writerCurrent == s.readerCurrent <==> |s.messages.Queued()| != 1
  {
  }

  /** The writer's next bytes, `k` of them. */
  ghost function WriteBytes(s: State, k: nat): (r: State)
    requires s.writer.Writing? && s.writer.done + k <= |s.writer.message| <= |s.Memory(s.writerCurrent)|
    ensures r.writer == s.writer.(done := s.writer.done + k) && r.writerCurrent == s.writerCurrent
    ensures |r.Memory(r.writerCurrent)| == |s.Memory(s.writerCurrent)|
  {
    if k == 0 then s else Apply(WriteBytes(s, k - 1), WriteByte)
  }

  lemma {:induction false} WriteBytesStores(s: State, k: nat)
    requires s.writer.Writing? && s.writer.done == 0 && k <= |s.writer.message| <= |s.Memory(s.writerCurrent)|
    ensures forall i :: 0 <= i < |s.Memory(s.writerCurrent)| ==>
      WriteBytes(s, k).Memory(s.writerCurrent)[i] == if i < k then s.writer.message[i] else s.Memory(s.writerCurrent)[i]
  {
    if k > 0 {
      WriteBytesStores(s, k - 1);
    }
  }

  /** The discipline is needed: a write that begins while two messages are unread leaves the older one intact,
      at a given point of the copy, exactly if it has agreed with it byte for byte up to there. */
  lemma ThirdMessageOverwritesExactly(s: State, size: nat, m: Message, k: nat)
    requires Inv(s, size) && s.writer.NotWriting? && |s.messages.Queued()| == 2 && k <= |m| <= size
    ensures var head := s.messages.Queued()[0];
      head <= WriteBytes(s.(writer := Writing(m, 0)), k).Memory(s.readerCurrent) <==>
      forall i :: 0 <= i < k && i < |head| ==> m[i] == head[i]
  {
    WriterStandsOnReadersBuffer(s, size);
    var begun, head, old' := s.(writer := Writing(m, 0)), s.messages.Queued()[0], s.Memory(s.readerCurrent);
    WriteBytesStores(begun, k);
    var memory := WriteBytes(begun, k).Memory(s.readerCurrent);
    assert head <= old';
    assert forall i :: 0 <= i < |head| ==> memory[i] == if i < k then m[i] else head[i];
    assert head <= memory <==> forall i :: 0 <= i < |head| ==> memory[i] == head[i];
  }
}
