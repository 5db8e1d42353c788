/** Two processes that use the double buffer in turn: requests one way, replies the other way. */
module PingPong {
  import opened Bytes
  import opened SharedMemory

  /** How an operation is carried out: by copying, by a pair of direct calls, or by the length-prefixed call
      (for reading: a pair of direct calls too). */
  datatype Way = Copy | Direct | LengthPrefixed

  /** The place a transfer needs in a buffer. */
  function Room(count: nat, way: Way): nat {
    if way.LengthPrefixed? then PREFIX_SIZE + count else count
  }

  /** One side writes: the message is stored at the start of its current buffer, and it goes on to the other. */
  method Put(side: DoubleBufferedSharedMemorySidebandData, m: Message, way: Way) returns (used: array<Byte>)
    requires side.Valid() && side.current.mapping != null && IsInt64(|m|)
    requires Room(|m|, way) <= side.current.mapping.Length
    modifies side, side.current, side.current.mapping
    ensures side.Valid() && side.current == old(side.Other())
    ensures used == old(side.current.mapping) && m <= used[..]
  {
    used := side.current.mapping;
    ghost var before := used[..];
    if way.Direct? {
      var ptr, offset := side.BeginDirectWrite();
      Memcpy(ptr, offset, m);
      used := ptr;
      assert used[..] == Store(before, 0, m);
      var ok := side.FinishDirectWrite(|m|);
    } else {
      var bytes := new Byte[|m|](i requires 0 <= i < |m| => m[i]);
      assert bytes[..|m|] == m;
      var ok;
      if way.Copy? {
        ok := side.Write(bytes, |m|);
      } else {
        ok := side.WriteLengthPrefixed(bytes, |m|);
      }
    }
    assert used[..|m|] == m;
  }

  /** One side reads this many bytes. A length-prefixed reader looks behind the first eight bytes. */
  method Take(side: DoubleBufferedSharedMemorySidebandData, count: nat, way: Way)
      returns (used: array<Byte>, got: Message)
    requires side.Valid() && side.current.mapping != null
    requires PREFIX_SIZE <= side.current.mapping.Length && Room(count, way) <= side.current.mapping.Length
    modifies side, side.current
    ensures side.Valid() && side.current == old(side.Other())
    ensures used == old(side.current.mapping)
    ensures got == if way.LengthPrefixed? then used[PREFIX_SIZE..PREFIX_SIZE + count] else used[..count]
  {
    used := side.current.mapping;
    if way.Copy? {
      var bytes := new Byte[count](_ => 0);
      var ok := side.Read(bytes, count);
      got := bytes[..];
    } else {
      var offset;
      if way.Direct? {
        used, offset := side.BeginDirectRead(count);
      } else {
        var length;
        used, offset, length := side.BeginDirectReadLengthPrefixed(0);
      }
      got := used[offset..offset + count];
      var ok := side.FinishDirectRead();
    }
  }

  datatype Exchange = Exchange(request: Message, reply: Message, write: Way, read: Way, answer: Way, accept: Way) {
    predicate Fits(size: nat) {
      && IsInt64(|request|) && IsInt64(|reply|)
      && Room(|request|, write) <= size && Room(|request|, read) <= size
      && Room(|reply|, answer) <= size && Room(|reply|, accept) <= size
    }
  }

  /** The memories through which a request is written and read, and its reply is written and read. */
  datatype Passage = Passage(
    requestWritten: array<Byte>,
    requestRead: array<Byte>,
    replyWritten: array<Byte>,
    replyRead: array<Byte>
  )

  /** Two processes that map the same two memories, and both stand on buffer A. */
  ghost predicate AtStart(client: DoubleBufferedSharedMemorySidebandData,
                          server: DoubleBufferedSharedMemorySidebandData,
                          a: array<Byte>, b: array<Byte>)
    reads client, server, client.bufferA, client.bufferB, server.bufferA, server.bufferB
  {
    && client != server && client.Valid() && server.Valid()
    && {client.bufferA, client.bufferB} !! {server.bufferA, server.bufferB}
    && client.bufferA.mapping == server.bufferA.mapping == a
    && client.bufferB.mapping == server.bufferB.mapping == b
    && a != b && a.Length == b.Length >= PREFIX_SIZE
    && client.current == client.bufferA && server.current == server.bufferA
  }

  /** A round: the request goes through A, the reply through B, and both sides stand on A again. */
  method Round(client: DoubleBufferedSharedMemorySidebandData, server: DoubleBufferedSharedMemorySidebandData,
               a: array<Byte>, b: array<Byte>, e: Exchange) returns (passage: Passage, request: Message, reply: Message)
    requires AtStart(client, server, a, b) && e.Fits(a.Length)
    modifies client, server, client.bufferA, client.bufferB, server.bufferA, server.bufferB, a, b
    ensures AtStart(client, server, a, b)
    ensures passage == Passage(a, a, b, b)
    ensures !e.read.LengthPrefixed? ==> request == e.request
    ensures !e.accept.LengthPrefixed? ==> reply == e.reply
  {
    var requestWritten := Put(client, e.request, e.write);
    var requestRead, replyWritten, replyRead;
    requestRead, request := Take(server, |e.request|, e.read);
    replyWritten := Put(server, e.reply, e.answer);
    replyRead, reply := Take(client, |e.reply|, e.accept);
    passage := Passage(requestWritten, requestRead, replyWritten, replyRead);
  }

  /** For any number of rounds, and whichever way each operation is carried out, every request goes through
      buffer A and every reply through buffer B, and after each round both sides stand on A. What is read at
      the start of a buffer is what was written. */
  method Play(client: DoubleBufferedSharedMemorySidebandData, server: DoubleBufferedSharedMemorySidebandData,
              a: array<Byte>, b: array<Byte>, exchanges: seq<Exchange>)
      returns (passages: seq<Passage>, requests: seq<Message>, replies: seq<Message>)
    requires AtStart(client, server, a, b)
    requires forall i :: 0 <= i < |exchanges| ==> exchanges[i].Fits(a.Length)
    modifies client, server, client.bufferA, client.bufferB, server.bufferA, server.bufferB, a, b
    ensures AtStart(client, server, a, b)
    ensures |passages| == |requests| == |replies| == |exchanges|
    ensures forall i :: 0 <= i < |exchanges| ==> passages[i] == Passage(a, a, b, b)
    ensures forall i :: 0 <= i < |exchanges| && !exchanges[i].read.LengthPrefixed? ==>
      requests[i] == exchanges[i].request
    ensures forall i :: 0 <= i < |exchanges| && !exchanges[i].accept.LengthPrefixed? ==>
      replies[i] == exchanges[i].reply
  {
    passages, requests, replies := [], [], [];
    for n := 0 to |exchanges|
      invariant AtStart(client, server, a, b)
      invariant |passages| == |requests| == |replies| == n
      invariant forall i :: 0 <= i < n ==> passages[i] == Passage(a, a, b, b)
      invariant forall i :: 0 <= i < n && !exchanges[i].read.LengthPrefixed? ==> requests[i] == exchanges[i].request
      invariant forall i :: 0 <= i < n && !exchanges[i].accept.LengthPrefixed? ==> replies[i] == exchanges[i].reply
    {
      var passage, request, reply := Round(client, server, a, b, exchanges[n]);
      passages, requests, replies := passages + [passage], requests + [request], replies + [reply];
    }
  }
}
