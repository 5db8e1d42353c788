/** The socket transport as it runs: loops over a kernel that moves any number of bytes per call. */
module Sockets {
  import opened Bytes
  import opened ConnectionId

  /** One end of a TCP connection. `incoming` holds all bytes of the peer's stream that `recv` has not
      returned yet, whether or not they have arrived; how much of them a call returns is the kernel's
      choice. `stalls` bounds how often it can still return nothing. */
  class Socket {
    var outgoing: seq<Byte>  // accepted by send, in order
    var incoming: seq<Byte>
    var stalls: nat
    var broken: bool         // some call has failed for good

    constructor (incoming: seq<Byte>, stalls: nat)
      ensures outgoing == [] && this.incoming == incoming && this.stalls == stalls && !broken
    {
      this.outgoing, this.incoming, this.stalls, this.broken := [], incoming, stalls, false;
    }

    /** `send`: accepts a prefix of the bytes, possibly none, or fails. */
    method Send(buffer: array<Byte>, start: nat, count: nat) returns (written: int)
      requires 0 < count && start + count <= buffer.Length
      modifies this`outgoing, this`stalls, this`broken
      ensures written <= count && stalls <= old(stalls)
      ensures outgoing == if written < 0 then old(outgoing) else old(outgoing) + buffer[start..start + written]
      ensures written == 0 ==> stalls < old(stalls)
      ensures broken == (old(broken) || written < 0)
    {
      if * {
        written, broken := -1, true;
      } else if * {
        written :| 0 < written <= count;
        outgoing := outgoing + buffer[start..start + written];
      } else if stalls > 0 {
        written, stalls := 0, stalls - 1;
        assert buffer[start..start] == [];
      } else {
        written, broken := -1, true;
      }
    }

    /** `recv`: returns a prefix of the unread bytes, possibly none, or reports EAGAIN, or fails. */
    method Receive(buffer: array<Byte>, start: nat, count: nat) returns (n: int, again: bool)
      requires 0 < count && start + count <= buffer.Length
      modifies this`incoming, this`stalls, this`broken, buffer
      ensures n <= count && n <= |old(incoming)| && (again ==> n < 0) && stalls <= old(stalls)
      ensures (again || n == 0) ==> stalls < old(stalls)
      ensures broken == (old(broken) || (n < 0 && !again))
      ensures n < 0 ==> incoming == old(incoming) && buffer[..] == old(buffer[..])
      ensures n >= 0 ==>
        && incoming == old(incoming)[n..]
        && buffer[..] == Store(old(buffer[..]), start, old(incoming)[..n])
    {
      n, again := -1, false;
      var outcome :| 0 <= outcome < 4;
      if stalls > 0 && outcome == 0 {
        stalls, again := stalls - 1, true;
      } else if stalls > 0 && outcome == 1 {
        stalls, n := stalls - 1, 0;
      } else if incoming != [] && outcome == 2 {
        n :| 0 < n <= count && n <= |incoming|;
        Memcpy(buffer, start, incoming[..n]);
        incoming := incoming[n..];
      } else {
        broken := true;
      }
    }
  }

  /** The first `n` bytes of the stream have been stored at the start of the memory. */
  ghost predicate Filled(now: seq<Byte>, memory: seq<Byte>, stream: seq<Byte>, n: nat) {
    && n <= |memory| && n <= |stream|
    && now == Store(memory, 0, stream[..n])
  }

  lemma FillMore(now: seq<Byte>, memory: seq<Byte>, stream: seq<Byte>, start: nat, n: nat)
    requires Filled(now, memory, stream, start) && start + n <= |memory| && start + n <= |stream|
    ensures Filled(Store(now, start, stream[start..][..n]), memory, stream, start + n)
    ensures stream[start..][n..] == stream[start + n..]
  {
    assert now[..start] == stream[..start];
    assert now[start + n..] == now[start..][n..] == memory[start..][n..] == memory[start + n..];
    assert stream[..start] + stream[start..][..n] == stream[..start + n];
  }

  class SocketSidebandData {
    const socket: Socket
    const bufferSize: nat
    const lowLatency: bool
    var id: string
    var serializeBuffer: array<Byte>

    constructor (socket: Socket, bufferSize: nat, lowLatency: bool)
      ensures this.socket == socket && this.bufferSize == bufferSize && this.lowLatency == lowLatency
      ensures id == "" && serializeBuffer.Length == 0 && fresh(serializeBuffer)
    {
      this.socket, this.bufferSize, this.lowLatency := socket, bufferSize, lowLatency;
      this.id, this.serializeBuffer := "", new Byte[0];
    }

    /** All bytes are accepted in order, or the call fails having sent a proper prefix of them. */
    method WriteToSocket(buffer: array<Byte>, numBytes: nat) returns (ok: bool, ghost sent: nat)
      requires numBytes <= buffer.Length
      modifies socket`outgoing, socket`stalls, socket`broken
      ensures sent <= numBytes && (ok <==> sent == numBytes)
      ensures socket.outgoing == old(socket.outgoing) + buffer[..sent]
      ensures socket.broken == (old(socket.broken) || !ok)
    {
      var remainingBytes, start := numBytes, 0;
      assert buffer[..0] == [];
      while remainingBytes > 0
        invariant 0 <= start <= numBytes == start + remainingBytes
        invariant socket.outgoing == old(socket.outgoing) + buffer[..start]
        invariant socket.broken == old(socket.broken)
        decreases remainingBytes, socket.stalls
      {
        var written := socket.Send(buffer, start, remainingBytes);
        if written < 0 {
          return false, start;
        }
        assert buffer[..start] + buffer[start..start + written] == buffer[..start + written];
        start := start + written;
        remainingBytes := remainingBytes - written;
      }
      return true, start;
    }

    /** The inner loop of `ReadFromSocket`: `recv` until it reports something else than EAGAIN. */
    method ReceiveSome(buffer: array<Byte>, start: nat, count: nat) returns (n: int)
      requires 0 < count && start + count <= buffer.Length
      modifies socket`incoming, socket`stalls, socket`broken, buffer
      ensures n <= count && n <= |old(socket.incoming)| && socket.stalls <= old(socket.stalls)
      ensures n == 0 ==> socket.stalls < old(socket.stalls)
      ensures socket.broken == (old(socket.broken) || n < 0)
      ensures n < 0 ==> socket.incoming == old(socket.incoming) && buffer[..] == old(buffer[..])
      ensures n >= 0 ==>
        && socket.incoming == old(socket.incoming)[n..]
        && buffer[..] == Store(old(buffer[..]), start, old(socket.incoming)[..n])
    {
      n := -1;
      var again := true;
      while again
        invariant socket.stalls <= old(socket.stalls)
        invariant again ==> socket.broken == old(socket.broken)
        invariant again ==> socket.incoming == old(socket.incoming) && buffer[..] == old(buffer[..])
        invariant !again ==> n <= count && n <= |old(socket.incoming)|
        invariant !again && n == 0 ==> socket.stalls < old(socket.stalls)
        invariant !again ==> socket.broken == (old(socket.broken) || n < 0)
        invariant !again && n < 0 ==> socket.incoming == old(socket.incoming) && buffer[..] == old(buffer[..])
        invariant !again && n >= 0 ==>
          && socket.incoming == old(socket.incoming)[n..]
          && buffer[..] == Store(old(buffer[..]), start, old(socket.incoming)[..n])
        decreases again, socket.stalls
      {
        n, again := socket.Receive(buffer, start, count);
      }
    }

    /** The next bytes of the stream fill the buffer, or the call fails having stored fewer of them;
        either way exactly the stored bytes are consumed. */
    method ReadFromSocket(buffer: array<Byte>, numBytes: nat) returns (ok: bool, ghost taken: nat)
      requires numBytes <= buffer.Length
      modifies socket`incoming, socket`stalls, socket`broken, buffer
      ensures taken <= numBytes && taken <= |old(socket.incoming)|
      ensures ok <==> taken == numBytes
      ensures socket.incoming == old(socket.incoming)[taken..]
      ensures buffer[..] == Store(old(buffer[..]), 0, old(socket.incoming)[..taken])
      ensures socket.broken == (old(socket.broken) || !ok)
    {
      var remainingBytes, start := numBytes, 0;
      ghost var stream, memory := socket.incoming, buffer[..];
      assert Filled(memory, memory, stream, 0);
      while remainingBytes > 0
        invariant 0 <= start <= numBytes == start + remainingBytes && start <= |stream|
        invariant socket.incoming == stream[start..]
        invariant Filled(buffer[..], memory, stream, start)
        invariant socket.broken == old(socket.broken)
        decreases remainingBytes, socket.stalls
      {
        ghost var before := buffer[..];
        var n := ReceiveSome(buffer, start, remainingBytes);
        if n < 0 {
          return false, start;
        }
        FillMore(before, memory, stream, start, n);
        start := start + n;
        remainingBytes := remainingBytes - n;
      }
      return true, start;
    }

    /** `ReadConnectionId`: thirteen bytes of the stream become `_id`; whatever a failing read leaves
        out stays zero. */
    method ReadConnectionId() returns (ghost taken: nat)
      modifies this`id, socket`incoming, socket`stalls, socket`broken
      ensures taken <= ID_LENGTH && taken <= |old(socket.incoming)|
      ensures socket.broken == (old(socket.broken) || taken < ID_LENGTH)
      ensures socket.incoming == old(socket.incoming)[taken..]
      ensures id == Text(old(socket.incoming)[..taken] + Zeros(ID_LENGTH - taken))
    {
      var buffer := new Byte[ID_LENGTH](_ => 0);
      var ok;
      ok, taken := ReadFromSocket(buffer, ID_LENGTH);
      assert Zeros(ID_LENGTH)[taken..] == Zeros(ID_LENGTH - taken);
      id := Text(buffer[..]);
    }

    /** The usage id, or a proper prefix of it and the call fails. */
    method SendUsageId() returns (ok: bool, ghost sent: nat)
      requires IsText(id)
      modifies socket`outgoing, socket`stalls, socket`broken
      ensures sent <= |id| && (ok <==> sent == |id|)
      ensures socket.outgoing == old(socket.outgoing) + TextBytes(id)[..sent]
      ensures socket.broken == (old(socket.broken) || !ok)
    {
      var bytes := TextBytes(id);
      var buffer := new Byte[|bytes|](i requires 0 <= i < |bytes| => bytes[i]);
      assert buffer[..] == bytes;
      ok, sent := WriteToSocket(buffer, |bytes|);
    }

    /** A frame is appended to the stream whole, or a proper prefix of it and the call fails. */
    method WriteLengthPrefixed(bytes: array<Byte>, byteCount: nat) returns (ok: bool, ghost sent: nat)
      requires byteCount <= bytes.Length && IsInt64(byteCount)
      modifies socket`outgoing, socket`stalls, socket`broken
      ensures sent <= PREFIX_SIZE + byteCount && (ok <==> sent == PREFIX_SIZE + byteCount)
      ensures socket.outgoing == old(socket.outgoing) + Frame(bytes[..byteCount])[..sent]
      ensures socket.broken == (old(socket.broken) || !ok)
    {
      ghost var frame := Frame(bytes[..byteCount]);
      var prefix := Encode64(byteCount);
      var buffer := new Byte[PREFIX_SIZE](i requires 0 <= i < PREFIX_SIZE => prefix[i]);
      assert buffer[..] == prefix == frame[..PREFIX_SIZE];
      ok, sent := WriteToSocket(buffer, PREFIX_SIZE);
      assert buffer[..sent] == frame[..sent];
      if ok {
        ghost var more;
        ok, more := WriteToSocket(bytes, byteCount);
        assert frame[..PREFIX_SIZE] + bytes[..more] == frame[..PREFIX_SIZE + more];
        sent := PREFIX_SIZE + more;
      }
    }

    /** `ReadLengthPrefix`: eight bytes of the stream as an `int64_t`; a failing read leaves the bytes
        it did not get at zero and reports nothing. */
    method ReadLengthPrefix() returns (length: int, ghost taken: nat)
      modifies socket`incoming, socket`stalls, socket`broken
      ensures taken <= PREFIX_SIZE && taken <= |old(socket.incoming)|
      ensures socket.broken == (old(socket.broken) || taken < PREFIX_SIZE)
      ensures socket.incoming == old(socket.incoming)[taken..]
      ensures length == Decode64(old(socket.incoming)[..taken] + Zeros(PREFIX_SIZE - taken))
    {
      var buffer := new Byte[PREFIX_SIZE](_ => 0);
      var ok;
      ok, taken := ReadFromSocket(buffer, PREFIX_SIZE);
      assert Zeros(PREFIX_SIZE)[taken..] == Zeros(PREFIX_SIZE - taken);
      assert buffer[..] == old(socket.incoming)[..taken] + Zeros(PREFIX_SIZE - taken);
      length := Decode64(buffer[..]);
    }

    /** `Read`, which `ReadFromLengthPrefixed` calls: `numBytesRead` is set only on success. */
    method ReadFromLengthPrefixed(bytes: array<Byte>, count: nat, previous: int)
        returns (ok: bool, numBytesRead: int, ghost taken: nat)
      requires count <= bytes.Length
      modifies socket`incoming, socket`stalls, socket`broken, bytes
      ensures taken <= count && taken <= |old(socket.incoming)|
      ensures ok <==> taken == count
      ensures numBytesRead == if ok then count else previous
      ensures socket.incoming == old(socket.incoming)[taken..]
      ensures bytes[..] == Store(old(bytes[..]), 0, old(socket.incoming)[..taken])
      ensures socket.broken == (old(socket.broken) || !ok)
    {
      ok, taken := ReadFromSocket(bytes, count);
      numBytesRead := if ok then count else previous;
    }

    /** `SerializeBuffer`: allocated at its full size on first use, the same buffer ever after. */
    method SerializeBuffer() returns (buffer: array<Byte>)
      modifies this`serializeBuffer
      ensures buffer == serializeBuffer
      ensures old(serializeBuffer.Length) != 0 ==> buffer == old(serializeBuffer)
      ensures old(serializeBuffer.Length) == 0 ==> fresh(buffer) && buffer.Length == bufferSize
    {
      if serializeBuffer.Length == 0 {
        serializeBuffer := new Byte[bufferSize](_ => 0);
      }
      buffer := serializeBuffer;
    }
  }
}
