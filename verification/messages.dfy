/** `WriteSidebandMessage` and `ReadSidebandMessage`: one message format over the copying path (sockets)
    and the direct path (RDMA). */
module Messages {
  import opened Bytes
  import opened ConnectionId
  import opened Sockets
  import opened Rdma
  import opened Options
  import RdmaPool
  import SocketStream

  /** Serialisation of a message type, which the library gets from protobuf. */
  datatype Codec<!M> = Codec(serialize: M -> seq<Byte>, parse: seq<Byte> -> Option<M>)

  ghost predicate Inverse<M(!new)>(codec: Codec<M>) {
    forall m :: codec.parse(codec.serialize(m)) == Some(m)
  }

  datatype Token = SocketToken(socketData: SocketSidebandData) | RdmaToken(rdmaData: RdmaSidebandDataImp) {

    predicate SupportsDirectReadWrite() {
      RdmaToken?
    }

    ghost function Footprint(): set<object>
      reads if SocketToken? then {socketData} else {}
    {
      match this
      case SocketToken(s) => {s, s.socket, s.serializeBuffer}
      case RdmaToken(r) => {r, r.connectedWriteSession, r.connectedReadSession}
    }

    /** The session is usable and a serialised message of this size fits its buffer, with the length in
        front where the buffer holds that too. */
    ghost predicate Fits(byteSize: nat)
      reads Footprint()
    {
      IsInt64(byteSize) &&
      match this
      case SocketToken(s) =>
        byteSize <= s.bufferSize && (s.serializeBuffer.Length == 0 || s.serializeBuffer.Length == s.bufferSize)
      case RdmaToken(r) => r.Valid() && PREFIX_SIZE + byteSize <= r.bufferSize
    }
  }

  ghost predicate Ready(data: SocketSidebandData)
    reads data
  {
    data.serializeBuffer.Length == 0 || data.serializeBuffer.Length == data.bufferSize
  }

  /** The branch of `WriteSidebandMessage` for direct transports. */
  method WriteDirect(data: RdmaSidebandDataImp, bytes: seq<Byte>) returns (ghost sent: nat)
    requires data.Valid() && IsInt64(|bytes|) && PREFIX_SIZE + |bytes| <= data.bufferSize
    requires data.HasWriteRegion()
    modifies data, data.connectedWriteSession
    ensures data.Valid() && sent in {0, |Frame(bytes)|}
    ensures data.connectedWriteSession.broken == (old(data.connectedWriteSession.broken) || sent == 0)
    ensures data.connectedWriteSession.Queued() == old(data.connectedWriteSession.Queued()) +
      if sent == 0 then [] else [Frame(bytes)]
    ensures sent > 0 ==>
      data.connectedWriteSession.pool.taken ==
        if old(data.connectedWriteSession.CanAcquire()) then old(data.connectedWriteSession.pool.taken)
        else RdmaPool.ALL_REGIONS - {old(data.writeRegion).value}
  {
    var region, offset := data.BeginDirectWrite();
    data.connectedWriteSession.Poke(region, offset, bytes);
    var ok := data.FinishDirectWrite(|bytes|);
    sent := if ok then |Frame(bytes)| else 0;
  }

  /** The branch for copying transports. */
  method WriteCopied(data: SocketSidebandData, bytes: seq<Byte>) returns (ghost sent: nat)
    requires Ready(data) && IsInt64(|bytes|) && |bytes| <= data.bufferSize
    modifies data`serializeBuffer, data.socket`outgoing, data.socket`stalls, data.socket`broken, data.serializeBuffer
    ensures Ready(data)
    ensures data.serializeBuffer == old(data.serializeBuffer) || fresh(data.serializeBuffer)
    ensures sent <= |Frame(bytes)|
    ensures data.socket.outgoing == old(data.socket.outgoing) + Frame(bytes)[..sent]
    ensures data.socket.broken == (old(data.socket.broken) || sent < |Frame(bytes)|)
  {
    var buffer := data.SerializeBuffer();
    Memcpy(buffer, 0, bytes);
    assert buffer[..|bytes|] == bytes;
    var ok;
    ok, sent := data.WriteLengthPrefixed(buffer, |bytes|);
  }

  /** The frame of the serialised message goes out after everything written before it; it is cut short exactly
      on a session that breaks. */
  method WriteSidebandMessage<M>(token: Token, codec: Codec<M>, message: M) returns (byteSize: nat, ghost sent: nat)
    requires token.Fits(|codec.serialize(message)|)
    requires token.RdmaToken? ==> token.rdmaData.HasWriteRegion()
    modifies token.Footprint()
    ensures byteSize == |codec.serialize(message)| && token.Fits(byteSize)
    ensures token.SocketToken? ==>
      var socket, frame := token.socketData.socket, Frame(codec.serialize(message));
      && socket.incoming == old(socket.incoming)
      && sent <= |frame| && socket.outgoing == old(socket.outgoing) + frame[..sent]
      && socket.broken == (old(socket.broken) || sent < |frame|)
    ensures token.SocketToken? ==>
      token.socketData.id == old(token.socketData.id) &&
      (|| token.socketData.serializeBuffer == old(token.socketData.serializeBuffer)
       || fresh(token.socketData.serializeBuffer))
    ensures token.RdmaToken? ==>
      var write := token.rdmaData.connectedWriteSession;
      && sent in {0, |Frame(codec.serialize(message))|}
      && write.broken == (old(write.broken) || sent == 0)
      && write.Queued() == old(write.Queued()) + (if sent == 0 then [] else [Frame(codec.serialize(message))])
      && (sent > 0 ==>
            write.pool.taken ==
              if old(write.CanAcquire()) then old(write.pool.taken)
              else RdmaPool.ALL_REGIONS - {old(token.rdmaData.writeRegion).value})
  {
    var bytes := codec.serialize(message);
    byteSize := |bytes|;
    if token.SupportsDirectReadWrite() {
      sent := WriteDirect(token.rdmaData, bytes);
    } else {
      sent := WriteCopied(token.socketData, bytes);
    }
  }

  /** A prefix whose last bytes are missing, and so zero, is no larger than the length it was cut from. */
  lemma {:induction false} CutPrefix(n: nat, width: nat, k: nat)
    requires k <= width && n < Pow256(width)
    ensures FromLittleEndian(LittleEndian(n, width)[..k] + Zeros(width - k)) <= n
  {
    var b := LittleEndian(n, width)[..k] + Zeros(width - k);
    if width > 0 {
      assert n / 256 < Pow256(width - 1);
      if k == 0 {
        CutPrefix(n / 256, width - 1, 0);
        assert b[1..] == LittleEndian(n / 256, width - 1)[..0] + Zeros(width - 1);
      } else {
        CutPrefix(n / 256, width - 1, k - 1);
        assert b[1..] == LittleEndian(n / 256, width - 1)[..k - 1] + Zeros(width - k);
      }
    }
  }

  lemma CutPrefixFits(stream: seq<Byte>, bytes: seq<Byte>, taken: nat)
    requires IsInt64(|bytes|) && Frame(bytes) <= stream && taken <= PREFIX_SIZE
    ensures 0 <= Decode64(stream[..taken] + Zeros(PREFIX_SIZE - taken)) <= |bytes|
    ensures taken == PREFIX_SIZE ==> Decode64(stream[..taken] + Zeros(PREFIX_SIZE - taken)) == |bytes|
  {
    PowerOfPrefix();
    CutPrefix(|bytes|, PREFIX_SIZE, taken);
    assert stream[..taken] == Encode64(|bytes|)[..taken];
    if taken == PREFIX_SIZE {
      PrefixRoundTrip(|bytes|);
      assert stream[..taken] + Zeros(0) == Encode64(|bytes|);
    }
  }

  lemma ZeroLength()
    ensures Decode64([] + Zeros(PREFIX_SIZE)) == 0
  {
    assert Encode64(0) == Zeros(PREFIX_SIZE);
    assert [] + Zeros(PREFIX_SIZE) == Zeros(PREFIX_SIZE);
    PrefixRoundTrip(0);
  }

  lemma PayloadFollows(stream: seq<Byte>, bytes: seq<Byte>)
    requires IsInt64(|bytes|) && Frame(bytes) <= stream
    ensures stream[PREFIX_SIZE..][..|bytes|] == bytes
    ensures stream[PREFIX_SIZE..][|bytes|..] == stream[|Frame(bytes)|..]
  {
    FrameReadsBack(stream, bytes);
    assert stream[PREFIX_SIZE..][..|bytes|] == stream[PREFIX_SIZE..PREFIX_SIZE + |bytes|];
  }

  /** The branch of `ReadSidebandMessage` for direct transports. */
  method ReadDirect<M>(data: RdmaSidebandDataImp, codec: Codec<M>, ghost expected: seq<Byte>)
      returns (success: bool, message: Option<M>)
    requires RdmaToken(data).Fits(|expected|)
    requires data.connectedReadSession.CanReceive() ==>
      data.connectedReadSession.Unread() != [] && data.connectedReadSession.Unread()[0] == Frame(expected)
    modifies data, data.connectedReadSession
    ensures data.Valid() && success == message.Some?
    ensures old(data.connectedReadSession.CanReceive()) ==>
      && message == codec.parse(expected)
      && data.connectedReadSession.Unread() == old(data.connectedReadSession.Unread())[1..]
      && data.connectedReadSession.pool.taken == old(data.connectedReadSession.pool.taken)
    ensures !old(data.connectedReadSession.CanReceive()) ==> message == codec.parse([])
  {
    var ok, length, offset := data.BeginDirectReadLengthPrefixed(0);
    if ok {
      var memory := data.connectedReadSession.pool.memory[data.readRegion.value];
      assert Frame(expected) <= memory;
      FrameReadsBack(memory, expected);
      message := codec.parse(memory[offset..offset + length]);
    } else {
      message := codec.parse([]);
    }
    var finished := data.FinishDirectRead();
    success := message.Some?;
  }

  /** The branch of `ReadSidebandMessage` for copying transports. */
  method ReadCopied<M>(data: SocketSidebandData, codec: Codec<M>, ghost expected: seq<Byte>)
      returns (success: bool, message: Option<M>)
    requires Ready(data) && IsInt64(|expected|) && |expected| <= data.bufferSize
    requires Frame(expected) <= data.socket.incoming || data.socket.incoming == []
    modifies data`serializeBuffer, data.socket`incoming, data.socket`stalls, data.socket`broken, data.serializeBuffer
    ensures Ready(data) && success == message.Some?
    ensures data.serializeBuffer == old(data.serializeBuffer) || fresh(data.serializeBuffer)
    ensures old(data.socket.broken) ==> data.socket.broken
    ensures !data.socket.broken ==>
      && message == codec.parse(expected)
      && |Frame(expected)| <= |old(data.socket.incoming)|
      && data.socket.incoming == old(data.socket.incoming)[|Frame(expected)|..]
    ensures old(data.socket.incoming) == [] ==> data.socket.broken && message == codec.parse([])
  {
    ghost var stream := data.socket.incoming;
    var length;
    ghost var taken, more;
    length, taken := data.ReadLengthPrefix();
    if stream == [] {
      ZeroLength();
    } else {
      CutPrefixFits(stream, expected, taken);
    }
    var buffer := data.SerializeBuffer();
    var ok, bytesRead;
    ok, bytesRead, more := data.ReadFromLengthPrefixed(buffer, length, 0);
    if !data.socket.broken {
      PayloadFollows(stream, expected);
      assert buffer[..length] == expected;
    }
    message := codec.parse(buffer[..length]);
    success := message.Some?;
  }

  /** The message read is the oldest one written, and it is consumed, unless the session fails. A session from
      which nothing comes any more is not reported: the empty string is parsed instead. */
  method ReadSidebandMessage<M>(token: Token, codec: Codec<M>, ghost expected: seq<Byte>)
      returns (success: bool, message: Option<M>)
    requires token.Fits(|expected|)
    requires token.SocketToken? ==>
      Frame(expected) <= token.socketData.socket.incoming || token.socketData.socket.incoming == []
    requires token.RdmaToken? && token.rdmaData.connectedReadSession.CanReceive() ==>
      token.rdmaData.connectedReadSession.Unread() != [] &&
      token.rdmaData.connectedReadSession.Unread()[0] == Frame(expected)
    modifies token.Footprint()
    ensures token.Fits(|expected|) && success == message.Some?
    ensures token.SocketToken? ==>
      var socket := token.socketData.socket;
      && (old(socket.broken) ==> socket.broken)
      && (!socket.broken ==>
            && message == codec.parse(expected)
            && |Frame(expected)| <= |old(socket.incoming)|
            && socket.incoming == old(socket.incoming)[|Frame(expected)|..])
      && (old(socket.incoming) == [] ==> message == codec.parse([]))
    ensures token.RdmaToken? && old(token.rdmaData.connectedReadSession.CanReceive()) ==>
      var read := token.rdmaData.connectedReadSession;
      && message == codec.parse(expected)
      && read.Unread() == old(read.Unread())[1..]
      && read.pool.taken == old(read.pool.taken)
    ensures token.RdmaToken? && !old(token.rdmaData.connectedReadSession.CanReceive()) ==>
      message == codec.parse([])
  {
    if token.SupportsDirectReadWrite() {
      success, message := ReadDirect(token.rdmaData, codec, expected);
    } else {
      success, message := ReadCopied(token.socketData, codec, expected);
    }
  }

  function SerializedAll<M>(codec: Codec<M>, ms: seq<M>): (r: seq<Message>)
    ensures |r| == |ms| && forall i :: 0 <= i < |ms| ==> r[i] == codec.serialize(ms[i])
  {
    seq(|ms|, i requires 0 <= i < |ms| => codec.serialize(ms[i]))
  }

  ghost predicate AllFit(bytes: seq<Message>, bufferSize: nat) {
    forall i :: 0 <= i < |bytes| ==> IsInt64(|bytes[i]|) && |bytes[i]| <= bufferSize
  }

  method WriteNext<M>(data: SocketSidebandData, codec: Codec<M>, message: M)
    requires Ready(data)
    requires IsInt64(|codec.serialize(message)|) && |codec.serialize(message)| <= data.bufferSize
    modifies data, data.socket, data.serializeBuffer
    ensures Ready(data) && data.id == old(data.id)
    ensures data.serializeBuffer == old(data.serializeBuffer) || fresh(data.serializeBuffer)
    ensures old(data.socket.broken) ==> data.socket.broken
    ensures !data.socket.broken ==>
      data.socket.outgoing == old(data.socket.outgoing) + Frame(codec.serialize(message))
  {
    ghost var sent;
    var byteSize;
    byteSize, sent := WriteSidebandMessage(SocketToken(data), codec, message);
    var bytes := codec.serialize(message);
    assert sent == |Frame(bytes)| ==> Frame(bytes)[..sent] == Frame(bytes);
  }

  lemma FramesAdvance(bytes: seq<Message>, i: nat, written: seq<Byte>)
    requires SocketStream.Framable(bytes) && i < |bytes|
    ensures written + SocketStream.Frames(bytes[i..])
         == (written + Frame(bytes[i])) + SocketStream.Frames(bytes[i + 1..])
  {
    assert bytes[i..][1..] == bytes[i + 1..];
  }

  /** A client: its usage id, then its messages. */
  method WriteSession<M>(data: SocketSidebandData, codec: Codec<M>, ms: seq<M>)
    requires IsText(data.id) && Ready(data) && AllFit(SerializedAll(codec, ms), data.bufferSize)
    modifies data, data.socket, data.serializeBuffer
    ensures data.id == old(data.id)
    ensures !data.socket.broken ==>
      data.socket.outgoing ==
        old(data.socket.outgoing) + TextBytes(data.id) + SocketStream.Frames(SerializedAll(codec, ms))
  {
    ghost var bytes := SerializedAll(codec, ms);
    ghost var written := data.socket.outgoing + TextBytes(data.id);
    ghost var everything := written + SocketStream.Frames(bytes);
    var ok;
    ghost var sent;
    ok, sent := data.SendUsageId();
    assert ok ==> TextBytes(data.id)[..sent] == TextBytes(data.id);
    assert bytes[0..] == bytes;
    var i := 0;
    while i < |ms|
      invariant 0 <= i <= |ms| && data.id == old(data.id) && Ready(data)
      invariant data.serializeBuffer == old(data.serializeBuffer) || fresh(data.serializeBuffer)
      invariant written + SocketStream.Frames(bytes[i..]) == everything
      invariant !data.socket.broken ==> data.socket.outgoing == written
    {
      assert bytes[i] == codec.serialize(ms[i]);
      WriteNext(data, codec, ms[i]);
      FramesAdvance(bytes, i, written);
      written := written + Frame(bytes[i]);
      i := i + 1;
    }
    assert written + [] == written;
  }

  /** A server: the connection id, then as many messages as the client has written. Whatever pieces the
      kernel moves, an unbroken connection yields exactly the id and the messages, in order. */
  method ReadSession<M(!new)>(data: SocketSidebandData, codec: Codec<M>, ghost id: string, ghost ms: seq<M>, count: nat)
      returns (received: seq<M>)
    requires Inverse(codec) && count == |ms|
    requires Ready(data) && AllFit(SerializedAll(codec, ms), data.bufferSize)
    requires IsText(id) && |id| == ID_LENGTH
    requires data.socket.incoming == TextBytes(id) + SocketStream.Frames(SerializedAll(codec, ms))
    modifies data, data.socket, data.serializeBuffer
    ensures !data.socket.broken ==> data.id == id && received == ms && data.socket.incoming == []
  {
    ghost var bytes := SerializedAll(codec, ms);
    ghost var stream := data.socket.incoming;
    received := [];
    ghost var taken := data.ReadConnectionId();
    assert stream[ID_LENGTH..] == SocketStream.Frames(bytes[0..]) by {
      assert bytes[0..] == bytes;
    }
    assert !data.socket.broken ==> data.id == id by {
      assert stream[..ID_LENGTH] + Zeros(0) == TextBytes(id);
    }
    var i := 0;
    while i < count && !data.socket.broken
      invariant 0 <= i <= count && Ready(data)
      invariant data.serializeBuffer == old(data.serializeBuffer) || fresh(data.serializeBuffer)
      invariant !data.socket.broken ==>
        data.id == id && received == ms[..i] && data.socket.incoming == SocketStream.Frames(bytes[i..])
      decreases count - i
    {
      FramesAdvance(bytes, i, []);
      assert SocketStream.Frames(bytes[i..]) == Frame(bytes[i]) + SocketStream.Frames(bytes[i + 1..]);
      var success, message := ReadCopied(data, codec, bytes[i]);
      if !data.socket.broken {
        assert codec.parse(codec.serialize(ms[i])) == Some(ms[i]);
        received := received + [message.value];
      }
      i := i + 1;
    }
    assert ms[..count] == ms && bytes[count..] == [];
  }
}
