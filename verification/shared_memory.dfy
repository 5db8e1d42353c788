/** The shared-memory transports: one mapped buffer, and two of them used in turn. */
module SharedMemory {
  import opened Bytes

  /** `mapping` is the named memory that mapping yields in every process, or null if it cannot be opened or
      given its size. (If only `mmap` fails, the source goes on with MAP_FAILED, which is not null.) */
  class SharedMemorySidebandData {
    const usageId: string
    const mapping: array?<Byte>
    var buffer: array?<Byte>

    ghost predicate Valid()
      reads this
    {
      buffer == null || buffer == mapping
    }

    constructor (usageId: string, mapping: array?<Byte>)
      ensures this.usageId == usageId && this.mapping == mapping && Valid()
    {
      this.usageId, this.mapping, buffer := usageId, mapping, null;
    }

    method GetBuffer() returns (ptr: array?<Byte>)
      requires Valid()
      modifies this
      ensures Valid() && ptr == mapping
    {
      if buffer == null {
        buffer := mapping;
      }
      ptr := buffer;
    }

    method Write(bytes: array<Byte>, byteCount: nat) returns (ok: bool)
      requires Valid() && byteCount <= bytes.Length && (mapping != null ==> byteCount <= mapping.Length)
      modifies this, mapping
      ensures Valid() && ok == (mapping != null)
      ensures ok ==> mapping[..] == Store(old(mapping[..]), 0, old(bytes[..byteCount]))
    {
      var ptr := GetBuffer();
      if ptr == null {
        return false;
      }
      Memcpy(ptr, 0, bytes[..byteCount]);
      return true;
    }

    /** `numBytesRead` is never set. */
    method Read(bytes: array<Byte>, count: nat) returns (ok: bool)
      requires Valid() && count <= bytes.Length && (mapping != null ==> count <= mapping.Length)
      modifies this, bytes
      ensures Valid() && ok == (mapping != null)
      ensures bytes[..] == if ok then Store(old(bytes[..]), 0, old(mapping[..count])) else old(bytes[..])
    {
      var ptr := GetBuffer();
      if ptr == null {
        return false;
      }
      Memcpy(bytes, 0, ptr[..count]);
      return true;
    }

    /** The length and behind it the payload; the rest of the buffer stays as it is. */
    method WriteLengthPrefixed(bytes: array<Byte>, byteCount: nat) returns (ok: bool)
      requires Valid() && byteCount <= bytes.Length && bytes != mapping && IsInt64(byteCount)
      requires mapping != null ==> PREFIX_SIZE + byteCount <= mapping.Length
      modifies this, mapping
      ensures Valid() && ok == (mapping != null)
      ensures ok ==> mapping[..] == Store(old(mapping[..]), 0, Frame(bytes[..byteCount]))
    {
      var ptr := GetBuffer();
      if ptr == null {
        return false;
      }
      ghost var before := ptr[..];
      Memcpy(ptr, 0, Encode64(byteCount));
      Memcpy(ptr, PREFIX_SIZE, bytes[..byteCount]);
      StorePrefixThenPayload(before, bytes[..byteCount]);
      return true;
    }

    method ReadFromLengthPrefixed(bytes: array<Byte>, count: nat) returns (ok: bool)
      requires Valid() && mapping != null && count <= bytes.Length && PREFIX_SIZE + count <= mapping.Length
      modifies this, bytes
      ensures Valid() && ok
      ensures bytes[..] == Store(old(bytes[..]), 0, old(mapping[PREFIX_SIZE..PREFIX_SIZE + count]))
    {
      var ptr := GetBuffer();
      Memcpy(bytes, 0, ptr[PREFIX_SIZE..PREFIX_SIZE + count]);
      return true;
    }

    method ReadLengthPrefix() returns (length: int)
      requires Valid() && mapping != null && mapping.Length >= PREFIX_SIZE
      modifies this
      ensures Valid() && length == Decode64(mapping[..PREFIX_SIZE])
    {
      var ptr := GetBuffer();
      length := Decode64(ptr[..PREFIX_SIZE]);
    }

    /** The pointer returned is into the mapping, at this offset; it is null if there is none. */
    method BeginDirectReadLengthPrefixed(previous: int) returns (ptr: array?<Byte>, offset: nat, length: int)
      requires Valid() && (mapping != null ==> mapping.Length >= PREFIX_SIZE)
      modifies this
      ensures Valid() && ptr == mapping
      ensures ptr != null ==> offset == PREFIX_SIZE && length == Decode64(ptr[..PREFIX_SIZE])
      ensures ptr == null ==> length == previous
    {
      ptr := GetBuffer();
      if ptr == null {
        return null, 0, previous;
      }
      return ptr, PREFIX_SIZE, Decode64(ptr[..PREFIX_SIZE]);
    }

    method BeginDirectRead(byteCount: int) returns (ptr: array?<Byte>, offset: nat)
      requires Valid()
      modifies this
      ensures Valid() && ptr == mapping && offset == 0
    {
      ptr := GetBuffer();
      offset := 0;
    }

    /** The start of the buffer: no room is left for a length. */
    method BeginDirectWrite() returns (ptr: array?<Byte>, offset: nat)
      requires Valid()
      modifies this
      ensures Valid() && ptr == mapping && offset == 0
    {
      ptr := GetBuffer();
      offset := 0;
    }
  }

  /** The buffer after these messages have been written with WriteLengthPrefixed, one over the other. */
  function AfterWrites(memory: seq<Byte>, ms: seq<Message>): (r: seq<Byte>)
    requires forall m :: m in ms ==> IsInt64(|m|) && PREFIX_SIZE + |m| <= |memory|
    ensures |r| == |memory|
  {
    if ms == [] then memory
    else Store(AfterWrites(memory, ms[..|ms| - 1]), 0, Frame(ms[|ms| - 1]))
  }

  /** ReadLengthPrefix, ReadFromLengthPrefixed and BeginDirectReadLengthPrefixed all find the last message
      written, and what lies beyond every message written is what was there at the start. */
  lemma {:induction false} LastMessageReadsBack(memory: seq<Byte>, ms: seq<Message>, reach: nat)
    requires ms != [] && forall m :: m in ms ==> IsInt64(|m|) && PREFIX_SIZE + |m| <= reach <= |memory|
    ensures var r, last := AfterWrites(memory, ms), ms[|ms| - 1];
      && Decode64(r[..PREFIX_SIZE]) == |last|
      && r[PREFIX_SIZE..PREFIX_SIZE + |last|] == last
      && r[reach..] == memory[reach..]
  {
    var earlier, last := ms[..|ms| - 1], ms[|ms| - 1];
    var before := AfterWrites(memory, earlier);
    if earlier != [] {
      LastMessageReadsBack(memory, earlier, reach);
    }
    var r := Store(before, 0, Frame(last));
    assert Frame(last) <= r by {
      assert r[..|Frame(last)|] == Frame(last);
    }
    FrameReadsBack(r, last);
    var n := |Frame(last)|;
    assert r[reach..] == r[n..][reach - n..] == before[n..][reach - n..] == before[reach..];
  }

  /** What a length-prefixed reader makes of a buffer. */
  ghost predicate ReadsAs(memory: seq<Byte>, m: Message)
    requires PREFIX_SIZE + |m| <= |memory|
  {
    Decode64(memory[..PREFIX_SIZE]) == |m| && memory[PREFIX_SIZE..PREFIX_SIZE + |m|] == m
  }

  /** The byte at this place when the length `n` is stored over and over again. */
  function LengthByte(n: nat, i: nat): Byte
    requires IsInt64(n)
  {
    Encode64(n)[i % PREFIX_SIZE]
  }

  /** Between these places there is the length `n` over and over again. */
  ghost predicate RepeatsLength(data: seq<Byte>, n: nat, from: nat, to: nat)
    requires IsInt64(n) && to <= |data|
  {
    forall i :: from <= i < to ==> data[i] == LengthByte(n, i)
  }

  lemma SamePlace(i: nat)
    ensures i < PREFIX_SIZE ==> i % PREFIX_SIZE == i
    ensures i >= PREFIX_SIZE ==> (i - PREFIX_SIZE) % PREFIX_SIZE == i % PREFIX_SIZE
  {
  }

  lemma {:induction false} FrameRepeats(bytes: Message, w: seq<Byte>, i: nat)
    requires IsInt64(|bytes|) && w == Frame(bytes) && bytes <= w && i < |w|
    ensures w[i] == LengthByte(|bytes|, i)
  {
    SamePlace(i);
    if i >= PREFIX_SIZE {
      FrameRepeats(bytes, w, i - PREFIX_SIZE);
      assert w[i] == bytes[i - PREFIX_SIZE] == w[i - PREFIX_SIZE];
    }
  }

  lemma RepeatsAreFrame(bytes: Message, w: seq<Byte>, i: nat)
    requires IsInt64(|bytes|) && |w| == PREFIX_SIZE + |bytes| && bytes <= w && i < |w|
    requires RepeatsLength(w, |bytes|, 0, |w|)
    ensures w[i] == Frame(bytes)[i]
  {
    SamePlace(i);
    if i >= PREFIX_SIZE {
      assert Frame(bytes)[i] == bytes[i - PREFIX_SIZE] == w[i - PREFIX_SIZE] == LengthByte(|bytes|, i);
    }
  }

  /** Bytes that begin with themselves and are their own frame are their own length over and over again. */
  lemma OwnFrameExactly(bytes: Message, w: seq<Byte>)
    requires IsInt64(|bytes|) && |w| == PREFIX_SIZE + |bytes| && bytes <= w
    ensures w == Frame(bytes) <==> RepeatsLength(w, |bytes|, 0, |w|)
  {
    if w == Frame(bytes) {
      forall i | 0 <= i < |w|
        ensures w[i] == LengthByte(|bytes|, i)
      {
        FrameRepeats(bytes, w, i);
      }
    }
    if RepeatsLength(w, |bytes|, 0, |w|) {
      forall i | 0 <= i < |w|
        ensures w[i] == Frame(bytes)[i]
      {
        RepeatsAreFrame(bytes, w, i);
      }
    }
  }

  lemma StoredAt(memory: seq<Byte>, data: seq<Byte>, i: nat)
    requires |data| <= |memory| && i < |memory|
    ensures Store(memory, 0, data)[i] == if i < |data| then data[i] else memory[i]
  {
  }

  lemma ReadsAsExactly(memory: seq<Byte>, m: Message)
    requires IsInt64(|m|) && PREFIX_SIZE + |m| <= |memory|
    ensures ReadsAs(memory, m) <==> memory[..PREFIX_SIZE + |m|] == Frame(m)
  {
    assert memory[..PREFIX_SIZE + |m|] == memory[..PREFIX_SIZE] + memory[PREFIX_SIZE..PREFIX_SIZE + |m|];
    if ReadsAs(memory, m) {
      PrefixBytesRoundTrip(memory[..PREFIX_SIZE]);
    }
    if memory[..PREFIX_SIZE + |m|] == Frame(m) {
      FrameReadsBack(memory, m);
    }
  }

  /** Bytes stored at offset 0 without a length come back as a message exactly if they, and the eight bytes of
      the old contents behind them, are the representation of their length over and over again. */
  lemma BareBytesReadBackExactly(memory: seq<Byte>, bytes: Message)
    requires IsInt64(|bytes|) && PREFIX_SIZE + |bytes| <= |memory|
    ensures ReadsAs(Store(memory, 0, bytes), bytes) <==>
      && RepeatsLength(bytes, |bytes|, 0, |bytes|)
      && RepeatsLength(memory, |bytes|, |bytes|, |bytes| + PREFIX_SIZE)
  {
    var n := |bytes|;
    var stored := Store(memory, 0, bytes);
    var w := stored[..PREFIX_SIZE + n];
    assert w[..n] == stored[..n] == bytes;
    forall i | 0 <= i < |w|
      ensures w[i] == if i < n then bytes[i] else memory[i]
    {
      StoredAt(memory, bytes, i);
    }
    ReadsAsExactly(stored, bytes);
    OwnFrameExactly(bytes, w);
  }

  /** `WriteSidebandMessage` on shared memory: the payload at offset 0 (BeginDirectWrite), and no length
      (FinishDirectWrite). `ReadSidebandMessage` then expects the length at offset 0 and the payload behind
      it, so a message fails to come back whenever its first byte is not the low byte of its own size. */
  lemma DirectMessageIsLost(memory: seq<Byte>, bytes: Message)
    requires IsInt64(|bytes|) && PREFIX_SIZE + |bytes| <= |memory|
    requires bytes != [] && bytes[0] != |bytes| % 256
    ensures !ReadsAs(Store(memory, 0, bytes), bytes)
  {
    BareBytesReadBackExactly(memory, bytes);
    FirstByteOfPrefix(|bytes|);
    assert LengthByte(|bytes|, 0) == |bytes| % 256;
  }

  lemma FirstByteOfPrefix(n: nat)
    requires IsInt64(n)
    ensures Encode64(n)[0] == n % 256
  {
  }

  /** Two shared buffers, and the one the next operation of this side uses. */
  class DoubleBufferedSharedMemorySidebandData {
    const bufferA: SharedMemorySidebandData
    const bufferB: SharedMemorySidebandData
    var current: SharedMemorySidebandData

    ghost predicate Valid()
      reads this, bufferA, bufferB
    {
      && bufferA != bufferB && bufferA.Valid() && bufferB.Valid()
      && (current == bufferA || current == bufferB)
    }

    constructor (mappingA: array?<Byte>, mappingB: array?<Byte>)
      ensures Valid() && current == bufferA && fresh(bufferA) && fresh(bufferB)
      ensures bufferA.mapping == mappingA && bufferB.mapping == mappingB
    {
      var a := new SharedMemorySidebandData("TestBuffer_A", mappingA);
      var b := new SharedMemorySidebandData("TestBuffer_B", mappingB);
      bufferA, bufferB, current := a, b, a;
    }

    function Other(): (other: SharedMemorySidebandData)
      reads this
      ensures current == bufferA ==> other == bufferB
      ensures current == bufferB ==> other == bufferA
    {
      if current == bufferA then bufferB else bufferA
    }

    /** Goes to the current buffer, and on to the other one, even if the buffer cannot be mapped. */
    method Write(bytes: array<Byte>, byteCount: nat) returns (ok: bool)
      requires Valid() && byteCount <= bytes.Length
      requires current.mapping != null ==> byteCount <= current.mapping.Length
      modifies this, current, current.mapping
      ensures Valid() && current == old(Other()) && ok == (old(current).mapping != null)
      ensures ok ==> old(current).mapping[..] == Store(old(current.mapping[..]), 0, old(bytes[..byteCount]))
    {
      ok := current.Write(bytes, byteCount);
      current := if current == bufferA then bufferB else bufferA;
    }

    method Read(bytes: array<Byte>, count: nat) returns (ok: bool)
      requires Valid() && count <= bytes.Length
      requires current.mapping != null ==> count <= current.mapping.Length
      modifies this, current, bytes
      ensures Valid() && current == old(Other()) && ok == (old(current).mapping != null)
      ensures bytes[..] == if ok then Store(old(bytes[..]), 0, old(current.mapping[..count])) else old(bytes[..])
    {
      ok := current.Read(bytes, count);
      current := if current == bufferA then bufferB else bufferA;
    }

    /** The length at offset 0, and then the payload at offset 0 as well. */
    method WriteLengthPrefixed(bytes: array<Byte>, byteCount: nat) returns (ok: bool)
      requires Valid() && byteCount <= bytes.Length && IsInt64(byteCount) && bytes != current.mapping
      requires current.mapping != null ==> PREFIX_SIZE + byteCount <= current.mapping.Length
      modifies this, current, current.mapping
      ensures Valid() && ok == (old(current).mapping != null)
      ensures current == if ok then old(Other()) else old(current)
      ensures ok ==>
        old(current).mapping[..] ==
          Store(Store(old(current.mapping[..]), 0, Encode64(byteCount)), 0, bytes[..byteCount])
    {
      var size := Encode64(byteCount);
      var prefix := new Byte[PREFIX_SIZE](i requires 0 <= i < PREFIX_SIZE => size[i]);
      assert prefix[..PREFIX_SIZE] == size;
      ok := current.Write(prefix, PREFIX_SIZE);
      if !ok {
        return false;
      }
      ok := current.Write(bytes, byteCount);
      if !ok {
        return false;
      }
      current := if current == bufferA then bufferB else bufferA;
      return true;
    }

    /** The length stays readable: only ReadFromLengthPrefixed goes on to the other buffer. */
    method ReadLengthPrefix() returns (length: int)
      requires Valid() && current.mapping != null && current.mapping.Length >= PREFIX_SIZE
      modifies current
      ensures Valid() && current == old(current) && length == Decode64(current.mapping[..PREFIX_SIZE])
    {
      length := current.ReadLengthPrefix();
    }

    method ReadFromLengthPrefixed(bytes: array<Byte>, count: nat) returns (ok: bool)
      requires Valid() && count <= bytes.Length
      requires current.mapping != null && PREFIX_SIZE + count <= current.mapping.Length
      modifies this, current, bytes
      ensures Valid() && ok && current == old(Other())
      ensures bytes[..] == Store(old(bytes[..]), 0, old(current.mapping[PREFIX_SIZE..PREFIX_SIZE + count]))
    {
      ok := current.ReadFromLengthPrefixed(bytes, count);
      current := if current == bufferA then bufferB else bufferA;
    }

    method BeginDirectRead(byteCount: int) returns (ptr: array?<Byte>, offset: nat)
      requires Valid()
      modifies current
      ensures Valid() && current == old(current) && ptr == current.mapping && offset == 0
    {
      ptr, offset := current.BeginDirectRead(byteCount);
    }

    method BeginDirectReadLengthPrefixed(previous: int) returns (ptr: array?<Byte>, offset: nat, length: int)
      requires Valid() && (current.mapping != null ==> current.mapping.Length >= PREFIX_SIZE)
      modifies current
      ensures Valid() && current == old(current) && ptr == current.mapping
      ensures ptr != null ==> offset == PREFIX_SIZE && length == Decode64(ptr[..PREFIX_SIZE])
      ensures ptr == null ==> length == previous
    {
      ptr, offset, length := current.BeginDirectReadLengthPrefixed(previous);
    }

    method BeginDirectWrite() returns (ptr: array?<Byte>, offset: nat)
      requires Valid()
      modifies current
      ensures Valid() && current == old(current) && ptr == current.mapping && offset == 0
    {
      ptr, offset := current.BeginDirectWrite();
    }

    method FinishDirectRead() returns (ok: bool)
      requires Valid()
      modifies this
      ensures Valid() && ok && current == old(Other())
    {
      current := if current == bufferA then bufferB else bufferA;
      return true;
    }

    method FinishDirectWrite(byteCount: nat) returns (ok: bool)
      requires Valid()
      modifies this
      ensures Valid() && ok && current == old(Other())
    {
      current := if current == bufferA then bufferB else bufferA;
      return true;
    }
  }

  lemma PrefixStored(memory: seq<Byte>, n: nat)
    requires IsInt64(n) && PREFIX_SIZE <= |memory|
    ensures forall i :: 0 <= i < |memory| ==>
      Store(memory, 0, Encode64(n))[i] == if i < PREFIX_SIZE then LengthByte(n, i) else memory[i]
  {
    forall i | 0 <= i < |memory|
      ensures Store(memory, 0, Encode64(n))[i] == if i < PREFIX_SIZE then LengthByte(n, i) else memory[i]
    {
      StoredAt(memory, Encode64(n), i);
    }
  }

  lemma PrefixRepeats(memory: seq<Byte>, prefixed: seq<Byte>, n: nat)
    requires IsInt64(n) && PREFIX_SIZE + n <= |memory| == |prefixed|
    requires forall i :: 0 <= i < |memory| ==> prefixed[i] == if i < PREFIX_SIZE then LengthByte(n, i) else memory[i]
    ensures RepeatsLength(prefixed, n, n, n + PREFIX_SIZE) <==>
      RepeatsLength(memory, n, if n < PREFIX_SIZE then PREFIX_SIZE else n, n + PREFIX_SIZE)
  {
  }

  /** A length-prefixed message through the double buffer, whose payload is stored over its own length, comes
      back exactly if its payload, and the old contents between the ends of the length and of the frame, are
      the representation of its length over and over again. */
  lemma DoubleBufferedPrefixExactly(memory: seq<Byte>, m: Message)
    requires IsInt64(|m|) && PREFIX_SIZE + |m| <= |memory|
    ensures ReadsAs(Store(Store(memory, 0, Encode64(|m|)), 0, m), m) <==>
      && RepeatsLength(m, |m|, 0, |m|)
      && RepeatsLength(memory, |m|, if |m| < PREFIX_SIZE then PREFIX_SIZE else |m|, |m| + PREFIX_SIZE)
  {
    var prefixed := Store(memory, 0, Encode64(|m|));
    BareBytesReadBackExactly(prefixed, m);
    PrefixStored(memory, |m|);
    PrefixRepeats(memory, prefixed, |m|);
  }

  /** So the empty message always comes back, and no message whose first byte is not the low byte of its size. */
  lemma DoubleBufferedPrefixMostlyLost(memory: seq<Byte>, m: Message)
    requires IsInt64(|m|) && PREFIX_SIZE + |m| <= |memory|
    ensures var after := Store(Store(memory, 0, Encode64(|m|)), 0, m);
      && (m == [] ==> ReadsAs(after, m))
      && (m != [] && m[0] != |m| % 256 ==> !ReadsAs(after, m))
  {
    DoubleBufferedPrefixExactly(memory, m);
    if m != [] && m[0] != |m| % 256 {
      DirectMessageIsLost(Store(memory, 0, Encode64(|m|)), m);
    }
  }
}
