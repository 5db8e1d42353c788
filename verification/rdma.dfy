/** The RDMA transport as it runs: `RdmaSidebandDataImp` over two sessions of the RDMA library. */
module Rdma {
  import opened Bytes
  import opened RdmaPool
  import opened Options

  datatype Status = Success | Timeout | Failure

  /** A connected sending session. The network transmits queued regions, oldest first, whenever it likes. */
  class SendSession {
    const size: nat
    var pool: Pool
    var transmitted: seq<seq<Byte>>
    var broken: bool  // a region could not be queued

    ghost predicate Valid()
      reads this
    {
      pool.Valid(size)
    }

    /** Everything queued on this session so far, in order. */
    ghost function Queued(): seq<seq<Byte>>
      requires Valid()
      reads this
    {
      transmitted + pool.PendingData(size)
    }

    predicate CanAcquire()
      reads this
    {
      pool.idle != {} || pool.pending != []
    }

    constructor (size: nat)
      ensures Valid() && this.size == size && Queued() == [] && pool == Configured(size)
    {
      this.size, pool, transmitted, broken := size, Configured(size), [], false;
    }

    /** The network sends off the oldest queued region. */
    method Transmit()
      requires Valid() && pool.pending != []
      modifies this
      ensures Valid() && Queued() == old(Queued()) && pool.idle != {} && broken == old(broken)
      ensures pool.memory == old(pool.memory) && pool.taken == old(pool.taken)
    {
      ghost var data := pool.PendingData(size);
      TransmittedConserves(pool, size);
      pool.PendingInRange(size);
      assert transmitted + data == transmitted + [data[0]] + data[1..];
      transmitted, pool := transmitted + [pool.Data(pool.pending[0])], pool.Transmitted();
    }

    /** Waits, without a timeout, until some region is free; if both are acquired there is none to wait for. */
    method AcquireSendRegion() returns (status: Status, region: nat)
      requires Valid()
      modifies this
      ensures Valid() && Queued() == old(Queued()) && pool.memory == old(pool.memory) && broken == old(broken)
      ensures status == if old(CanAcquire()) then Success else Failure
      ensures status.Success? ==> region in ALL_REGIONS - old(pool.taken) && pool.taken == old(pool.taken) + {region}
      ensures !status.Success? ==> pool == old(pool)
    {
      region := 0;
      if pool.idle == {} && pool.pending == [] {
        return Failure, region;
      }
      if pool.idle == {} {
        Transmit();
      }
      region :| region in pool.idle;
      AcquireConserves(pool, region, size);
      SamePending(pool, pool.Acquire(region), size);
      pool := pool.Acquire(region);
      status := Success;
    }

    /** A store through the pointer to an acquired region. */
    method Poke(region: nat, offset: nat, data: seq<Byte>)
      requires Valid() && region in pool.taken && offset + |data| <= size
      modifies this`pool
      ensures Valid() && Queued() == old(Queued()) && pool.taken == old(pool.taken)
      ensures region in ALL_REGIONS
      ensures pool.memory == old(pool.memory)[region := Store(old(pool.memory)[region], offset, data)]
    {
      PokeConserves(pool, region, offset, data, size);
      SamePending(pool, pool.Poke(region, offset, data), size);
      pool := pool.Poke(region, offset, data);
    }

    /** Queueing may fail, and then the region stays acquired. */
    method QueueBufferRegion(region: nat, used: nat) returns (ok: bool)
      requires Valid() && region in pool.taken && used <= size
      modifies this`pool, this`broken
      ensures Valid() && region in ALL_REGIONS && pool.memory == old(pool.memory)
      ensures broken == (old(broken) || !ok)
      ensures pool.taken == if ok then old(pool.taken) - {region} else old(pool.taken)
      ensures Queued() == if ok then old(Queued()) + [old(pool.memory)[region][..used]] else old(Queued())
    {
      QueueConserves(pool, region, used, size);
      if * {
        broken := true;
        return false;
      }
      pool := pool.Queue(region, used);
      return true;
    }
  }

  /** A connected receiving session. `incoming` is what the peer sends that no region holds yet. */
  class ReceiveSession {
    const size: nat
    var pool: Pool
    var incoming: seq<seq<Byte>>
    var timeouts: nat

    ghost predicate Valid()
      reads this
    {
      pool.Valid(size) && forall i :: 0 <= i < |incoming| ==> |incoming[i]| <= size
    }

    /** What AcquireReceivedRegion has yet to hand out, in order. */
    ghost function Unread(): seq<seq<Byte>>
      requires Valid()
      reads this
    {
      pool.PendingData(size) + incoming
    }

    predicate CanReceive()
      reads this
    {
      pool.pending != [] || (pool.idle != {} && incoming != [])
    }

    constructor (size: nat, incoming: seq<seq<Byte>>, timeouts: nat)
      requires forall i :: 0 <= i < |incoming| ==> |incoming[i]| <= size
      ensures Valid() && this.size == size && Unread() == incoming && pool == Configured(size)
    {
      this.size, pool, this.incoming, this.timeouts := size, Configured(size), incoming, timeouts;
    }

    /** The network places the peer's next buffer in a posted region. */
    method Arrive()
      requires Valid() && pool.idle != {} && incoming != []
      modifies this`pool, this`incoming
      ensures Valid() && Unread() == old(Unread()) && pool.pending != [] && pool.taken == old(pool.taken)
    {
      var r :| r in pool.idle;
      FillConserves(pool, r, incoming[0], size);
      pool.PendingInRange(size);
      ghost var before := pool.PendingData(size);
      assert before + [incoming[0]] + incoming[1..] == before + incoming;
      pool, incoming := pool.Fill(r, incoming[0]), incoming[1..];
    }

    /** The oldest filled region goes to the application. */
    method TakeOldest() returns (region: nat, used: nat)
      requires Valid() && pool.pending != []
      modifies this`pool
      ensures Valid() && old(Unread()) != [] && Unread() == old(Unread())[1..]
      ensures region in ALL_REGIONS - old(pool.taken) && pool.taken == old(pool.taken) + {region}
      ensures used <= size && pool.memory[region][..used] == old(Unread())[0]
    {
      region, used := pool.pending[0].region, pool.pending[0].used;
      ghost var data := pool.PendingData(size);
      HeadLeaves(pool, size);
      AcquireReceivedConserves(pool, size);
      assert (data + incoming)[1..] == data[1..] + incoming;
      pool := pool.AcquireReceived();
    }

    /** Hands out the oldest filled region; it may report a timeout a finite number of times first. */
    method AcquireReceivedRegion() returns (status: Status, region: nat, used: nat)
      requires Valid()
      modifies this
      ensures Valid()
      ensures status.Timeout? ==> timeouts < old(timeouts) && pool == old(pool) && incoming == old(incoming)
      ensures status.Failure? ==> !old(CanReceive()) && pool == old(pool) && incoming == old(incoming)
      ensures status.Success? ==>
        && old(CanReceive()) && old(Unread()) != [] && Unread() == old(Unread())[1..]
        && region in ALL_REGIONS - old(pool.taken) && pool.taken == old(pool.taken) + {region}
        && used <= size && pool.memory[region][..used] == old(Unread())[0]
    {
      region, used := 0, 0;
      if timeouts > 0 {
        if * {
          timeouts := timeouts - 1;
          return Timeout, region, used;
        }
      }
      if !CanReceive() {
        return Failure, region, used;
      }
      if pool.pending == [] {
        Arrive();
      }
      region, used := TakeOldest();
      status := Success;
    }

    method ReleaseReceivedBufferRegion(region: Option<nat>)
      requires Valid()
      modifies this`pool
      ensures Valid() && Unread() == old(Unread()) && pool.memory == old(pool.memory) && incoming == old(incoming)
      ensures pool.taken == if region.Some? then old(pool.taken) - {region.value} else old(pool.taken)
    {
      ReleaseConserves(pool, region, size);
      SamePending(pool, pool.Release(region), size);
      pool := pool.Release(region);
    }
  }

  class RdmaSidebandDataImp {
    const connectedWriteSession: SendSession
    const connectedReadSession: ReceiveSession
    const bufferSize: nat
    var writeRegion: Option<nat>  // the region `_writeBuffer` describes; a failing acquisition leaves it alone
    var readRegion: Option<nat>   // the region `_readBuffer` describes, and its usedSize
    var readUsed: nat

    ghost predicate Valid()
      reads this, connectedWriteSession, connectedReadSession
    {
      && connectedWriteSession.Valid() && connectedWriteSession.size == bufferSize
      && connectedReadSession.Valid() && connectedReadSession.size == bufferSize
      && (writeRegion.Some? ==> writeRegion.value in ALL_REGIONS)
      && (readRegion.Some? ==> readRegion.value in ALL_REGIONS)
    }

    constructor (write: SendSession, read: ReceiveSession, bufferSize: nat)
      requires write.Valid() && read.Valid() && write.size == read.size == bufferSize
      ensures connectedWriteSession == write && connectedReadSession == read && this.bufferSize == bufferSize
      ensures Valid()
    {
      connectedWriteSession, connectedReadSession, this.bufferSize := write, read, bufferSize;
      writeRegion, readRegion, readUsed := None, None, 0;
    }

    /** The bytes are queued as one buffer, and every region is free or queued again afterwards. The call fails
        if no region can be acquired, or if the region acquired cannot be queued; then it stays acquired. */
    method Write(bytes: array<Byte>, byteCount: nat) returns (ok: bool)
      requires Valid() && byteCount <= bytes.Length && byteCount <= bufferSize
      modifies this`writeRegion, connectedWriteSession
      ensures Valid() && (ok ==> old(connectedWriteSession.CanAcquire()))
      ensures connectedWriteSession.broken ==
        (old(connectedWriteSession.broken) || (old(connectedWriteSession.CanAcquire()) && !ok))
      ensures ok || !old(connectedWriteSession.CanAcquire()) ==>
        connectedWriteSession.pool.taken == old(connectedWriteSession.pool.taken)
      ensures !ok && old(connectedWriteSession.CanAcquire()) ==>
        && writeRegion.Some? && writeRegion.value !in old(connectedWriteSession.pool.taken)
        && connectedWriteSession.pool.taken == old(connectedWriteSession.pool.taken) + {writeRegion.value}
      ensures connectedWriteSession.Queued() ==
        if ok then old(connectedWriteSession.Queued()) + [bytes[..byteCount]] else old(connectedWriteSession.Queued())
    {
      var status, region := connectedWriteSession.AcquireSendRegion();
      if !status.Success? {
        return false;
      }
      writeRegion := Some(region);
      connectedWriteSession.Poke(region, 0, bytes[..byteCount]);
      ok := connectedWriteSession.QueueBufferRegion(region, byteCount);
    }

    /** `_readBuffer` describes a region acquired since, which carries the buffer that was oldest. */
    twostate predicate HoldsOldest()
      requires old(Valid()) && Valid()
      reads this, connectedReadSession, connectedWriteSession
    {
      && old(connectedReadSession.Unread()) != []
      && connectedReadSession.Unread() == old(connectedReadSession.Unread())[1..]
      && readRegion.Some? && readRegion.value !in old(connectedReadSession.pool.taken)
      && connectedReadSession.pool.taken == old(connectedReadSession.pool.taken) + {readRegion.value}
      && readUsed <= bufferSize
      && connectedReadSession.pool.memory[readRegion.value][..readUsed] == old(connectedReadSession.Unread())[0]
    }

    /** `easyrdma_AcquireReceivedRegion` into an emptied `_readBuffer`, again after every timeout. */
    method AcquireOldest() returns (ok: bool)
      requires Valid()
      modifies this`readRegion, this`readUsed, connectedReadSession
      ensures Valid() && ok == old(connectedReadSession.CanReceive())
      ensures ok ==> HoldsOldest()
      ensures !ok ==> connectedReadSession.pool == old(connectedReadSession.pool) && readRegion == None
    {
      readRegion, readUsed := None, 0;
      var status := Timeout;
      while status.Timeout?
        invariant Valid()
        invariant !status.Success? ==>
          && readRegion == None
          && connectedReadSession.pool == old(connectedReadSession.pool)
          && connectedReadSession.incoming == old(connectedReadSession.incoming)
        invariant status.Failure? ==> !old(connectedReadSession.CanReceive())
        invariant status.Success? ==> old(connectedReadSession.CanReceive()) && HoldsOldest()
        decreases status.Timeout?, connectedReadSession.timeouts
      {
        var region, used;
        status, region, used := connectedReadSession.AcquireReceivedRegion();
        if status.Success? {
          readRegion, readUsed := Some(region), used;
        }
      }
      ok := status.Success?;
    }

    /** With a destination the oldest buffer is copied out, if it fits, and released; without one it stays
        held in `_readBuffer`. */
    method Read(bytes: array?<Byte>, count: nat, previous: int) returns (ok: bool, numBytesRead: int)
      requires Valid() && (bytes != null ==> count <= bytes.Length)
      modifies this`readRegion, this`readUsed, connectedReadSession, bytes
      ensures Valid() && ok == old(connectedReadSession.CanReceive())
      ensures !ok ==>
        connectedReadSession.pool == old(connectedReadSession.pool) && readRegion == None && numBytesRead == previous
      ensures ok && bytes != null ==>
        var unread := old(connectedReadSession.Unread());
        && unread != [] && connectedReadSession.Unread() == unread[1..]
        && numBytesRead == |unread[0]|
        && connectedReadSession.pool.taken == old(connectedReadSession.pool.taken)
        && bytes[..] == if |unread[0]| <= count then Store(old(bytes[..]), 0, unread[0]) else old(bytes[..])
      ensures ok && bytes == null ==> numBytesRead == previous && HoldsOldest()
    {
      numBytesRead := previous;
      ok := AcquireOldest();
      if ok && bytes != null {
        if count >= readUsed {
          Memcpy(bytes, 0, connectedReadSession.pool.memory[readRegion.value][..readUsed]);
        }
        numBytesRead := readUsed;
        connectedReadSession.ReleaseReceivedBufferRegion(readRegion);
      }
    }

    /** Some region can be had, or `_writeBuffer` still describes one. */
    predicate HasWriteRegion()
      reads this, connectedWriteSession
    {
      connectedWriteSession.CanAcquire() || writeRegion.Some?
    }

    /** The acquisition of the writing calls that ignore its result: when it fails, the region of the last
        write, held like the other one, is used again. */
    method AcquireForWriting() returns (region: nat)
      requires Valid() && HasWriteRegion()
      modifies this`writeRegion, connectedWriteSession
      ensures Valid() && writeRegion == Some(region)
      ensures connectedWriteSession.broken == old(connectedWriteSession.broken)
      ensures connectedWriteSession.Queued() == old(connectedWriteSession.Queued())
      ensures old(connectedWriteSession.CanAcquire()) ==>
        && region !in old(connectedWriteSession.pool.taken)
        && connectedWriteSession.pool.taken == old(connectedWriteSession.pool.taken) + {region}
      ensures !old(connectedWriteSession.CanAcquire()) ==>
        && writeRegion == old(writeRegion)
        && connectedWriteSession.pool == old(connectedWriteSession.pool)
        && connectedWriteSession.pool.taken == ALL_REGIONS
    {
      var status, acquired := connectedWriteSession.AcquireSendRegion();
      if status.Success? {
        writeRegion := Some(acquired);
      }
      region := writeRegion.value;
    }

    /** A frame is queued as one buffer: in a region acquired for it, or else in the one that a direct write
        holds. If queueing fails, that region is held afterwards. */
    method WriteLengthPrefixed(bytes: array<Byte>, byteCount: nat) returns (ok: bool)
      requires Valid() && byteCount <= bytes.Length && PREFIX_SIZE + byteCount <= bufferSize && IsInt64(byteCount)
      requires HasWriteRegion()
      modifies this`writeRegion, connectedWriteSession
      ensures Valid() && writeRegion.Some? && connectedWriteSession.broken == (old(connectedWriteSession.broken) || !ok)
      ensures connectedWriteSession.Queued() == old(connectedWriteSession.Queued()) +
        if ok then [Frame(bytes[..byteCount])] else []
      ensures ok ==>
        connectedWriteSession.pool.taken ==
          if old(connectedWriteSession.CanAcquire()) then old(connectedWriteSession.pool.taken)
          else ALL_REGIONS - {old(writeRegion).value}
      ensures !ok ==> connectedWriteSession.pool.taken == old(connectedWriteSession.pool.taken) + {writeRegion.value}
    {
      var region := AcquireForWriting();
      StorePrefixThenPayload(connectedWriteSession.pool.memory[region], bytes[..byteCount]);
      connectedWriteSession.Poke(region, 0, Encode64(byteCount));
      connectedWriteSession.Poke(region, PREFIX_SIZE, bytes[..byteCount]);
      ok := connectedWriteSession.QueueBufferRegion(region, PREFIX_SIZE + byteCount);
    }

    /** A pointer eight bytes into an acquired region; into the region of the write before, if there is none
        to acquire. */
    method BeginDirectWrite() returns (region: nat, offset: nat)
      requires Valid() && HasWriteRegion()
      modifies this`writeRegion, connectedWriteSession
      ensures Valid() && offset == PREFIX_SIZE && writeRegion == Some(region)
      ensures connectedWriteSession.broken == old(connectedWriteSession.broken)
      ensures connectedWriteSession.Queued() == old(connectedWriteSession.Queued())
      ensures old(connectedWriteSession.CanAcquire()) ==>
        && region !in old(connectedWriteSession.pool.taken)
        && connectedWriteSession.pool.taken == old(connectedWriteSession.pool.taken) + {region}
      ensures !old(connectedWriteSession.CanAcquire()) ==>
        && writeRegion == old(writeRegion)
        && connectedWriteSession.pool == old(connectedWriteSession.pool)
        && connectedWriteSession.pool.taken == ALL_REGIONS
    {
      region := AcquireForWriting();
      offset := PREFIX_SIZE;
    }

    /** The region is queued with its length stored in front of the payload, or stays held. */
    method FinishDirectWrite(byteCount: nat) returns (ok: bool)
      requires Valid() && writeRegion.Some? && writeRegion.value in connectedWriteSession.pool.taken
      requires PREFIX_SIZE + byteCount <= bufferSize && IsInt64(byteCount)
      modifies connectedWriteSession
      ensures Valid() && connectedWriteSession.broken == (old(connectedWriteSession.broken) || !ok)
      ensures connectedWriteSession.pool.taken ==
        old(connectedWriteSession.pool.taken) - if ok then {writeRegion.value} else {}
      ensures connectedWriteSession.Queued() == old(connectedWriteSession.Queued()) +
        if ok then
          var memory := old(connectedWriteSession.pool.memory)[writeRegion.value];
          [Frame(memory[PREFIX_SIZE..PREFIX_SIZE + byteCount])]
        else []
    {
      var region := writeRegion.value;
      ghost var before := connectedWriteSession.pool.memory[region];
      StoreThenPrefix(before, before[PREFIX_SIZE..PREFIX_SIZE + byteCount]);
      connectedWriteSession.Poke(region, 0, Encode64(byteCount));
      ok := connectedWriteSession.QueueBufferRegion(region, PREFIX_SIZE + byteCount);
    }

    /** The oldest buffer stays held; the length it starts with and a pointer behind it are returned. */
    method BeginDirectReadLengthPrefixed(previous: int) returns (ok: bool, length: int, offset: nat)
      requires Valid() && bufferSize >= PREFIX_SIZE
      modifies this`readRegion, this`readUsed, connectedReadSession
      ensures Valid() && ok == old(connectedReadSession.CanReceive()) && offset == PREFIX_SIZE
      ensures !ok ==>
        connectedReadSession.pool == old(connectedReadSession.pool) && readRegion == None && length == previous
      ensures ok ==>
        HoldsOldest() && length == Decode64(connectedReadSession.pool.memory[readRegion.value][..PREFIX_SIZE])
    {
      var n;
      length, offset := previous, PREFIX_SIZE;
      ok, n := Read(null, 0, 0);
      if ok {
        length := Decode64(connectedReadSession.pool.memory[readRegion.value][..PREFIX_SIZE]);
      }
    }

    /** After a failing read there is no region to release. */
    method FinishDirectRead() returns (ok: bool)
      requires Valid()
      modifies connectedReadSession
      ensures Valid() && ok && connectedReadSession.Unread() == old(connectedReadSession.Unread())
      ensures connectedReadSession.pool.taken ==
        if readRegion.Some? then old(connectedReadSession.pool.taken) - {readRegion.value}
        else old(connectedReadSession.pool.taken)
    {
      connectedReadSession.ReleaseReceivedBufferRegion(readRegion);
      ok := true;
    }

    /** A failed acquisition reads as length zero; a successful one leaves the region held. */
    method ReadLengthPrefix() returns (length: int)
      requires Valid() && bufferSize >= PREFIX_SIZE
      modifies this`readRegion, this`readUsed, connectedReadSession
      ensures Valid()
      ensures !old(connectedReadSession.CanReceive()) ==>
        length == 0 && connectedReadSession.pool == old(connectedReadSession.pool) && readRegion == None
      ensures old(connectedReadSession.CanReceive()) ==>
        HoldsOldest() && length == Decode64(connectedReadSession.pool.memory[readRegion.value][..PREFIX_SIZE])
    {
      var ok, n := Read(null, 0, 0);
      if !ok {
        return 0;
      }
      length := Decode64(connectedReadSession.pool.memory[readRegion.value][..PREFIX_SIZE]);
    }

    /** Copies out of the held region, which stays held. */
    method ReadFromLengthPrefixed(bytes: array<Byte>, count: nat) returns (ok: bool, numBytesRead: int)
      requires Valid() && readRegion.Some? && PREFIX_SIZE + count <= bufferSize && count <= bytes.Length
      modifies bytes
      ensures ok && numBytesRead == count && Valid()
      ensures bytes[..] ==
        Store(old(bytes[..]), 0, connectedReadSession.pool.memory[readRegion.value][PREFIX_SIZE..PREFIX_SIZE + count])
    {
      Memcpy(bytes, 0, connectedReadSession.pool.memory[readRegion.value][PREFIX_SIZE..PREFIX_SIZE + count]);
      ok, numBytesRead := true, count;
    }
  }
}
