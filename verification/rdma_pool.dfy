/** The two buffer regions of an RDMA session. On the sending side a region is free, acquired or queued;
    on the receiving side it is posted, filled or held: in both cases idle, pending in FIFO order, or
    taken by the application. */
module RdmaPool {
  import opened Bytes
  import opened Options

  const ALL_REGIONS: set<nat> := {0, 1}

  /** A pending region and its `usedSize`. */
  datatype Slot = Slot(region: nat, used: nat)

  datatype Pool = Pool(memory: seq<seq<Byte>>, idle: set<nat>, pending: seq<Slot>, taken: set<nat>) {

    ghost function PendingRegions(): set<nat> {
      Regions(pending)
    }

    /** Conservation: each of the two regions is in exactly one place. */
    ghost predicate Conserved() {
      && idle !! taken && idle !! PendingRegions() && taken !! PendingRegions()
      && idle + taken + PendingRegions() == ALL_REGIONS
      && forall i, j :: 0 <= i < j < |pending| ==> pending[i].region != pending[j].region
    }

    ghost predicate Sized(size: nat) {
      && |memory| == 2 && |memory[0]| == size && |memory[1]| == size
      && forall slot :: slot in pending ==> slot.used <= size
    }

    ghost predicate Valid(size: nat) {
      Conserved() && Sized(size)
    }

    /** What a pending region carries. */
    function Data(slot: Slot): seq<Byte>
      requires slot.region < |memory| && slot.used <= |memory[slot.region]|
    {
      memory[slot.region][..slot.used]
    }

    /** What all pending regions carry, oldest first. */
    ghost function PendingData(size: nat): (d: seq<seq<Byte>>)
      requires Valid(size)
      ensures |d| == |pending|
      ensures forall i :: 0 <= i < |d| ==> pending[i].region in ALL_REGIONS && d[i] == Data(pending[i])
    {
      PendingInRange(size);
      seq(|pending|, i requires 0 <= i < |pending| => Data(pending[i]))
    }

    lemma PendingInRange(size: nat)
      requires Valid(size)
      ensures forall i :: 0 <= i < |pending| ==> pending[i].region in ALL_REGIONS && pending[i].used <= size
      ensures |pending| <= 2
      ensures idle == {} && taken == {} ==> |pending| == 2
    {
      forall i | 0 <= i < |pending|
        ensures pending[i].region in PendingRegions()
      {
        assert pending[i] in pending;
      }
      CountRegions(pending);
      assert |PendingRegions()| + |ALL_REGIONS - PendingRegions()| == |ALL_REGIONS| by {
        assert ALL_REGIONS == PendingRegions() + (ALL_REGIONS - PendingRegions());
      }
    }

    /** `easyrdma_AcquireSendRegion`. */
    function Acquire(region: nat): Pool {
      this.(idle := idle - {region}, taken := taken + {region})
    }

    /** Bytes stored through a pointer into a region. */
    function Poke(region: nat, offset: nat, data: seq<Byte>): Pool
      requires region < |memory| && offset + |data| <= |memory[region]|
    {
      this.(memory := memory[region := Store(memory[region], offset, data)])
    }

    /** `easyrdma_QueueBufferRegion`. */
    function Queue(region: nat, used: nat): Pool {
      this.(taken := taken - {region}, pending := pending + [Slot(region, used)])
    }

    /** The oldest queued region has been transmitted. */
    function Transmitted(): Pool
      requires pending != []
    {
      this.(pending := pending[1..], idle := idle + {pending[0].region})
    }

    /** A transmission has arrived in a posted region. */
    function Fill(region: nat, data: seq<Byte>): Pool
      requires region < |memory| && |data| <= |memory[region]|
    {
      Poke(region, 0, data).(idle := idle - {region}, pending := pending + [Slot(region, |data|)])
    }

    /** `easyrdma_AcquireReceivedRegion`. */
    function AcquireReceived(): Pool
      requires pending != []
    {
      this.(pending := pending[1..], taken := taken + {pending[0].region})
    }

    /** `easyrdma_ReleaseReceivedBufferRegion`; releasing no region, or one that is not held, is an error
        the caller ignores. */
    function Release(region: Option<nat>): Pool {
      if region.Some? && region.value in taken
      then this.(taken := taken - {region.value}, idle := idle + {region.value})
      else this
    }
  }

  ghost function Regions(slots: seq<Slot>): set<nat> {
    set slot | slot in slots :: slot.region
  }

  lemma HeadAndTail(slots: seq<Slot>)
    requires slots != []
    ensures Regions(slots) == {slots[0].region} + Regions(slots[1..])
  {
    assert slots == [slots[0]] + slots[1..];
  }

  lemma HeadNotInTail(slots: seq<Slot>)
    requires slots != [] && forall i, j :: 0 <= i < j < |slots| ==> slots[i].region != slots[j].region
    ensures slots[0].region !in Regions(slots[1..])
  {
    forall slot | slot in slots[1..]
      ensures slot.region != slots[0].region
    {
      var i :| 0 <= i < |slots| - 1 && slots[1..][i] == slot;
      assert slots[i + 1] == slot;
    }
  }

  lemma OneMore(slots: seq<Slot>, slot: Slot)
    ensures Regions(slots + [slot]) == Regions(slots) + {slot.region}
    ensures forall i :: 0 <= i < |slots| ==> slots[i].region in Regions(slots)
  {
    forall i | 0 <= i < |slots|
      ensures slots[i].region in Regions(slots)
    {
      assert slots[i] in slots;
    }
    assert (slots + [slot])[|slots|] in slots + [slot];
    assert forall other :: other in slots ==> other in slots + [slot];
  }

  lemma {:induction false} CountRegions(slots: seq<Slot>)
    requires forall i, j :: 0 <= i < j < |slots| ==> slots[i].region != slots[j].region
    ensures |Regions(slots)| == |slots|
  {
    if slots != [] {
      CountRegions(slots[1..]);
      HeadAndTail(slots);
      HeadNotInTail(slots);
    }
  }

  /** `easyrdma_ConfigureBuffers(session, size, 2)`. */
  function Configured(size: nat): (p: Pool)
    ensures p.Valid(size) && p.taken == {} && p.pending == []
  {
    Pool([Zeros(size), Zeros(size)], ALL_REGIONS, [], {})
  }

  /** No sequence of operations, paired or not, loses or duplicates a region. */
  lemma AcquireConserves(p: Pool, region: nat, size: nat)
    requires p.Valid(size) && region in p.idle
    ensures p.Acquire(region).Valid(size) && region in ALL_REGIONS
  {
    assert p.Acquire(region).PendingRegions() == p.PendingRegions();
  }

  lemma PokeConserves(p: Pool, region: nat, offset: nat, data: seq<Byte>, size: nat)
    requires p.Valid(size) && region in ALL_REGIONS && offset + |data| <= size
    ensures p.Poke(region, offset, data).Valid(size)
  {
    assert p.Poke(region, offset, data).PendingRegions() == p.PendingRegions();
  }

  lemma QueueConserves(p: Pool, region: nat, used: nat, size: nat)
    requires p.Valid(size) && region in p.taken && used <= size
    ensures p.Queue(region, used).Valid(size)
    ensures p.Queue(region, used).PendingData(size) == p.PendingData(size) + [p.memory[region][..used]]
  {
    var q := p.Queue(region, used);
    OneMore(p.pending, q.pending[|p.pending|]);
  }

  lemma HeadLeaves(p: Pool, size: nat)
    requires p.Valid(size) && p.pending != []
    ensures p.pending[0].region in p.PendingRegions()
    ensures Regions(p.pending[1..]) == p.PendingRegions() - {p.pending[0].region}
  {
    HeadAndTail(p.pending);
    HeadNotInTail(p.pending);
  }

  lemma TransmittedConserves(p: Pool, size: nat)
    requires p.Valid(size) && p.pending != []
    ensures p.Transmitted().Valid(size)
    ensures p.Transmitted().PendingData(size) == p.PendingData(size)[1..]
  {
    HeadLeaves(p, size);
  }

  lemma AcquireReceivedConserves(p: Pool, size: nat)
    requires p.Valid(size) && p.pending != []
    ensures p.AcquireReceived().Valid(size)
    ensures p.AcquireReceived().PendingData(size) == p.PendingData(size)[1..]
    ensures p.pending[0].region in ALL_REGIONS
  {
    HeadLeaves(p, size);
  }

  lemma FillConserves(p: Pool, region: nat, data: seq<Byte>, size: nat)
    requires p.Valid(size) && region in p.idle && |data| <= size
    ensures p.Fill(region, data).Valid(size)
    ensures p.Fill(region, data).PendingData(size) == p.PendingData(size) + [data]
  {
    var q := p.Fill(region, data);
    OneMore(p.pending, q.pending[|p.pending|]);
    p.PendingInRange(size);
    assert q.memory[region][..|data|] == data;
  }

  lemma ReleaseConserves(p: Pool, region: Option<nat>, size: nat)
    requires p.Valid(size)
    ensures p.Release(region).Valid(size)
  {
    assert p.Release(region).PendingRegions() == p.PendingRegions();
  }

  /** Pending data depends only on the pending regions: storing into a taken one leaves it alone. */
  lemma SamePending(p: Pool, q: Pool, size: nat)
    requires p.Valid(size) && q.Valid(size) && q.pending == p.pending
    requires forall r :: r in ALL_REGIONS && r !in p.taken ==> q.memory[r] == p.memory[r]
    ensures q.PendingData(size) == p.PendingData(size)
  {
    p.PendingInRange(size);
    forall i | 0 <= i < |p.pending|
      ensures p.pending[i].region in p.PendingRegions()
    {
      assert p.pending[i] in p.pending;
    }
  }
}
