/** The process-wide table `_buffers` from connection ids to sessions, guarded by `_bufferLockMutex`. */
module Registry {

  /** The table and the sessions that have not been deleted, with their `UsageId()`. A token is the
      address of its session; a deleted session's address may be used again. */
  datatype Table = Table(buffers: map<string, int>, live: map<int, string>) {

    /** Every key maps to the live session with that usage id, and every session is found under its own. */
    ghost predicate Valid() {
      && (forall id :: id in buffers ==> buffers[id] in live && live[buffers[id]] == id)
      && (forall t :: t in live ==> live[t] in buffers && buffers[live[t]] == t)
    }

    /** `RegisterSidebandData`, for a session just constructed; the source asserts the id is not in use. */
    function Register(id: string, token: int): Table {
      Table(buffers[id := token], live[token := id])
    }

    /** `CloseSidebandData`, which asserts that the session's id is in the table. */
    function Close(token: int): Table
      requires token in live
    {
      Table(buffers - {live[token]}, live - {token})
    }
  }

  datatype Operation = Register(id: string, token: int) | Lookup(id: string) | Close(token: int)

  predicate Allowed(t: Table, op: Operation) {
    match op
    case Register(id, token) => id !in t.buffers && token !in t.live
    case Lookup(id) => id in t.buffers
    case Close(token) => token in t.live && t.live[token] in t.buffers
  }

  function Perform(t: Table, op: Operation): Table
    requires Allowed(t, op)
  {
    match op
    case Register(id, token) => t.Register(id, token)
    case Lookup(_) => t
    case Close(token) => t.Close(token)
  }

  /** Closing removes exactly the closed session; registering disturbs no other. */
  lemma PerformKeepsValid(t: Table, op: Operation)
    requires t.Valid() && Allowed(t, op)
    ensures Perform(t, op).Valid()
    ensures op.Close? ==>
      && Perform(t, op).buffers.Keys == t.buffers.Keys - {t.live[op.token]}
      && Perform(t, op).live.Keys == t.live.Keys - {op.token}
    ensures op.Register? ==>
      && Perform(t, op).buffers.Keys == t.buffers.Keys + {op.id} && Perform(t, op).buffers[op.id] == op.token
      && Perform(t, op).live.Keys == t.live.Keys + {op.token} && Perform(t, op).live[op.token] == op.id
    ensures forall token :: token in t.live && op != Close(token) ==>
      token in Perform(t, op).live && Perform(t, op).live[token] == t.live[token]
    ensures forall id :: id in t.buffers && op != Close(t.buffers[id]) ==>
      id in Perform(t, op).buffers && Perform(t, op).buffers[id] == t.buffers[id]
  {
    if op.Close? {
      var t' := Perform(t, op);
      forall token | token in t'.live
        ensures t'.live[token] in t'.buffers
      {
        assert t.buffers[t.live[token]] == token && t.buffers[t.live[op.token]] == op.token;
      }
    }
  }

  ghost predicate Run(ops: seq<Operation>, tables: seq<Table>) {
    && |tables| == |ops| + 1
    && tables[0] == Table(map[], map[])
    && forall i :: 0 <= i < |ops| ==> Allowed(tables[i], ops[i]) && tables[i + 1] == Perform(tables[i], ops[i])
  }

  lemma {:induction false} RunKeepsValid(ops: seq<Operation>, tables: seq<Table>, i: nat)
    requires Run(ops, tables) && i <= |ops|
    ensures tables[i].Valid()
  {
    if i > 0 {
      RunKeepsValid(ops, tables, i - 1);
      PerformKeepsValid(tables[i - 1], ops[i - 1]);
    }
  }

  /** A token handed out for an id stays live, and stays what the id leads to, until it is closed itself. */
  lemma {:induction false} TokenLivesUntilItsClose(ops: seq<Operation>, tables: seq<Table>, i: nat, j: nat)
    requires Run(ops, tables) && i < j <= |ops| && ops[i].Lookup?
    requires ops[i].id in tables[i].buffers
    requires forall k :: i <= k < j ==> ops[k] != Close(tables[i].buffers[ops[i].id])
    ensures var token := tables[i].buffers[ops[i].id];
      token in tables[j].live && ops[i].id in tables[j].buffers && tables[j].buffers[ops[i].id] == token
  {
    RunKeepsValid(ops, tables, i);
    RunKeepsValid(ops, tables, j - 1);
    RunKeepsValid(ops, tables, j);
    PerformKeepsValid(tables[j - 1], ops[j - 1]);
    if i + 1 < j {
      TokenLivesUntilItsClose(ops, tables, i, j - 1);
    }
  }

  /** What other threads' calls make of the table; a call that its caller may not make has no effect. */
  function PerformAll(t: Table, ops: seq<Operation>): Table {
    if ops == [] then t
    else
      var before := PerformAll(t, ops[..|ops| - 1]);
      var op := ops[|ops| - 1];
      if Allowed(before, op) then Perform(before, op) else before
  }

  /** The table as the library keeps it. `schedule` holds the calls other threads make whenever a waiting
      thread has given up the mutex. */
  class SidebandRegistry {
    var buffers: map<string, int>
    var live: map<int, string>
    var schedule: seq<Operation>

    function View(): Table
      reads this
    {
      Table(buffers, live)
    }

    constructor (schedule: seq<Operation>)
      ensures View() == Table(map[], map[]) && View().Valid() && this.schedule == schedule
    {
      buffers, live, this.schedule := map[], map[], schedule;
    }

    method RegisterSidebandData(usageId: string, sidebandData: int)
      requires View().Valid() && usageId !in buffers && sidebandData !in live
      modifies this`buffers, this`live
      ensures View().Valid()
      ensures buffers == old(buffers)[usageId := sidebandData] && live == old(live)[sidebandData := usageId]
    {
      PerformKeepsValid(View(), Register(usageId, sidebandData));
      buffers, live := buffers[usageId := sidebandData], live[sidebandData := usageId];
    }

    /** `_bufferLock.wait`: some other thread makes its next call. */
    method WaitForNotification()
      requires View().Valid() && schedule != []
      modifies this
      ensures View().Valid() && schedule == old(schedule)[1..]
      ensures View() == PerformAll(old(View()), [old(schedule)[0]])
    {
      var op := schedule[0];
      schedule := schedule[1..];
      assert [op][..0] == [];
      if Allowed(View(), op) {
        match op
        case Register(id, token) => RegisterSidebandData(id, token);
        case Lookup(_) =>
        case Close(token) => CloseSidebandData(token);
      }
    }

    /** Returns as soon as the id is registered, with the session registered under it. Only when no other
        thread registers it any more does the caller stay asleep (`!found`). */
    method GetOwnerSidebandDataToken(usageId: string) returns (found: bool, token: int, ghost meanwhile: seq<Operation>)
      requires View().Valid()
      modifies this
      ensures View().Valid() && old(schedule) == meanwhile + schedule
      ensures View() == PerformAll(old(View()), meanwhile)
      ensures forall k :: 0 <= k < |meanwhile| ==> usageId !in PerformAll(old(View()), meanwhile[..k]).buffers
      ensures found ==> usageId in buffers && token == buffers[usageId] && token in live && live[token] == usageId
      ensures !found ==> usageId !in buffers && schedule == []
    {
      meanwhile, token := [], 0;
      while usageId !in buffers
        invariant View().Valid() && old(schedule) == meanwhile + schedule
        invariant View() == PerformAll(old(View()), meanwhile)
        invariant forall k :: 0 <= k < |meanwhile| ==> usageId !in PerformAll(old(View()), meanwhile[..k]).buffers
        decreases |schedule|
      {
        if schedule == [] {
          return false, token, meanwhile;
        }
        ghost var op := schedule[0];
        assert meanwhile + schedule == (meanwhile + [op]) + schedule[1..];
        assert (meanwhile + [op])[..|meanwhile|] == meanwhile && [op][..0] == [];
        assert forall k :: 0 <= k < |meanwhile| ==> (meanwhile + [op])[..k] == meanwhile[..k];
        WaitForNotification();
        meanwhile := meanwhile + [op];
      }
      return true, buffers[usageId], meanwhile;
    }

    method CloseSidebandData(sidebandData: int)
      requires View().Valid() && sidebandData in live
      modifies this`buffers, this`live
      ensures View().Valid()
      ensures buffers == old(buffers) - {old(live[sidebandData])} && live == old(live) - {sidebandData}
    {
      PerformKeepsValid(View(), Close(sidebandData));
      buffers, live := buffers - {live[sidebandData]}, live - {sidebandData};
    }
  }
}
